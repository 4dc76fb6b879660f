/**
 The adaptive limit on simultaneous requests: it grows by one for every so many successes and drops when the
 load is high. First with atomic insertion and removal, then with threads that interleave at every atomic access.
 */
module Throttle {
  /** Atomic unsigned counters wrap at 2^32. */
  const WIDTH: nat := 0x1_0000_0000

  datatype Options = Options(startLimit: nat, limit: nat, restartLimit: nat, increaseRate: nat)

  /** What option parsing guarantees. */
  predicate ValidOptions(o: Options) {
    0 < o.startLimit <= o.limit < WIDTH && o.restartLimit < WIDTH && 0 < o.increaseRate < WIDTH
  }

  datatype Limiter = Limiter(limit: nat, counter: nat, highLoad: bool)

  function Min(a: nat, b: nat): nat {
    if a < b then a else b
  }

  /** insertActiveRequest undisturbed, when n requests are active. */
  function Inserted(o: Options, s: Limiter, n: nat): Limiter {
    if n < s.limit then s.(highLoad := false) else Limiter(Min(s.limit, o.restartLimit), 0, true)
  }

  /** removeActiveRequest undisturbed, when n requests remain active. */
  function Removed(o: Options, s: Limiter, n: nat, ok: bool): Limiter
    requires o.increaseRate > 0
  {
    var flag := if n < s.limit then false else s.highLoad;
    if !ok then s.(highLoad := flag)
    else
      var counter := (s.counter + 1) % WIDTH;
      var grows := counter % o.increaseRate == 0 && s.limit < o.limit;
      Limiter(if grows then s.limit + 1 else s.limit, counter, flag)
  }

  // ---------------------------------------------------------------- the objects

  /** The register of active requests; keys are handed out in increasing order. */
  class ActiveRequests {
    var itsRequests: set<nat>
    var itsStartedCounter: nat
    var itsFinishedCounter: nat

    ghost predicate Valid()
      reads this
    {
      forall k :: k in itsRequests ==> 0 < k <= itsStartedCounter
    }

    constructor ()
      ensures Valid() && itsRequests == {} && itsStartedCounter == 0 && itsFinishedCounter == 0
    {
      itsRequests, itsStartedCounter, itsFinishedCounter := {}, 0, 0;
    }

    /** A new key is never one in use. */
    method Insert() returns (key: nat)
      requires Valid()
      modifies this
      ensures Valid() && key !in old(itsRequests) && itsRequests == old(itsRequests) + {key}
      ensures |itsRequests| == |old(itsRequests)| + 1
      ensures key == itsStartedCounter == old(itsStartedCounter) + 1 && itsFinishedCounter == old(itsFinishedCounter)
    {
      itsStartedCounter := itsStartedCounter + 1;
      key := itsStartedCounter;
      itsRequests := itsRequests + {key};
    }

    /** Removing an unknown key only counts. */
    method Remove(key: nat)
      requires Valid()
      modifies this
      ensures Valid() && itsRequests == old(itsRequests) - {key}
      ensures |itsRequests| == |old(itsRequests)| - (if key in old(itsRequests) then 1 else 0)
      ensures itsFinishedCounter == old(itsFinishedCounter) + 1 && itsStartedCounter == old(itsStartedCounter)
    {
      if key in itsRequests {
        itsRequests := itsRequests - {key};
      }
      itsFinishedCounter := itsFinishedCounter + 1;
    }

    method Size() returns (n: nat)
      ensures n == |itsRequests|
    {
      n := |itsRequests|;
    }
  }

  class Reactor {
    const options: Options
    const itsActiveRequests: ActiveRequests
    var itsActiveRequestsLimit: nat
    var itsActiveRequestsCounter: nat
    var itsHighLoadFlag: bool

    ghost predicate Valid()
      reads this, itsActiveRequests
    {
      ValidOptions(options) && itsActiveRequests.Valid() && itsActiveRequestsLimit <= options.limit
    }

    function Value(): Limiter
      reads this
    {
      Limiter(itsActiveRequestsLimit, itsActiveRequestsCounter, itsHighLoadFlag)
    }

    constructor (o: Options)
      requires ValidOptions(o)
      ensures Valid() && options == o && fresh(itsActiveRequests) && itsActiveRequests.itsRequests == {}
      ensures Value() == Limiter(o.startLimit, 0, false)
    {
      options := o;
      itsActiveRequests := new ActiveRequests();
      itsActiveRequestsLimit, itsActiveRequestsCounter, itsHighLoadFlag := o.startLimit, 0, false;
    }

    method InsertActiveRequest() returns (key: nat)
      requires Valid()
      modifies this, itsActiveRequests
      ensures Valid() && key !in old(itsActiveRequests.itsRequests)
      ensures itsActiveRequests.itsRequests == old(itsActiveRequests.itsRequests) + {key}
      ensures Value() == Inserted(options, old(Value()), |itsActiveRequests.itsRequests|)
    {
      key := itsActiveRequests.Insert();
      var n := itsActiveRequests.Size();
      if n < itsActiveRequestsLimit {
        itsHighLoadFlag := false;
        return;
      }
      itsActiveRequestsCounter := 0;
      itsHighLoadFlag := true;
      if itsActiveRequestsLimit > options.restartLimit {
        itsActiveRequestsLimit := options.restartLimit;
      }
    }

    method IsLoadHigh() returns (high: bool)
      ensures high == itsHighLoadFlag
    {
      high := itsHighLoadFlag;
    }

    method RemoveActiveRequest(key: nat, ok: bool)
      requires Valid()
      modifies this, itsActiveRequests
      ensures Valid() && itsActiveRequests.itsRequests == old(itsActiveRequests.itsRequests) - {key}
      ensures Value() == Removed(options, old(Value()), |itsActiveRequests.itsRequests|, ok)
    {
      itsActiveRequests.Remove(key);
      var n := itsActiveRequests.Size();
      if n < itsActiveRequestsLimit {
        itsHighLoadFlag := false;
      }
      if !ok {
        return;
      }
      itsActiveRequestsCounter := (itsActiveRequestsCounter + 1) % WIDTH;
      if itsActiveRequestsCounter % options.increaseRate == 0 {
        if itsActiveRequestsLimit < options.limit {
          itsActiveRequestsLimit := itsActiveRequestsLimit + 1;
        }
      }
    }
  }

  // ---------------------------------------------------------------- closed form

  datatype Request = Insert(n: nat) | Remove(n: nat, ok: bool)

  function Handle(o: Options, s: Limiter, r: Request): Limiter
    requires o.increaseRate > 0
  {
    match r
    case Insert(n) => Inserted(o, s, n)
    case Remove(n, ok) => Removed(o, s, n, ok)
  }

  function Replay(o: Options, history: seq<Request>): Limiter
    requires o.increaseRate > 0
  {
    if history == [] then Limiter(o.startLimit, 0, false)
    else Handle(o, Replay(o, history[..|history| - 1]), history[|history| - 1])
  }

  /** The last request of the history is an insertion that found the load high. */
  predicate EndsInReset(o: Options, history: seq<Request>)
    requires o.increaseRate > 0
  {
    history != [] && var last := history[|history| - 1];
    last.Insert? && Replay(o, history[..|history| - 1]).limit <= last.n
  }

  /** The limit just after the latest high-load insertion, or the start limit. */
  function Base(o: Options, history: seq<Request>): nat
    requires o.increaseRate > 0
  {
    if history == [] then o.startLimit
    else if EndsInReset(o, history) then Replay(o, history).limit
    else Base(o, history[..|history| - 1])
  }

  /** Successful requests finished since then. */
  function Successes(o: Options, history: seq<Request>): nat
    requires o.increaseRate > 0
  {
    if history == [] || EndsInReset(o, history) then 0
    else
      Successes(o, history[..|history| - 1]) + Gain(history[|history| - 1])
  }

  lemma ProductAtLeast(k: int, d: nat)
    requires d > 0
    ensures k >= 1 ==> k * d >= d
    ensures k <= -1 ==> k * d <= 0 - d
  {
    if k >= 1 {
      assert (k - 1) * d >= 0;
    } else if k <= -1 {
      assert (-k - 1) * d >= 0;
    }
  }

  lemma DivisionUnique(n: nat, d: nat, q: nat, r: nat)
    requires 0 <= r < d && n == q * d + r
    ensures n / d == q && n % d == r
  {
    var p := n / d;
    assert n == p * d + n % d;
    var k := q - p;
    assert k * d == q * d - p * d;
    ProductAtLeast(k, d);
  }

  lemma DivisionStep(c: nat, rate: nat)
    requires rate > 0
    ensures (c + 1) / rate == c / rate + (if (c + 1) % rate == 0 then 1 else 0)
    ensures (c + 1) % rate == if c % rate + 1 == rate then 0 else c % rate + 1
  {
    var q, r := c / rate, c % rate;
    assert c == q * rate + r;
    if r + 1 == rate {
      assert (q + 1) * rate == q * rate + rate;
      DivisionUnique(c + 1, rate, q + 1, 0);
    } else {
      DivisionUnique(c + 1, rate, q, r + 1);
    }
  }

  /** The limit is at most the configured maximum after every history, whatever it holds. */
  lemma {:induction false} NeverAboveMaximum(o: Options, history: seq<Request>)
    requires ValidOptions(o)
    ensures Replay(o, history).limit <= o.limit && Base(o, history) <= o.limit
    ensures Min(o.startLimit, o.restartLimit) <= Replay(o, history).limit
  {
    if history != [] {
      NeverAboveMaximum(o, history[..|history| - 1]);
    }
  }

  predicate Closed(o: Options, s: Limiter, base: nat, successes: nat)
    requires o.increaseRate > 0
  {
    s.limit == Min(o.limit, base + successes / o.increaseRate) && s.counter == successes
  }

  function Gain(r: Request): nat {
    if r.Remove? && r.ok then 1 else 0
  }

  /** One request that does not reset, seen through the closed form. */
  lemma ClosedStep(o: Options, s: Limiter, r: Request, base: nat, successes: nat)
    requires ValidOptions(o) && successes + Gain(r) < WIDTH && Closed(o, s, base, successes)
    requires r.Insert? ==> r.n < s.limit
    ensures Closed(o, Handle(o, s, r), base, successes + Gain(r))
  {
    DivisionStep(successes, o.increaseRate);
    if Gain(r) == 1 {
      assert (s.counter + 1) % WIDTH == successes + 1;
    }
  }

  lemma ClosedAtBase(o: Options, s: Limiter)
    requires ValidOptions(o) && s.limit <= o.limit && s.counter == 0
    ensures Closed(o, s, s.limit, 0)
  {
    DivisionUnique(0, o.increaseRate, 0, 0);
  }

  /**
   Closed form: with fewer than 2^32 successes since the last drop, the limit is the base plus one for every
   full batch of successes, capped by the maximum.
   */
  lemma {:induction false} LimitInClosedForm(o: Options, history: seq<Request>)
    requires ValidOptions(o) && Successes(o, history) < WIDTH
    ensures Closed(o, Replay(o, history), Base(o, history), Successes(o, history))
  {
    NeverAboveMaximum(o, history);
    if history == [] || EndsInReset(o, history) {
      ClosedAtBase(o, Replay(o, history));
    } else {
      var before := history[..|history| - 1];
      LimitInClosedForm(o, before);
      ClosedStep(o, Replay(o, before), history[|history| - 1], Base(o, before), Successes(o, before));
    }
  }

  // ---------------------------------------------------------------- the limit and the flag, by accounting alone

  /** The limit the latest reset left, the successes since, and whether the load is reported high. */
  datatype Account = Account(base: nat, successes: nat, high: bool)

  function LimitOf(o: Options, a: Account): nat
    requires o.increaseRate > 0
  {
    Min(o.limit, a.base + a.successes / o.increaseRate)
  }

  /**
   An insertion that reaches the limit reports a high load and starts over from the restart limit, unless the limit
   is lower already; one below the limit, and a removal that leaves fewer, report that it is over.
   */
  function Accounted(o: Options, history: seq<Request>): Account
    requires o.increaseRate > 0
  {
    if history == [] then Account(o.startLimit, 0, false)
    else
      var a := Accounted(o, history[..|history| - 1]);
      match history[|history| - 1]
      case Insert(n) =>
        if n >= LimitOf(o, a) then Account(Min(LimitOf(o, a), o.restartLimit), 0, true) else a.(high := false)
      case Remove(n, ok) =>
        Account(a.base, a.successes + (if ok then 1 else 0), a.high && n >= LimitOf(o, a))
  }

  /** Never as many successes between two resets as the counter can hold. */
  predicate NoWrap(o: Options, history: seq<Request>)
    requires o.increaseRate > 0
  {
    Accounted(o, history).successes < WIDTH && (history != [] ==> NoWrap(o, history[..|history| - 1]))
  }

  predicate Agrees(o: Options, s: Limiter, a: Account)
    requires o.increaseRate > 0
  {
    Closed(o, s, a.base, a.successes) && s.highLoad == a.high && a.base <= o.limit
  }

  lemma AgreeStep(o: Options, s: Limiter, a: Account, r: Request)
    requires ValidOptions(o) && Agrees(o, s, a) && a.successes + Gain(r) < WIDTH
    ensures r.Insert? && r.n >= LimitOf(o, a) ==>
              Agrees(o, Handle(o, s, r), Account(Min(LimitOf(o, a), o.restartLimit), 0, true))
    ensures r.Insert? && r.n < LimitOf(o, a) ==> Agrees(o, Handle(o, s, r), a.(high := false))
    ensures r.Remove? ==>
              Agrees(o, Handle(o, s, r), Account(a.base, a.successes + Gain(r), a.high && r.n >= LimitOf(o, a)))
  {
    var t := Handle(o, s, r);
    if r.Insert? && r.n >= s.limit {
      ClosedAtBase(o, t);
    } else {
      ClosedStep(o, s, r, a.base, a.successes);
    }
  }

  /**
   With whole calls, the limit and the flag are at any time what the accounting says: the base plus one for each
   full count of successes, cut off at the maximum, and high from an insertion that reaches the limit on until the
   load is seen to be below it.
   */
  lemma {:induction false} LimitAndFlagByAccounting(o: Options, history: seq<Request>)
    requires ValidOptions(o) && NoWrap(o, history)
    ensures Agrees(o, Replay(o, history), Accounted(o, history))
  {
    if history == [] {
      ClosedAtBase(o, Replay(o, history));
    } else {
      var before := history[..|history| - 1];
      LimitAndFlagByAccounting(o, before);
      AgreeStep(o, Replay(o, before), Accounted(o, before), history[|history| - 1]);
    }
  }

  // ---------------------------------------------------------------- interleaving at every atomic access

  /** Program points; `n` is the number of active requests read earlier, `ok` the status being reported. */
  datatype Point =
    | Idle
    | InsertSize            // about to read the number of active requests
    | InsertTest(n: nat)    // about to compare it with the limit
    | InsertCalm            // about to clear the high-load flag
    | InsertReset           // about to zero the success counter
    | InsertRaise           // about to set the high-load flag
    | DropTest              // about to compare the limit with the restart limit
    | Drop                  // about to store the restart limit
    | RemoveSize(ok: bool)
    | RemoveTest(n: nat, ok: bool)
    | RemoveCalm(ok: bool)
    | Count                 // about to increment the success counter
    | GrowTest              // about to compare the limit with the maximum
    | Grow                  // about to increment the limit

  datatype State = State(limiter: Limiter, active: set<nat>, started: nat, threads: seq<Point>)

  datatype Event = BeginInsert(t: nat) | BeginRemove(t: nat, key: nat, ok: bool) | Act(t: nat)

  predicate Allowed(s: State, e: Event) {
    match e
    case BeginInsert(t) => t < |s.threads| && s.threads[t].Idle?
    case BeginRemove(t, _, _) => t < |s.threads| && s.threads[t].Idle?
    case Act(t) => t < |s.threads| && !s.threads[t].Idle?
  }

  function Goto(s: State, t: nat, p: Point): State
    requires t < |s.threads|
  {
    s.(threads := s.threads[t := p])
  }

  function Next(o: Options, s: State, e: Event): State
    requires ValidOptions(o) && Allowed(s, e)
  {
    match e
    case BeginInsert(t) => Goto(s.(started := s.started + 1, active := s.active + {s.started + 1}), t, InsertSize)
    case BeginRemove(t, key, ok) => Goto(s.(active := s.active - {key}), t, RemoveSize(ok))
    case Act(t) => Acted(o, s, t)
  }

  function Acted(o: Options, s: State, t: nat): State
    requires ValidOptions(o) && t < |s.threads|
  {
    var l := s.limiter;
    match s.threads[t]
    case Idle => s
    case InsertSize => Goto(s, t, InsertTest(|s.active|))
    case InsertTest(n) => Goto(s, t, if n < l.limit then InsertCalm else InsertReset)
    case InsertCalm => Goto(s.(limiter := l.(highLoad := false)), t, Idle)
    case InsertReset => Goto(s.(limiter := l.(counter := 0)), t, InsertRaise)
    case InsertRaise => Goto(s.(limiter := l.(highLoad := true)), t, DropTest)
    case DropTest => Goto(s, t, if l.limit > o.restartLimit then Drop else Idle)
    case Drop => Goto(s.(limiter := l.(limit := o.restartLimit)), t, Idle)
    case RemoveSize(ok) => Goto(s, t, RemoveTest(|s.active|, ok))
    case RemoveTest(n, ok) => Goto(s, t, if n < l.limit then RemoveCalm(ok) else if ok then Count else Idle)
    case RemoveCalm(ok) => Goto(s.(limiter := l.(highLoad := false)), t, if ok then Count else Idle)
    case Count =>
      var counter := (l.counter + 1) % WIDTH;
      Goto(s.(limiter := l.(counter := counter)), t, if counter % o.increaseRate == 0 then GrowTest else Idle)
    case GrowTest => Goto(s, t, if l.limit < o.limit then Grow else Idle)
    case Grow => Goto(s.(limiter := l.(limit := (l.limit + 1) % WIDTH)), t, Idle)
  }

  function Start(o: Options, n: nat): State {
    State(Limiter(o.startLimit, 0, false), {}, 0, seq(n, _ => Idle))
  }

  predicate AllowedRun(o: Options, s: State, events: seq<Event>)
    requires ValidOptions(o)
    decreases |events|
  {
    events == [] || (Allowed(s, events[0]) && AllowedRun(o, Next(o, s, events[0]), events[1..]))
  }

  function Run(o: Options, s: State, events: seq<Event>): State
    requires ValidOptions(o) && AllowedRun(o, s, events)
    decreases |events|
  {
    if events == [] then s else Run(o, Next(o, s, events[0]), events[1..])
  }

  /** Threads that have seen a limit below the maximum and are about to increment it. */
  function Growing(threads: seq<Point>): nat {
    if threads == [] then 0 else (if threads[0].Grow? then 1 else 0) + Growing(threads[1..])
  }

  lemma {:induction false} GrowingUpdate(threads: seq<Point>, t: nat, p: Point)
    requires t < |threads|
    ensures Growing(threads[t := p]) == Growing(threads) - (if threads[t].Grow? then 1 else 0) + (if p.Grow? then 1 else 0)
  {
    if t == 0 {
      assert threads[t := p][1..] == threads[1..];
    } else {
      assert threads[t := p][1..] == threads[1..][t - 1 := p];
      GrowingUpdate(threads[1..], t - 1, p);
    }
  }

  lemma {:induction false} GrowingBound(threads: seq<Point>)
    ensures Growing(threads) <= |threads|
  {
    if threads != [] {
      GrowingBound(threads[1..]);
    }
  }

  /** A pending increment is already counted in the bound; a pending drop never raises the limit. */
  ghost predicate Inv(o: Options, s: State) {
    && s.limiter.limit + Growing(s.threads) <= o.limit + |s.threads| - 1
    && Min(o.startLimit, o.restartLimit) <= s.limiter.limit
    && (forall t :: 0 <= t < |s.threads| && s.threads[t].Drop? ==> o.restartLimit <= s.limiter.limit)
  }

  lemma StepBound(o: Options, s: State, e: Event)
    requires ValidOptions(o) && o.limit + |s.threads| - 1 < WIDTH && Inv(o, s) && Allowed(s, e)
    ensures var u := Next(o, s, e);
            |u.threads| == |s.threads| && u.limiter.limit + Growing(u.threads) <= o.limit + |u.threads| - 1
  {
    var u := Next(o, s, e);
    GrowingUpdate(s.threads, e.t, u.threads[e.t]);
    GrowingBound(u.threads);
  }

  lemma StepFloor(o: Options, s: State, e: Event)
    requires ValidOptions(o) && o.limit + |s.threads| - 1 < WIDTH && Inv(o, s) && Allowed(s, e)
    ensures var u := Next(o, s, e);
            && Min(o.startLimit, o.restartLimit) <= u.limiter.limit
            && forall t :: 0 <= t < |u.threads| && u.threads[t].Drop? ==> o.restartLimit <= u.limiter.limit
  {
    var u := Next(o, s, e);
    GrowingUpdate(s.threads, e.t, u.threads[e.t]);
    assert forall t :: 0 <= t < |u.threads| && t != e.t ==> u.threads[t] == s.threads[t];
  }

  /** No single access breaks the bound: every thread about to raise the limit is counted. */
  lemma StepKeeps(o: Options, s: State, e: Event)
    requires ValidOptions(o) && o.limit + |s.threads| - 1 < WIDTH && Inv(o, s) && Allowed(s, e)
    ensures Inv(o, Next(o, s, e)) && |Next(o, s, e).threads| == |s.threads|
  {
    StepBound(o, s, e);
    StepFloor(o, s, e);
  }

  lemma {:induction false} RunKeeps(o: Options, s: State, events: seq<Event>)
    requires ValidOptions(o) && o.limit + |s.threads| - 1 < WIDTH && Inv(o, s) && AllowedRun(o, s, events)
    ensures Inv(o, Run(o, s, events)) && |Run(o, s, events).threads| == |s.threads|
    decreases |events|
  {
    if events != [] {
      StepKeeps(o, s, events[0]);
      RunKeeps(o, Next(o, s, events[0]), events[1..]);
    }
  }

  lemma {:induction false} NobodyGrows(threads: seq<Point>)
    requires forall t :: 0 <= t < |threads| ==> threads[t].Idle?
    ensures Growing(threads) == 0
  {
    if threads != [] {
      NobodyGrows(threads[1..]);
    }
  }

  /** With n threads racing at single accesses the limit overshoots the maximum by at most n - 1. */
  lemma LimitUnderRaces(o: Options, n: nat, events: seq<Event>)
    requires ValidOptions(o) && n > 0 && o.limit + n - 1 < WIDTH && AllowedRun(o, Start(o, n), events)
    ensures Min(o.startLimit, o.restartLimit) <= Run(o, Start(o, n), events).limiter.limit <= o.limit + n - 1
  {
    NobodyGrows(Start(o, n).threads);
    RunKeeps(o, Start(o, n), events);
  }

  // ---------------------------------------------------------------- undisturbed threads, and the bound is met

  function Rank(p: Point): nat {
    match p
    case Idle => 0
    case Grow => 1
    case GrowTest => 2
    case Count => 3
    case RemoveCalm(_) => 4
    case RemoveTest(_, _) => 5
    case RemoveSize(_) => 6
    case Drop => 1
    case DropTest => 2
    case InsertRaise => 3
    case InsertReset => 4
    case InsertCalm => 4
    case InsertTest(_) => 5
    case InsertSize => 6
  }

  /** Thread t alone runs to the end of its call. */
  function Alone(o: Options, s: State, t: nat): State
    requires ValidOptions(o) && t < |s.threads|
    decreases Rank(s.threads[t])
  {
    if s.threads[t].Idle? then s else Alone(o, Acted(o, s, t), t)
  }

  lemma AloneAgain(o: Options, s: State, t: nat)
    requires ValidOptions(o) && t < |s.threads| && !s.threads[t].Idle?
    ensures Alone(o, s, t) == Alone(o, Acted(o, s, t), t)
  {
  }

  /** Without interference the single accesses of an insertion add up to the atomic insertion. */
  lemma AloneInserts(o: Options, s: State, t: nat)
    requires ValidOptions(o) && Allowed(s, BeginInsert(t))
    ensures var r := Alone(o, Next(o, s, BeginInsert(t)), t);
            && r.limiter == Inserted(o, s.limiter, |s.active + {s.started + 1}|)
            && r.threads == s.threads && r.active == s.active + {s.started + 1}
  {
    var s1 := Next(o, s, BeginInsert(t));
    AloneAgain(o, s1, t);
    var s2 := Acted(o, s1, t);
    AloneAgain(o, s2, t);
    var s3 := Acted(o, s2, t);
    AloneAgain(o, s3, t);
    var s4 := Acted(o, s3, t);
    if |s1.active| < s.limiter.limit {
      assert s4.threads == s.threads;
    } else {
      AloneAgain(o, s4, t);
      var s5 := Acted(o, s4, t);
      AloneAgain(o, s5, t);
      var s6 := Acted(o, s5, t);
      if s.limiter.limit > o.restartLimit {
        AloneAgain(o, s6, t);
        assert Acted(o, s6, t).threads == s.threads;
      } else {
        assert s6.threads == s.threads;
      }
    }
  }

  /** Likewise for a removal. */
  lemma AloneRemoves(o: Options, s: State, t: nat, key: nat, ok: bool)
    requires ValidOptions(o) && Allowed(s, BeginRemove(t, key, ok))
    ensures var r := Alone(o, Next(o, s, BeginRemove(t, key, ok)), t);
            && r.limiter == Removed(o, s.limiter, |s.active - {key}|, ok)
            && r.threads == s.threads && r.active == s.active - {key}
  {
    var s1 := Next(o, s, BeginRemove(t, key, ok));
    AloneAgain(o, s1, t);
    var s2 := Acted(o, s1, t);
    AloneAgain(o, s2, t);
    var s3 := Acted(o, s2, t);
    if s3.threads[t].RemoveCalm? {
      AloneAgain(o, s3, t);
      var s4 := Acted(o, s3, t);
      AloneCounts(o, s, s4, t, ok);
    } else {
      AloneCounts(o, s, s3, t, ok);
    }
  }

  lemma AloneCounts(o: Options, s: State, u: State, t: nat, ok: bool)
    requires ValidOptions(o) && t < |s.threads| && s.threads[t].Idle?
    requires u.threads == s.threads[t := if ok then Count else Idle]
    ensures var r := Alone(o, u, t);
            && r.threads == s.threads && r.active == u.active
            && r.limiter == if !ok then u.limiter else
                 var counter := (u.limiter.counter + 1) % WIDTH;
                 var grows := counter % o.increaseRate == 0 && u.limiter.limit < o.limit;
                 Limiter(if grows then u.limiter.limit + 1 else u.limiter.limit, counter, u.limiter.highLoad)
  {
    assert s.threads[t := Idle] == s.threads;
    if ok {
      AloneAgain(o, u, t);
      var u1 := Acted(o, u, t);
      if u1.threads[t].GrowTest? {
        AloneAgain(o, u1, t);
        var u2 := Acted(o, u1, t);
        if u2.threads[t].Grow? {
          AloneAgain(o, u2, t);
          assert Acted(o, u2, t).threads == s.threads;
        } else {
          assert u2.threads == s.threads;
        }
      } else {
        assert u1.threads == s.threads;
      }
    }
  }

  /** The first k threads take one step each. */
  function EachActs(o: Options, s: State, k: nat): State
    requires ValidOptions(o) && k <= |s.threads|
    ensures |EachActs(o, s, k).threads| == |s.threads|
  {
    if k == 0 then s else Acted(o, EachActs(o, s, k - 1), k - 1)
  }

  lemma {:induction false} EachTests(o: Options, s: State, k: nat)
    requires ValidOptions(o) && k <= |s.threads| && s.limiter.limit < o.limit
    requires forall t :: 0 <= t < |s.threads| ==> s.threads[t].GrowTest?
    ensures var u := EachActs(o, s, k);
            && u.limiter == s.limiter
            && forall t :: 0 <= t < |s.threads| ==> u.threads[t] == if t < k then Grow else GrowTest
  {
    if k > 0 {
      EachTests(o, s, k - 1);
    }
  }

  lemma {:induction false} EachGrows(o: Options, s: State, k: nat)
    requires ValidOptions(o) && k <= |s.threads| && s.limiter.limit + |s.threads| < WIDTH
    requires forall t :: 0 <= t < |s.threads| ==> s.threads[t].Grow?
    ensures var u := EachActs(o, s, k);
            && u.limiter.limit == s.limiter.limit + k
            && forall t :: k <= t < |s.threads| ==> u.threads[t].Grow?
  {
    if k > 0 {
      EachGrows(o, s, k - 1);
    }
  }

  /** The bound under races is met: n threads that test just below the maximum all increment. */
  lemma BoundIsMet(o: Options, s: State)
    requires ValidOptions(o) && s.limiter.limit == o.limit - 1 && o.limit + |s.threads| - 1 < WIDTH
    requires forall t :: 0 <= t < |s.threads| ==> s.threads[t].GrowTest?
    ensures var n := |s.threads|;
            EachActs(o, EachActs(o, s, n), n).limiter.limit == o.limit + n - 1
  {
    EachTests(o, s, |s.threads|);
    EachGrows(o, EachActs(o, s, |s.threads|), |s.threads|);
  }

  // ---------------------------------------------------------------- when some run exceeds the maximum

  ghost predicate Reaches(o: Options, s: State, u: State)
    requires ValidOptions(o)
  {
    exists events :: AllowedRun(o, s, events) && Run(o, s, events) == u
  }

  lemma {:induction false} RunJoin(o: Options, s: State, a: seq<Event>, b: seq<Event>)
    requires ValidOptions(o) && AllowedRun(o, s, a) && AllowedRun(o, Run(o, s, a), b)
    ensures AllowedRun(o, s, a + b) && Run(o, s, a + b) == Run(o, Run(o, s, a), b)
    decreases |a|
  {
    if a == [] {
      assert a + b == b;
    } else {
      assert (a + b)[0] == a[0] && (a + b)[1..] == a[1..] + b;
      RunJoin(o, Next(o, s, a[0]), a[1..], b);
    }
  }

  lemma ReachesSelf(o: Options, s: State)
    requires ValidOptions(o)
    ensures Reaches(o, s, s)
  {
    assert AllowedRun(o, s, []) && Run(o, s, []) == s;
  }

  lemma ReachesNext(o: Options, s: State, e: Event)
    requires ValidOptions(o) && Allowed(s, e)
    ensures Reaches(o, s, Next(o, s, e))
  {
    assert [e][1..] == [];
    assert AllowedRun(o, s, [e]) && Run(o, s, [e]) == Next(o, s, e);
  }

  lemma ReachesOn(o: Options, s: State, u: State, v: State)
    requires ValidOptions(o) && Reaches(o, s, u) && Reaches(o, u, v)
    ensures Reaches(o, s, v)
  {
    var a :| AllowedRun(o, s, a) && Run(o, s, a) == u;
    var b :| AllowedRun(o, u, b) && Run(o, u, b) == v;
    RunJoin(o, s, a, b);
  }

  lemma {:induction false} ReachesAlone(o: Options, s: State, t: nat)
    requires ValidOptions(o) && t < |s.threads|
    ensures Reaches(o, s, Alone(o, s, t))
    ensures Alone(o, s, t).started == s.started
    decreases Rank(s.threads[t])
  {
    if s.threads[t].Idle? {
      ReachesSelf(o, s);
    } else {
      ReachesNext(o, s, Act(t));
      ReachesAlone(o, Acted(o, s, t), t);
      ReachesOn(o, s, Acted(o, s, t), Alone(o, s, t));
    }
  }

  /** A whole successful removal of nothing by one thread. */
  lemma OneRemoval(o: Options, s: State, t: nat) returns (u: State)
    requires ValidOptions(o) && t < |s.threads| && s.threads[t].Idle?
    ensures Reaches(o, s, u) && u.threads == s.threads
    ensures u.limiter.counter == (s.limiter.counter + 1) % WIDTH
    ensures u.limiter.limit == if Hits(o, s.limiter.counter) && s.limiter.limit < o.limit then s.limiter.limit + 1 else s.limiter.limit
  {
    var e := BeginRemove(t, 0, true);
    u := Alone(o, Next(o, s, e), t);
    AloneRemoves(o, s, t, 0, true);
    ReachesNext(o, s, e);
    ReachesAlone(o, Next(o, s, e), t);
    ReachesOn(o, s, Next(o, s, e), u);
  }

  /** The next success makes the limit grow. */
  predicate Hits(o: Options, counter: nat)
    requires ValidOptions(o)
  {
    (counter + 1) % WIDTH % o.increaseRate == 0
  }

  lemma Wrapped(c: nat)
    requires c < WIDTH
    ensures (c + 1) % WIDTH == if c + 1 == WIDTH then 0 else c + 1
  {
  }

  lemma ZeroHits(rate: nat)
    requires rate > 0
    ensures 0 % rate == 0
  {
    DivisionUnique(0, rate, 0, 0);
  }

  lemma MissStep(o: Options, c: nat)
    requires ValidOptions(o) && c < WIDTH && !Hits(o, c)
    ensures (c + 1) % WIDTH == c + 1 < WIDTH
    ensures (c + 1) % o.increaseRate == c % o.increaseRate + 1
  {
    Wrapped(c);
    ZeroHits(o.increaseRate);
    DivisionStep(c, o.increaseRate);
  }

  /** One thread brings the success counter to just before a growth, and leaves the limit alone. */
  lemma {:induction false} CountUp(o: Options, s: State, t: nat) returns (u: State)
    requires ValidOptions(o) && t < |s.threads| && s.threads[t].Idle? && s.limiter.counter < WIDTH
    ensures Reaches(o, s, u) && u.threads == s.threads && u.limiter.limit == s.limiter.limit
    ensures Hits(o, u.limiter.counter) && u.limiter.counter < WIDTH
    decreases o.increaseRate - s.limiter.counter % o.increaseRate
  {
    if Hits(o, s.limiter.counter) {
      ReachesSelf(o, s);
      u := s;
    } else {
      MissStep(o, s.limiter.counter);
      var v := OneRemoval(o, s, t);
      u := CountUp(o, v, t);
      ReachesOn(o, s, v, u);
    }
  }

  lemma {:induction false} RaiseTo(o: Options, s: State, t: nat, limit: nat) returns (u: State)
    requires ValidOptions(o) && t < |s.threads| && s.threads[t].Idle? && s.limiter.counter < WIDTH
    requires s.limiter.limit <= limit <= o.limit
    ensures Reaches(o, s, u) && u.threads == s.threads && u.limiter.limit == limit && u.limiter.counter < WIDTH
    decreases limit - s.limiter.limit
  {
    if s.limiter.limit == limit {
      ReachesSelf(o, s);
      u := s;
    } else {
      var v := CountUp(o, s, t);
      var w := OneRemoval(o, v, t);
      ReachesOn(o, s, v, w);
      u := RaiseTo(o, w, t, limit);
      ReachesOn(o, s, w, u);
    }
  }

  lemma ActsTo(o: Options, s: State, u: State, t: nat)
    requires ValidOptions(o) && Reaches(o, s, u) && t < |u.threads| && !u.threads[t].Idle?
    ensures Reaches(o, s, Acted(o, u, t))
  {
    ReachesNext(o, u, Act(t));
    ReachesOn(o, s, u, Acted(o, u, t));
  }

  /** A thread reporting success, up to its count. */
  lemma ToCount(o: Options, s: State, t: nat) returns (u: State)
    requires ValidOptions(o) && t < |s.threads| && s.threads[t].Idle?
    ensures Reaches(o, s, u) && u.threads == s.threads[t := Count]
    ensures u.limiter.limit == s.limiter.limit && u.limiter.counter == s.limiter.counter
  {
    ReachesNext(o, s, BeginRemove(t, 0, true));
    u := Next(o, s, BeginRemove(t, 0, true));
    ActsTo(o, s, u, t);
    u := Acted(o, u, t);
    ActsTo(o, s, u, t);
    u := Acted(o, u, t);
    if u.threads[t].RemoveCalm? {
      ActsTo(o, s, u, t);
      u := Acted(o, u, t);
    }
  }

  /** A thread whose success is to raise the limit, held just before its test. */
  lemma Pause(o: Options, s: State, t: nat) returns (u: State)
    requires ValidOptions(o) && t < |s.threads| && s.threads[t].Idle? && Hits(o, s.limiter.counter)
    ensures Reaches(o, s, u) && u.threads == s.threads[t := GrowTest]
    ensures u.limiter.limit == s.limiter.limit && u.limiter.counter < WIDTH
  {
    u := ToCount(o, s, t);
    ActsTo(o, s, u, t);
    u := Acted(o, u, t);
  }

  predicate Paused(s: State, k: nat) {
    k <= |s.threads| && forall t :: 0 <= t < |s.threads| ==> s.threads[t] == if t < k then GrowTest else Idle
  }

  lemma {:induction false} PauseAll(o: Options, s: State, k: nat) returns (u: State)
    requires ValidOptions(o) && Paused(s, k) && s.limiter.counter < WIDTH
    ensures Reaches(o, s, u) && Paused(u, |s.threads|) && |u.threads| == |s.threads| && u.limiter.limit == s.limiter.limit
    decreases |s.threads| - k
  {
    if k == |s.threads| {
      ReachesSelf(o, s);
      u := s;
    } else {
      var v := CountUp(o, s, k);
      var w := Pause(o, v, k);
      ReachesOn(o, s, v, w);
      u := PauseAll(o, w, k + 1);
      ReachesOn(o, s, w, u);
    }
  }

  lemma {:induction false} ReachesEach(o: Options, s: State, k: nat)
    requires ValidOptions(o) && k <= |s.threads| && forall t :: 0 <= t < |s.threads| ==> !s.threads[t].Idle?
    ensures Reaches(o, s, EachActs(o, s, k))
    ensures forall t :: k <= t < |s.threads| ==> EachActs(o, s, k).threads[t] == s.threads[t]
  {
    if k == 0 {
      ReachesSelf(o, s);
    } else {
      ReachesEach(o, s, k - 1);
      var v := EachActs(o, s, k - 1);
      ReachesNext(o, v, Act(k - 1));
      ReachesOn(o, s, v, Acted(o, v, k - 1));
    }
  }

  predicate Resting(s: State) {
    s.threads != [] && s.limiter.counter < WIDTH && forall t :: 0 <= t < |s.threads| ==> s.threads[t].Idle?
  }

  /** From rest below the maximum, all threads together overshoot by all but one. */
  lemma Overshoot(o: Options, s: State) returns (u: State)
    requires ValidOptions(o) && Resting(s) && s.limiter.limit < o.limit && o.limit + |s.threads| - 1 < WIDTH
    ensures Reaches(o, s, u) && u.limiter.limit == o.limit + |s.threads| - 1
  {
    var n := |s.threads|;
    var a := RaiseTo(o, s, 0, o.limit - 1);
    var b := PauseAll(o, a, 0);
    ReachesOn(o, s, a, b);
    EachTests(o, b, n);
    var c := EachActs(o, b, n);
    ReachesEach(o, b, n);
    ReachesOn(o, s, b, c);
    ReachesEach(o, c, n);
    u := EachActs(o, c, n);
    ReachesOn(o, s, c, u);
    BoundIsMet(o, b);
  }

  /** Insertions by one thread, until the load is high and the limit drops. */
  lemma {:induction false} InsertUntilDrop(o: Options, s: State) returns (u: State)
    requires ValidOptions(o) && Resting(s) && |s.active| < s.limiter.limit && o.restartLimit < s.limiter.limit
    requires forall id :: id in s.active ==> id <= s.started
    ensures Reaches(o, s, u) && Resting(u) && |u.threads| == |s.threads| && u.limiter.limit == o.restartLimit
    decreases s.limiter.limit - |s.active|
  {
    var v := Alone(o, Next(o, s, BeginInsert(0)), 0);
    AloneInserts(o, s, 0);
    ReachesNext(o, s, BeginInsert(0));
    ReachesAlone(o, Next(o, s, BeginInsert(0)), 0);
    ReachesOn(o, s, Next(o, s, BeginInsert(0)), v);
    assert s.started + 1 !in s.active && |v.active| == |s.active| + 1;
    if |v.active| < s.limiter.limit {
      u := InsertUntilDrop(o, v);
      ReachesOn(o, s, v, u);
    } else {
      u := v;
    }
  }

  /** Starting at the maximum and restarting no lower, nobody ever grows or drops. */
  ghost predicate Steady(o: Options, s: State) {
    s.limiter.limit == o.limit && forall t :: 0 <= t < |s.threads| ==> !s.threads[t].Grow? && !s.threads[t].Drop?
  }

  lemma {:induction false} SteadyRun(o: Options, s: State, events: seq<Event>)
    requires ValidOptions(o) && o.limit <= o.restartLimit && Steady(o, s) && AllowedRun(o, s, events)
    ensures Steady(o, Run(o, s, events))
    decreases |events|
  {
    if events != [] {
      SteadyRun(o, Next(o, s, events[0]), events[1..]);
    }
  }

  ghost predicate CanReachLimit(o: Options, n: nat, limit: nat)
    requires ValidOptions(o)
  {
    exists u :: Reaches(o, Start(o, n), u) && u.limiter.limit == limit
  }

  lemma Climbs(o: Options, n: nat)
    requires ValidOptions(o) && n > 0 && o.limit + n - 1 < WIDTH
    requires o.startLimit < o.limit || o.restartLimit < o.limit
    ensures CanReachLimit(o, n, o.limit + n - 1)
  {
    var s := Start(o, n);
    if o.startLimit < o.limit {
      var u := Overshoot(o, s);
    } else {
      var v := InsertUntilDrop(o, s);
      var u := Overshoot(o, v);
      ReachesOn(o, s, v, u);
    }
  }

  /**
   Some run of n threads takes the limit above its maximum if and only if there are at least two of them and the
   limit ever starts, or starts again, below the maximum; the bound of n - 1 above it is then met.
   */
  lemma OvershootExactly(o: Options, n: nat)
    requires ValidOptions(o) && n > 0 && o.limit + n - 1 < WIDTH
    ensures (exists limit :: limit > o.limit && CanReachLimit(o, n, limit))
            <==> n > 1 && (o.startLimit < o.limit || o.restartLimit < o.limit)
    ensures o.startLimit < o.limit || o.restartLimit < o.limit ==> CanReachLimit(o, n, o.limit + n - 1)
  {
    if o.startLimit < o.limit || o.restartLimit < o.limit {
      Climbs(o, n);
    }
    forall u | Reaches(o, Start(o, n), u)
      ensures u.limiter.limit <= o.limit + n - 1
      ensures o.startLimit == o.limit <= o.restartLimit ==> u.limiter.limit == o.limit
    {
      var events :| AllowedRun(o, Start(o, n), events) && Run(o, Start(o, n), events) == u;
      LimitUnderRaces(o, n, events);
      if o.startLimit == o.limit <= o.restartLimit {
        SteadyRun(o, Start(o, n), events);
      }
    }
  }
}
