/**
 The background reverse-DNS resolver: a bounded, deduplicated queue served by worker threads that are
 started lazily, stopped by shutdown and woken through a condition variable.
 */
module Resolver {
  type IP = string
  type WorkerId = nat

  // ---------------------------------------------------------------- the object

  /** The fields guarded by itsMutex. Threads are numbered in the order they are started. */
  datatype Shared = Shared(
    queue: seq<IP>,
    inFlight: set<IP>,
    maxQueueSize: nat,
    workers: set<WorkerId>,
    started: nat,
    running: bool,
    stop: bool)

  function Ids(first: nat, next: nat): (ids: set<WorkerId>)
    ensures forall w: WorkerId :: w in ids <==> first <= w < next
    decreases next
  {
    if next <= first then {} else Ids(first, next - 1) + {next - 1}
  }

  function Missing(workers: set<WorkerId>, threads: nat): nat {
    if |workers| < threads then threads - |workers| else 0
  }

  lemma StartOne(before: set<WorkerId>, first: nat, next: nat)
    requires first <= next && forall w :: w in before ==> w < first
    ensures before + Ids(first, next + 1) == before + Ids(first, next) + {next}
    ensures |before + Ids(first, next + 1)| == |before + Ids(first, next)| + 1
  {
    assert before + Ids(first, next + 1) == before + Ids(first, next) + {next};
    assert next !in before + Ids(first, next);
  }

  /** startWorkersLocked: clears the stop flag when not running and starts threads up to the given number. */
  function WithWorkers(r: Shared, threads: nat): Shared {
    StartedUpTo(r, r.started + Missing(r.workers, threads))
  }

  function StartedUpTo(r: Shared, next: nat): Shared {
    r.(running := true, stop := r.running && r.stop, workers := r.workers + Ids(r.started, next), started := next)
  }

  predicate Accepts(r: Shared, ip: IP) {
    ip !in r.inFlight && |r.inFlight| < r.maxQueueSize
  }

  /** scheduleResolve: the workers are started even when the address is then turned away. */
  function Scheduled(r: Shared, ip: IP): Shared {
    var q := WithWorkers(r, 1);
    if Accepts(r, ip) then q.(queue := q.queue + [ip], inFlight := q.inFlight + {ip}) else q
  }

  function AtLeastOne(n: nat): nat {
    if n == 0 then 1 else n
  }

  function Configured(r: Shared, maxQueueSize: nat, threads: nat, enabled: bool): Shared {
    var q := r.(maxQueueSize := AtLeastOne(maxQueueSize));
    if enabled then WithWorkers(q, AtLeastOne(threads)) else q
  }

  function Stopped(r: Shared): Shared {
    if r.running then r.(running := false, stop := true, workers := {}) else r
  }

  /** The lock regions of the resolver object; blocking lookups happen between them. */
  class Resolver {
    var itsQueue: seq<IP>
    var itsInFlight: set<IP>
    var itsMaxQueueSize: nat
    var itsWorkers: set<WorkerId>
    var started: nat
    var itsRunning: bool
    var itsStop: bool

    function Value(): Shared
      reads this
    {
      Shared(itsQueue, itsInFlight, itsMaxQueueSize, itsWorkers, started, itsRunning, itsStop)
    }

    constructor ()
      ensures Value() == Shared([], {}, 1000, {}, 0, false, false)
    {
      itsQueue, itsInFlight, itsMaxQueueSize := [], {}, 1000;
      itsWorkers, started, itsRunning, itsStop := {}, 0, false, false;
    }

    /** Starts one more thread; `first` and `before` are where the enclosing loop began. */
    method StartThread(ghost before: set<WorkerId>, ghost first: nat)
      requires first <= started && itsWorkers == before + Ids(first, started)
      requires forall w :: w in before ==> w < first
      modifies this`itsWorkers, this`started
      ensures started == old(started) + 1 && |itsWorkers| == |old(itsWorkers)| + 1
      ensures itsWorkers == before + Ids(first, started)
    {
      StartOne(before, first, started);
      itsWorkers, started := itsWorkers + {started}, started + 1;
    }

    method StartThreads(threads: nat)
      requires forall w :: w in itsWorkers ==> w < started
      modifies this`itsWorkers, this`started
      ensures started == old(started) + Missing(old(itsWorkers), threads)
      ensures itsWorkers == old(itsWorkers) + Ids(old(started), started)
    {
      ghost var before, first := itsWorkers, started;
      while |itsWorkers| < threads
        invariant first <= started && started - first + |before| == |itsWorkers|
        invariant |itsWorkers| <= threads || started == first
        invariant itsWorkers == before + Ids(first, started)
      {
        StartThread(before, first);
      }
    }

    method StartWorkersLocked(threads: nat)
      requires forall w :: w in itsWorkers ==> w < started
      modifies this
      ensures Value() == WithWorkers(old(Value()), threads)
    {
      if !itsRunning {
        itsRunning := true;
        itsStop := false;
      }
      StartThreads(threads);
    }

    method ScheduleResolve(ip: IP)
      requires forall w :: w in itsWorkers ==> w < started
      modifies this
      ensures Value() == Scheduled(old(Value()), ip)
    {
      StartWorkersLocked(1);
      if ip in itsInFlight {
        return;
      }
      if |itsInFlight| >= itsMaxQueueSize {
        return;
      }
      itsInFlight := itsInFlight + {ip};
      itsQueue := itsQueue + [ip];
    }

    method Configure(maxQueueSize: nat, threads: nat, enabled: bool)
      requires forall w :: w in itsWorkers ==> w < started
      modifies this
      ensures Value() == Configured(old(Value()), maxQueueSize, threads, enabled)
    {
      itsMaxQueueSize := AtLeastOne(maxQueueSize);
      if enabled {
        StartWorkersLocked(AtLeastOne(threads));
      }
    }

    /** First half of shutdown; the threads to join leave with the caller. */
    method BeginShutdown() returns (workers: set<WorkerId>)
      modifies this
      ensures Value() == Stopped(old(Value()))
      ensures workers == if old(itsRunning) then old(itsWorkers) else {}
    {
      workers := {};
      if !itsRunning {
        return;
      }
      itsRunning := false;
      itsStop := true;
      workers, itsWorkers := itsWorkers, {};
    }

    /** A worker that finds the queue non-empty takes its oldest address. */
    method TakeJob() returns (ip: IP)
      requires itsQueue != []
      modifies this
      ensures ip == old(itsQueue)[0] && Value() == old(Value()).(queue := old(itsQueue)[1..])
    {
      ip := itsQueue[0];
      itsQueue := itsQueue[1..];
    }

    method FinishJob(ip: IP)
      modifies this
      ensures Value() == old(Value()).(inFlight := old(itsInFlight) - {ip})
    {
      itsInFlight := itsInFlight - {ip};
    }
  }

  // ---------------------------------------------------------------- the machine

  /**
   A worker thread: awake and about to test the queue, blocked on the condition variable, holding an address
   before or after its lookup or after its store, or returned from workerLoop.
   */
  datatype Worker = Awake | Blocked | Holding(ip: IP) | LookedUp(ip: IP, name: string) | StoredName(ip: IP) | Exited

  datatype State = State(
    r: Shared,
    workers: map<WorkerId, Worker>,
    joining: map<nat, set<WorkerId>>,
    peak: nat,
    accepted: multiset<IP>,
    lookups: multiset<IP>,
    stores: multiset<IP>,
    cache: map<IP, string>,
    resolved: set<(IP, string)>)

  datatype Event =
    | Schedule(ip: IP, wake: WorkerId)
    | Configure(maxQueueSize: nat, threads: nat, enabled: bool)
    | BeginShutdown(id: nat)
    | ReturnAtOnce
    | NotifyAll
    | FinishShutdown(id: nat)
    | Work(w: WorkerId, name: string)
    | SpuriousWake(w: WorkerId)
    | DropCached(ip: IP)

  predicate IsBlocked(s: State, w: WorkerId) {
    w in s.workers && s.workers[w].Blocked?
  }

  predicate Allowed(s: State, e: Event) {
    match e
    case Schedule(ip, wake) =>
      // notify_one wakes a blocked worker whenever there is one
      Accepts(s.r, ip) && (exists w :: w in s.workers && IsBlocked(s, w)) ==> IsBlocked(s, wake)
    case BeginShutdown(id) => s.r.running && id !in s.joining
    case ReturnAtOnce => !s.r.running  // a shutdown that finds nothing running
    case FinishShutdown(id) => id in s.joining && forall w :: w in s.joining[id] ==> w in s.workers && s.workers[w].Exited?
    case Work(w, _) => w in s.workers && !s.workers[w].Blocked? && !s.workers[w].Exited?
    case SpuriousWake(w) => IsBlocked(s, w)
    case _ => true
  }

  /** Newly started threads begin awake. */
  function Born(s: State, r: Shared): map<WorkerId, Worker> {
    map w | w in s.workers.Keys + Ids(s.r.started, r.started) :: if w in s.workers then s.workers[w] else Awake
  }

  function Max(a: nat, b: nat): nat {
    if a < b then b else a
  }

  function Next(s: State, e: Event): State
    requires Allowed(s, e)
  {
    match e
    case Schedule(ip, wake) =>
      var r := Scheduled(s.r, ip);
      var workers := Born(s, r);
      if Accepts(s.r, ip) then
        s.(r := r, accepted := s.accepted + multiset{ip},
           workers := if IsBlocked(s, wake) then workers[wake := Awake] else workers)
      else s.(r := r, workers := workers)
    case Configure(m, threads, enabled) =>
      var r := Configured(s.r, m, threads, enabled);
      s.(r := r, workers := Born(s, r), peak := Max(s.peak, AtLeastOne(m)))
    case BeginShutdown(id) => s.(r := Stopped(s.r), joining := s.joining[id := s.r.workers])
    case ReturnAtOnce => s.(r := Stopped(s.r))
    case NotifyAll => s.(workers := map w | w in s.workers :: if s.workers[w].Blocked? then Awake else s.workers[w])
    case FinishShutdown(id) => s.(joining := s.joining - {id})
    case Work(w, name) => Worked(s, w, name)
    case SpuriousWake(w) => s.(workers := s.workers[w := Awake])
    case DropCached(ip) => s.(cache := s.cache - {ip})
  }

  /** One step of workerLoop. */
  function Worked(s: State, w: WorkerId, name: string): State
    requires w in s.workers
  {
    match s.workers[w]
    case Awake =>
      if s.r.queue == [] then s.(workers := s.workers[w := if s.r.stop then Exited else Blocked])
      else s.(r := s.r.(queue := s.r.queue[1..]), workers := s.workers[w := Holding(s.r.queue[0])])
    case Holding(ip) =>
      s.(workers := s.workers[w := LookedUp(ip, name)], lookups := s.lookups + multiset{ip},
         resolved := s.resolved + {(ip, name)})
    case LookedUp(ip, found) =>
      s.(workers := s.workers[w := StoredName(ip)], stores := s.stores + multiset{ip}, cache := s.cache[ip := found])
    case StoredName(ip) =>
      s.(workers := s.workers[w := Awake], r := s.r.(inFlight := s.r.inFlight - {ip}))
    case _ => s
  }

  function Start(): State {
    State(Shared([], {}, 1000, {}, 0, false, false), map[], map[], 1000,
          multiset{}, multiset{}, multiset{}, map[], {})
  }

  predicate AllowedRun(s: State, events: seq<Event>)
    decreases |events|
  {
    events == [] || (Allowed(s, events[0]) && AllowedRun(Next(s, events[0]), events[1..]))
  }

  function Run(s: State, events: seq<Event>): State
    requires AllowedRun(s, events)
    decreases |events|
  {
    if events == [] then s else Run(Next(s, events[0]), events[1..])
  }

  // ---------------------------------------------------------------- invariants

  predicate Busy(t: Worker) {
    t.Holding? || t.LookedUp? || t.StoredName?
  }

  function Held(s: State): set<IP> {
    set w | w in s.workers && Busy(s.workers[w]) :: s.workers[w].ip
  }

  predicate NoDuplicates(q: seq<IP>) {
    forall i, j :: 0 <= i < j < |q| ==> q[i] != q[j]
  }

  /** The in-flight set is the disjoint union of the queue and the held addresses, each held once. */
  ghost predicate Partition(s: State) {
    && NoDuplicates(s.r.queue)
    && (forall w, v :: w in s.workers && v in s.workers && w != v && Busy(s.workers[w]) && Busy(s.workers[v]) ==>
                         s.workers[w].ip != s.workers[v].ip)
    && (forall w :: w in s.workers && Busy(s.workers[w]) ==>
                      s.workers[w].ip !in s.r.queue && s.workers[w].ip in s.r.inFlight)
    && (forall ip :: ip in s.r.queue ==> ip in s.r.inFlight)
    && (forall ip :: ip in s.r.inFlight ==> ip in s.r.queue || HeldBySome(s, ip))
  }

  ghost predicate HeldBySome(s: State, ip: IP) {
    exists w :: w in s.workers && Busy(s.workers[w]) && s.workers[w].ip == ip
  }

  ghost predicate Bounded(s: State) {
    s.r.maxQueueSize <= s.peak && |s.r.inFlight| <= s.peak
  }

  /** Registered threads never exit, and whoever has neither exited nor is registered is being joined. */
  ghost predicate Roster(s: State) {
    && (forall w: WorkerId :: w in s.workers <==> w < s.r.started)
    && (forall w :: w in s.r.workers ==> w in s.workers && !s.workers[w].Exited?)
    && (s.r.stop ==> !s.r.running)
    && (!s.r.running ==> s.r.workers == {})
    && (forall w :: w in s.workers && !s.workers[w].Exited? && w !in s.r.workers ==> BeingJoined(s, w))
  }

  ghost predicate BeingJoined(s: State, w: WorkerId) {
    exists id :: id in s.joining && w in s.joining[id]
  }

  predicate Live(t: Worker) {
    !t.Blocked? && !t.Exited?
  }

  /** A non-empty queue has a worker that is awake: no wake-up is ever lost. */
  ghost predicate Served(s: State) {
    s.r.queue != [] ==> exists w :: w in s.workers && Live(s.workers[w])
  }

  ghost predicate HeldAs(s: State, ip: IP, before: bool) {
    exists w :: w in s.workers && (if before then s.workers[w].Holding? else s.workers[w].LookedUp?) && s.workers[w].ip == ip
  }

  /** Every accepted address is waiting for exactly one lookup, and every lookup for exactly one store. */
  ghost predicate Accounted(s: State) {
    && (forall ip :: s.accepted[ip] == s.lookups[ip] + (if ip in s.r.queue || HeldAs(s, ip, true) then 1 else 0))
    && (forall ip :: s.lookups[ip] == s.stores[ip] + (if HeldAs(s, ip, false) then 1 else 0))
  }

  ghost predicate Honest(s: State) {
    && (forall ip :: ip in s.cache ==> (ip, s.cache[ip]) in s.resolved)
    && (forall w :: w in s.workers && s.workers[w].LookedUp? ==> (s.workers[w].ip, s.workers[w].name) in s.resolved)
  }

  ghost predicate Inv(s: State) {
    Partition(s) && Bounded(s) && Roster(s) && Served(s) && Accounted(s) && Honest(s)
  }

  // ---------------------------------------------------------------- preservation

  /** What starting threads does: some new ones, awake and registered, and nobody else moves. */
  ghost predicate Grown(s: State, r: Shared, workers: map<WorkerId, Worker>) {
    && r == s.r.(workers := r.workers, started := r.started, running := true, stop := s.r.running && s.r.stop)
    && (forall w: WorkerId :: w in workers <==> w < r.started)
    && (forall w :: w in s.workers ==> w in workers && workers[w] == s.workers[w])
    && (forall w :: w in workers && w !in s.workers ==> workers[w].Awake? && w in r.workers)
    && (forall w :: w in s.r.workers ==> w in r.workers)
    && (forall w :: w in r.workers ==> w in workers && !workers[w].Exited?)
  }

  lemma BornKeys(s: State, r: Shared, next: nat)
    requires s.r.started <= next && r == StartedUpTo(s.r, next) && forall w: WorkerId :: w in s.workers <==> w < s.r.started
    ensures forall w: WorkerId :: w in Born(s, r) <==> w < next
    ensures forall w :: w in s.workers ==> Born(s, r)[w] == s.workers[w]
    ensures forall w :: w in Born(s, r) && w !in s.workers ==> Born(s, r)[w].Awake? && w in r.workers
  {
    var ids := Ids(s.r.started, next);
    assert forall w: WorkerId :: w in ids <==> s.r.started <= w < next;
    assert Born(s, r).Keys == s.workers.Keys + ids;
  }

  lemma BornGrows(s: State, r: Shared, next: nat)
    requires Roster(s) && s.r.started <= next && r == StartedUpTo(s.r, next)
    ensures Grown(s, r, Born(s, r))
  {
    BornKeys(s, r, next);
    assert forall w :: w in r.workers ==> w in s.r.workers || s.r.started <= w < next;
  }

  lemma StartGrows(s: State, threads: nat)
    requires Roster(s)
    ensures Grown(s, WithWorkers(s.r, threads), Born(s, WithWorkers(s.r, threads)))
  {
    BornGrows(s, WithWorkers(s.r, threads), s.r.started + Missing(s.r.workers, threads));
  }

  lemma SomeWorker(r: Shared, threads: nat)
    ensures threads > 0 ==> WithWorkers(r, threads).workers != {}
  {
    if threads > 0 {
      if w :| w in r.workers {
        assert w in WithWorkers(r, threads).workers;
      } else {
        assert r.workers == {};
        assert r.started in WithWorkers(r, threads).workers;
      }
    }
  }

  /** Threads that are started, woken or put to sleep change no job. */
  lemma JobsUnchanged(s: State, t: State)
    requires Partition(s) && Accounted(s) && Honest(s)
    requires t.r.queue == s.r.queue && t.r.inFlight == s.r.inFlight
    requires t.accepted == s.accepted && t.lookups == s.lookups && t.stores == s.stores
    requires t.cache == s.cache && t.resolved == s.resolved
    requires forall w :: w in t.workers && Busy(t.workers[w]) ==> w in s.workers && s.workers[w] == t.workers[w]
    requires forall w :: w in s.workers && Busy(s.workers[w]) ==> w in t.workers && s.workers[w] == t.workers[w]
    ensures Partition(t) && Accounted(t) && Honest(t)
  {
    forall ip ensures HeldBySome(t, ip) == HeldBySome(s, ip) && HeldAs(t, ip, true) == HeldAs(s, ip, true)
                      && HeldAs(t, ip, false) == HeldAs(s, ip, false) {
    }
  }

  lemma StartKeeps(s: State, t: State)
    requires Inv(s) && Grown(s, t.r, t.workers) && t == s.(r := t.r, workers := t.workers)
    ensures Inv(t)
  {
    JobsUnchanged(s, t);
    assert Served(t) by {
      if t.r.queue != [] {
        var w :| w in s.workers && Live(s.workers[w]);
        assert w in t.workers && Live(t.workers[w]);
      }
    }
    JoiningKept(s, t);
  }

  lemma JoiningKept(s: State, t: State)
    requires Roster(s) && s.joining == t.joining
    requires forall w :: w in t.workers && !t.workers[w].Exited? && w !in t.r.workers ==>
                           w in s.workers && !s.workers[w].Exited? && w !in s.r.workers
    ensures forall w :: w in t.workers && !t.workers[w].Exited? && w !in t.r.workers ==> BeingJoined(t, w)
  {
    forall w | w in t.workers && !t.workers[w].Exited? && w !in t.r.workers ensures BeingJoined(t, w) {
      assert BeingJoined(s, w);
    }
  }

  /** Accepting one more address once a thread is registered: its jobs. */
  lemma PushJobs(s: State, ip: IP, t: State)
    requires Partition(s) && Accounted(s) && Honest(s) && Bounded(s) && Accepts(s.r, ip)
    requires t.r == s.r.(queue := s.r.queue + [ip], inFlight := s.r.inFlight + {ip})
    requires t.accepted == s.accepted + multiset{ip} && t.lookups == s.lookups && t.stores == s.stores
    requires t.cache == s.cache && t.resolved == s.resolved && t.peak == s.peak && t.workers == s.workers
    ensures Partition(t) && Accounted(t) && Honest(t) && Bounded(t)
  {
    forall x ensures HeldBySome(t, x) == HeldBySome(s, x) && HeldAs(t, x, true) == HeldAs(s, x, true)
                     && HeldAs(t, x, false) == HeldAs(s, x, false) {
    }
    assert !HeldAs(s, ip, true) && ip !in s.r.queue;
  }

  lemma PushKeeps(s: State, ip: IP, w: WorkerId, t: State)
    requires Inv(s) && Accepts(s.r, ip) && w in s.workers && Live(s.workers[w])
    requires t == s.(r := s.r.(queue := s.r.queue + [ip], inFlight := s.r.inFlight + {ip}),
                     accepted := s.accepted + multiset{ip})
    ensures Inv(t)
  {
    PushJobs(s, ip, t);
    JoiningKept(s, t);
    assert Served(t) by {
      assert Live(t.workers[w]);
    }
  }

  lemma WakeKeeps(s: State, t: State)
    requires Inv(s) && t == s.(workers := t.workers) && t.workers.Keys == s.workers.Keys
    requires forall w :: w in s.workers ==> t.workers[w] == s.workers[w] || (s.workers[w].Blocked? && t.workers[w].Awake?)
    ensures Inv(t)
  {
    JobsUnchanged(s, t);
    assert Served(t) by {
      if t.r.queue != [] {
        var w :| w in s.workers && Live(s.workers[w]);
        assert Live(t.workers[w]);
      }
    }
    JoiningKept(s, t);
  }

  /** A schedule is a start of workers, a wake-up and a push. */
  lemma ScheduleParts(s: State, ip: IP, wake: WorkerId)
    requires Allowed(s, Schedule(ip, wake))
    ensures var b := s.(r := WithWorkers(s.r, 1), workers := Born(s, WithWorkers(s.r, 1)));
            var c := if IsBlocked(s, wake) then b.(workers := b.workers[wake := Awake]) else b;
            Next(s, Schedule(ip, wake)) ==
              if !Accepts(s.r, ip) then b
              else c.(r := c.r.(queue := c.r.queue + [ip], inFlight := c.r.inFlight + {ip}),
                      accepted := c.accepted + multiset{ip})
  {
    assert Born(s, Scheduled(s.r, ip)) == Born(s, WithWorkers(s.r, 1));
  }

  lemma ScheduleKeeps(s: State, ip: IP, wake: WorkerId)
    requires Inv(s) && Allowed(s, Schedule(ip, wake))
    ensures Inv(Next(s, Schedule(ip, wake)))
  {
    var b := s.(r := WithWorkers(s.r, 1), workers := Born(s, WithWorkers(s.r, 1)));
    StartGrows(s, 1);
    SomeWorker(s.r, 1);
    StartKeeps(s, b);
    ScheduleParts(s, ip, wake);
    if Accepts(s.r, ip) {
      AcceptKeeps(s, b, ip, wake);
    }
  }

  lemma AcceptKeeps(s: State, b: State, ip: IP, wake: WorkerId)
    requires Inv(b) && Grown(s, b.r, b.workers) && b.r.workers != {} && Accepts(b.r, ip)
    requires (exists w :: w in s.workers && IsBlocked(s, w)) ==> IsBlocked(s, wake)
    ensures var c := if IsBlocked(s, wake) then b.(workers := b.workers[wake := Awake]) else b;
            Inv(c.(r := c.r.(queue := c.r.queue + [ip], inFlight := c.r.inFlight + {ip}),
                   accepted := c.accepted + multiset{ip}))
  {
    var c := if IsBlocked(s, wake) then b.(workers := b.workers[wake := Awake]) else b;
    WakeKeeps(b, c);
    var v :| v in b.r.workers;
    assert !IsBlocked(s, wake) ==> !IsBlocked(s, v);
    PushKeeps(c, ip, if IsBlocked(s, wake) then wake else v,
      c.(r := c.r.(queue := c.r.queue + [ip], inFlight := c.r.inFlight + {ip}), accepted := c.accepted + multiset{ip}));
  }

  lemma ResizeKeeps(s: State, m: nat, t: State)
    requires Inv(s) && t == s.(r := s.r.(maxQueueSize := m), peak := Max(s.peak, m))
    ensures Inv(t)
  {
    JobsUnchanged(s, t);
    JoiningKept(s, t);
  }

  lemma ConfigureParts(s: State, m: nat, threads: nat, enabled: bool)
    requires Roster(s)
    ensures var q := s.(r := s.r.(maxQueueSize := AtLeastOne(m)), peak := Max(s.peak, AtLeastOne(m)));
            Next(s, Configure(m, threads, enabled)) ==
              if enabled then q.(r := WithWorkers(q.r, AtLeastOne(threads)), workers := Born(q, WithWorkers(q.r, AtLeastOne(threads))))
              else q
  {
    var q := s.(r := s.r.(maxQueueSize := AtLeastOne(m)), peak := Max(s.peak, AtLeastOne(m)));
    var r := Configured(s.r, m, threads, enabled);
    assert Born(s, r) == if enabled then Born(q, WithWorkers(q.r, AtLeastOne(threads))) else s.workers;
  }

  lemma ConfigureKeeps(s: State, m: nat, threads: nat, enabled: bool)
    requires Inv(s)
    ensures Inv(Next(s, Configure(m, threads, enabled)))
  {
    var q := s.(r := s.r.(maxQueueSize := AtLeastOne(m)), peak := Max(s.peak, AtLeastOne(m)));
    ResizeKeeps(s, AtLeastOne(m), q);
    ConfigureParts(s, m, threads, enabled);
    if enabled {
      StartGrows(q, AtLeastOne(threads));
      StartKeeps(q, Next(s, Configure(m, threads, enabled)));
    }
  }

  lemma StopKeeps(s: State, id: nat)
    requires Inv(s) && Allowed(s, BeginShutdown(id))
    ensures Inv(Next(s, BeginShutdown(id)))
  {
    var t := Next(s, BeginShutdown(id));
    JobsUnchanged(s, t);
    forall w | w in t.workers && !t.workers[w].Exited? && w !in t.r.workers ensures BeingJoined(t, w) {
      if w in s.r.workers {
        assert w in t.joining[id];
      } else {
        var j :| j in s.joining && w in s.joining[j];
        assert j in t.joining && w in t.joining[j];
      }
    }
  }

  lemma FinishKeeps(s: State, id: nat)
    requires Inv(s) && Allowed(s, FinishShutdown(id))
    ensures Inv(Next(s, FinishShutdown(id)))
  {
    var t := Next(s, FinishShutdown(id));
    JobsUnchanged(s, t);
    forall w | w in t.workers && !t.workers[w].Exited? && w !in t.r.workers ensures BeingJoined(t, w) {
      var j :| j in s.joining && w in s.joining[j];
      assert j != id;
      assert j in t.joining && w in t.joining[j];
    }
  }

  // ---------------------------------------------------------------- worker steps

  lemma IdleKeeps(s: State, w: WorkerId, t: State)
    requires Inv(s) && w in s.workers && s.workers[w].Awake? && s.r.queue == []
    requires t == s.(workers := s.workers[w := if s.r.stop then Exited else Blocked])
    ensures Inv(t)
  {
    JobsUnchanged(s, t);
    JoiningKept(s, t);
  }

  /** The same jobs apart from one worker's: who holds what afterwards. */
  ghost predicate OneMoves(s: State, t: State, w: WorkerId) {
    && w in s.workers && s.workers.Keys == t.workers.Keys
    && (forall v :: v in s.workers && v != w ==> t.workers[v] == s.workers[v])
  }

  lemma RosterKept(s: State, t: State, w: WorkerId)
    requires Inv(s) && OneMoves(s, t, w) && s.joining == t.joining
    requires Live(s.workers[w]) && Live(t.workers[w])
    requires t.r.workers == s.r.workers && t.r.started == s.r.started && t.r.running == s.r.running && t.r.stop == s.r.stop
    ensures Roster(t) && Served(t)
  {
    JoiningKept(s, t);
  }

  lemma TakeJobs(s: State, w: WorkerId, t: State)
    requires Partition(s) && Accounted(s) && Honest(s) && w in s.workers && s.workers[w].Awake? && s.r.queue != []
    requires t == s.(r := s.r.(queue := s.r.queue[1..]), workers := s.workers[w := Holding(s.r.queue[0])])
    ensures Partition(t) && Accounted(t) && Honest(t)
  {
    var ip := s.r.queue[0];
    assert t.workers[w].ip == ip;
    assert forall x :: x in s.r.queue <==> x == ip || x in t.r.queue;
    assert ip !in t.r.queue;
    forall x ensures HeldBySome(t, x) <==> x == ip || HeldBySome(s, x) {
      forall v | v in s.workers && v != w ensures t.workers[v] == s.workers[v] {}
      if x != ip && HeldBySome(s, x) {
        var v :| v in s.workers && Busy(s.workers[v]) && s.workers[v].ip == x;
        assert t.workers[v] == s.workers[v];
      }
    }
    forall x ensures HeldAs(t, x, true) <==> x == ip || HeldAs(s, x, true) {
      if x != ip && HeldAs(s, x, true) {
        var v :| v in s.workers && s.workers[v].Holding? && s.workers[v].ip == x;
        assert t.workers[v] == s.workers[v];
      }
    }
    forall x ensures HeldAs(t, x, false) <==> HeldAs(s, x, false) {
      if HeldAs(s, x, false) {
        var v :| v in s.workers && s.workers[v].LookedUp? && s.workers[v].ip == x;
        assert t.workers[v] == s.workers[v];
      }
    }
    assert !HeldAs(s, ip, true);
  }

  lemma TakeKeeps(s: State, w: WorkerId, t: State)
    requires Inv(s) && w in s.workers && s.workers[w].Awake? && s.r.queue != []
    requires t == s.(r := s.r.(queue := s.r.queue[1..]), workers := s.workers[w := Holding(s.r.queue[0])])
    ensures Inv(t)
  {
    TakeJobs(s, w, t);
    RosterKept(s, t, w);
  }

  /** A worker that keeps its address but moves on to the next program point. */
  lemma HeldMoves(s: State, t: State, w: WorkerId)
    requires Partition(s) && OneMoves(s, t, w) && Busy(s.workers[w]) && Busy(t.workers[w])
    requires t.workers[w].ip == s.workers[w].ip && t.r == s.r
    ensures Partition(t)
    ensures forall x, before :: x != s.workers[w].ip ==> HeldAs(t, x, before) == HeldAs(s, x, before)
    ensures HeldAs(s, s.workers[w].ip, true) == s.workers[w].Holding?
    ensures HeldAs(t, s.workers[w].ip, true) == t.workers[w].Holding?
    ensures HeldAs(s, s.workers[w].ip, false) == s.workers[w].LookedUp?
    ensures HeldAs(t, s.workers[w].ip, false) == t.workers[w].LookedUp?
  {
    forall x ensures HeldBySome(t, x) == HeldBySome(s, x) {
      if HeldBySome(s, x) {
        var v :| v in s.workers && Busy(s.workers[v]) && s.workers[v].ip == x;
        assert Busy(t.workers[v]) && t.workers[v].ip == x;
      }
    }
    forall x, before | x != s.workers[w].ip ensures HeldAs(t, x, before) == HeldAs(s, x, before) {
      if HeldAs(s, x, before) {
        var v :| v in s.workers && (if before then s.workers[v].Holding? else s.workers[v].LookedUp?) && s.workers[v].ip == x;
        assert t.workers[v] == s.workers[v];
      }
    }
    OnlyHolder(s, w);
    OnlyHolder(t, w);
  }

  lemma OnlyHolder(s: State, w: WorkerId)
    requires Partition(s) && w in s.workers && Busy(s.workers[w])
    ensures HeldAs(s, s.workers[w].ip, true) == s.workers[w].Holding?
    ensures HeldAs(s, s.workers[w].ip, false) == s.workers[w].LookedUp?
  {
  }

  lemma LookupKeeps(s: State, w: WorkerId, name: string)
    requires Inv(s) && w in s.workers && s.workers[w].Holding?
    ensures Inv(Worked(s, w, name))
  {
    var t := Worked(s, w, name);
    HeldMoves(s, t, w);
    RosterKept(s, t, w);
    assert s.workers[w].ip !in s.r.queue;
  }

  lemma StoreKeeps(s: State, w: WorkerId, name: string)
    requires Inv(s) && w in s.workers && s.workers[w].LookedUp?
    ensures Inv(Worked(s, w, name))
  {
    var t := Worked(s, w, name);
    HeldMoves(s, t, w);
    RosterKept(s, t, w);
  }

  lemma ReleaseJobs(s: State, w: WorkerId, t: State)
    requires Partition(s) && Accounted(s) && Honest(s) && w in s.workers && s.workers[w].StoredName?
    requires t == s.(workers := s.workers[w := Awake], r := s.r.(inFlight := s.r.inFlight - {s.workers[w].ip}))
    ensures Partition(t) && Accounted(t) && Honest(t)
  {
    var ip := s.workers[w].ip;
    forall x | x != ip ensures HeldBySome(t, x) == HeldBySome(s, x) {
      if HeldBySome(s, x) {
        var v :| v in s.workers && Busy(s.workers[v]) && s.workers[v].ip == x;
        assert t.workers[v] == s.workers[v];
      }
    }
    forall x, before ensures HeldAs(t, x, before) == HeldAs(s, x, before) {
      if HeldAs(s, x, before) {
        var v :| v in s.workers && (if before then s.workers[v].Holding? else s.workers[v].LookedUp?) && s.workers[v].ip == x;
        assert t.workers[v] == s.workers[v];
      }
    }
  }

  lemma ReleaseKeeps(s: State, w: WorkerId, t: State)
    requires Inv(s) && w in s.workers && s.workers[w].StoredName?
    requires t == s.(workers := s.workers[w := Awake], r := s.r.(inFlight := s.r.inFlight - {s.workers[w].ip}))
    ensures Inv(t)
  {
    ReleaseJobs(s, w, t);
    RosterKept(s, t, w);
    assert |t.r.inFlight| <= |s.r.inFlight|;
  }

  lemma StepKeeps(s: State, e: Event)
    requires Inv(s) && Allowed(s, e)
    ensures Inv(Next(s, e))
  {
    match e
    case Schedule(ip, wake) => ScheduleKeeps(s, ip, wake);
    case Configure(m, threads, enabled) => ConfigureKeeps(s, m, threads, enabled);
    case BeginShutdown(id) => StopKeeps(s, id);
    case ReturnAtOnce =>
    case NotifyAll => WakeKeeps(s, Next(s, e));
    case FinishShutdown(id) => FinishKeeps(s, id);
    case Work(w, name) => WorkKeeps(s, w, name);
    case SpuriousWake(w) => WakeKeeps(s, Next(s, e));
    case DropCached(ip) => DropKeeps(s, ip);
  }

  lemma WorkKeeps(s: State, w: WorkerId, name: string)
    requires Inv(s) && w in s.workers && Live(s.workers[w])
    ensures Inv(Worked(s, w, name))
  {
    match s.workers[w]
    case Awake => if s.r.queue == [] { IdleKeeps(s, w, Worked(s, w, name)); } else { TakeKeeps(s, w, Worked(s, w, name)); }
    case Holding(_) => LookupKeeps(s, w, name);
    case LookedUp(_, _) => StoreKeeps(s, w, name);
    case StoredName(_) => ReleaseKeeps(s, w, Worked(s, w, name));
  }

  lemma DropKeeps(s: State, ip: IP)
    requires Inv(s)
    ensures Inv(s.(cache := s.cache - {ip}))
  {
    var t := s.(cache := s.cache - {ip});
    JobsUnchanged(s, t.(cache := s.cache));
    forall x, before ensures HeldAs(t, x, before) == HeldAs(s, x, before) && HeldBySome(t, x) == HeldBySome(s, x) {}
    JoiningKept(s, t);
  }

  lemma {:induction false} RunKeeps(s: State, events: seq<Event>)
    requires Inv(s) && AllowedRun(s, events)
    ensures Inv(Run(s, events))
    decreases |events|
  {
    if events != [] {
      StepKeeps(s, events[0]);
      RunKeeps(Next(s, events[0]), events[1..]);
    }
  }

  // ---------------------------------------------------------------- safety

  /** No setting of the queue size is below the one before it. */
  predicate NeverLowered(s: State, events: seq<Event>)
    requires AllowedRun(s, events)
    decreases |events|
  {
    events == [] ||
    ((events[0].Configure? ==> s.r.maxQueueSize <= AtLeastOne(events[0].maxQueueSize)) &&
     NeverLowered(Next(s, events[0]), events[1..]))
  }

  lemma {:induction false} PeakIsSetting(s: State, events: seq<Event>)
    requires AllowedRun(s, events) && NeverLowered(s, events) && s.peak == s.r.maxQueueSize
    ensures Run(s, events).peak == Run(s, events).r.maxQueueSize
    decreases |events|
  {
    if events != [] {
      PeakIsSetting(Next(s, events[0]), events[1..]);
    }
  }

  predicate Queued(s: State, ip: IP) {
    ip in s.r.queue
  }

  /** What is in flight is queued or held, and nothing else is; no address is queued twice, held twice, or both. */
  ghost predicate Safe(s: State) {
    && (forall ip :: ip in s.r.inFlight <==> Queued(s, ip) || ip in Held(s))
    && (forall ip :: !(Queued(s, ip) && ip in Held(s)))
    && NoDuplicates(s.r.queue)
    && (forall w, v :: w in s.workers && v in s.workers && w != v && Busy(s.workers[w]) && Busy(s.workers[v]) ==>
                         s.workers[w].ip != s.workers[v].ip)
  }

  lemma PartitionIsSafe(s: State)
    requires Partition(s)
    ensures Safe(s)
  {
    forall ip ensures ip in Held(s) <==> HeldBySome(s, ip) {
    }
  }

  /**
   Safety in every interleaving: the in-flight set is the disjoint union of the queued addresses and those
   held by workers, the queue repeats nothing, no two workers hold one address, the number in flight never
   exceeds the largest setting so far, and a cached name was returned by a lookup of that very address.
   */
  lemma ResolverSafety(events: seq<Event>)
    requires AllowedRun(Start(), events)
    ensures var s := Run(Start(), events);
            Safe(s) && |s.r.inFlight| <= s.peak && forall ip :: ip in s.cache ==> (ip, s.cache[ip]) in s.resolved
    ensures NeverLowered(Start(), events) ==>
              |Run(Start(), events).r.inFlight| <= Run(Start(), events).r.maxQueueSize
  {
    RunKeeps(Start(), events);
    InvIsSafe(Run(Start(), events));
    if NeverLowered(Start(), events) {
      PeakIsSetting(Start(), events);
    }
  }

  lemma InvIsSafe(s: State)
    requires Inv(s)
    ensures Safe(s) && |s.r.inFlight| <= s.peak && forall ip :: ip in s.cache ==> (ip, s.cache[ip]) in s.resolved
  {
    PartitionIsSafe(s);
  }

  // ---------------------------------------------------------------- no job is lost

  function HoldingNow(s: State): set<WorkerId> { set w | w in s.workers && s.workers[w].Holding? }
  function LookedUpNow(s: State): set<WorkerId> { set w | w in s.workers && s.workers[w].LookedUp? }
  function StoredNow(s: State): set<WorkerId> { set w | w in s.workers && s.workers[w].StoredName? }

  /** Steps still needed to finish every accepted address. */
  function Remaining(s: State): nat {
    4 * |s.r.queue| + 3 * |HoldingNow(s)| + 2 * |LookedUpNow(s)| + |StoredNow(s)|
  }

  predicate MovesJob(s: State, w: WorkerId) {
    w in s.workers && (Busy(s.workers[w]) || (s.workers[w].Awake? && s.r.queue != []))
  }

  /** Each step of a worker on a job brings the end nearer by exactly one. */
  lemma JobStepDecreases(s: State, w: WorkerId, name: string)
    requires MovesJob(s, w)
    ensures Remaining(Worked(s, w, name)) == Remaining(s) - 1
  {
    var t := Worked(s, w, name);
    StageSizes(s, t, w);
  }

  lemma StageSizes(s: State, t: State, w: WorkerId)
    requires OneMoves(s, t, w) && s.workers[w] != t.workers[w]
    ensures |HoldingNow(t)| - |HoldingNow(s)| == (if t.workers[w].Holding? then 1 else 0) - (if s.workers[w].Holding? then 1 else 0)
    ensures |LookedUpNow(t)| - |LookedUpNow(s)| == (if t.workers[w].LookedUp? then 1 else 0) - (if s.workers[w].LookedUp? then 1 else 0)
    ensures |StoredNow(t)| - |StoredNow(s)| == (if t.workers[w].StoredName? then 1 else 0) - (if s.workers[w].StoredName? then 1 else 0)
  {
    SizeApart(HoldingNow(s), HoldingNow(t), w);
    SizeApart(LookedUpNow(s), LookedUpNow(t), w);
    SizeApart(StoredNow(s), StoredNow(t), w);
  }

  lemma SizeApart(a: set<WorkerId>, b: set<WorkerId>, w: WorkerId)
    requires forall v :: v != w ==> (v in a <==> v in b)
    ensures |b| - |a| == (if w in b then 1 else 0) - (if w in a then 1 else 0)
  {
    assert a - {w} == b - {w};
    assert |a| == |a - {w}| + (if w in a then 1 else 0);
    assert |b| == |b - {w}| + (if w in b then 1 else 0);
  }

  lemma SomeoneMoves(s: State)
    requires Served(s) && Remaining(s) > 0
    ensures exists w :: MovesJob(s, w)
  {
    if w :| w in s.workers && Busy(s.workers[w]) {
      assert MovesJob(s, w);
    } else {
      assert HoldingNow(s) == {} && LookedUpNow(s) == {} && StoredNow(s) == {};
      var w :| w in s.workers && Live(s.workers[w]);
      assert MovesJob(s, w);
    }
  }

  /** Unless everything is done, some worker is awake and can take the next such step: no deadlock, no lost wake-up. */
  lemma JobsProgress(events: seq<Event>)
    requires AllowedRun(Start(), events)
    ensures var s := Run(Start(), events);
            Remaining(s) > 0 ==> exists w :: MovesJob(s, w)
  {
    RunKeeps(Start(), events);
    var s := Run(Start(), events);
    if Remaining(s) > 0 {
      SomeoneMoves(s);
    }
  }
}
