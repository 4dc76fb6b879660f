/**
 What a shutdown of the resolver leaves behind: when it drains every accepted address, when it does not, and that
 it can finish.
 */
module ResolverShutdown {
  import opened Resolver

  /** Neither scheduling nor configuration. */
  predicate Quiet(events: seq<Event>) {
    forall i :: 0 <= i < |events| ==> !events[i].Schedule? && !events[i].Configure?
  }

  /** Nothing is in flight, and every accepted address has had exactly one lookup and one store. */
  predicate Drained(s: State) {
    s.r.queue == [] && s.r.inFlight == {} && s.accepted == s.lookups == s.stores
  }

  ghost predicate NobodyBusy(s: State) {
    forall w :: w in s.workers ==> !Busy(s.workers[w])
  }

  /** Being drained is a matter of the queue and the workers alone. */
  lemma DrainedMeans(s: State)
    requires Inv(s)
    ensures Drained(s) <==> s.r.queue == [] && NobodyBusy(s)
  {
    if s.r.queue == [] && NobodyBusy(s) {
      forall ip ensures !HeldBySome(s, ip) && !HeldAs(s, ip, true) && !HeldAs(s, ip, false) {
      }
      forall ip ensures s.accepted[ip] == s.lookups[ip] == s.stores[ip] {
      }
    }
  }

  // ---------------------------------------------------------------- the shutdown that returns at once

  /**
   A shutdown that finds nothing running returns while an earlier one may still be joining: everything is drained
   at that moment exactly when the queue is empty and no joined worker is busy, and always when nobody is joining.
   */
  lemma EarlyReturn(before: seq<Event>)
    requires AllowedRun(Start(), before) && Allowed(Run(Start(), before), ReturnAtOnce)
    ensures Drained(Run(Start(), before)) <==> NobodyJoinedBusy(Run(Start(), before))
    ensures Run(Start(), before).joining == map[] ==> Drained(Run(Start(), before))
  {
    RunKeeps(Start(), before);
    ReturnsAtOnce(Run(Start(), before));
  }

  predicate NobodyJoinedBusy(s: State) {
    s.r.queue == [] && forall id, w :: id in s.joining && w in s.joining[id] && w in s.workers ==> !Busy(s.workers[w])
  }

  lemma ReturnsAtOnce(s: State)
    requires Inv(s) && !s.r.running
    ensures Drained(s) <==> NobodyJoinedBusy(s)
    ensures s.joining == map[] ==> Drained(s)
  {
    DrainedMeans(s);
    forall w | w in s.workers && !s.workers[w].Exited? ensures BeingJoined(s, w) {
    }
    forall w | w in s.workers && Busy(s.workers[w]) ensures BeingJoined(s, w) {
    }
  }

  // ---------------------------------------------------------------- workers on their way out

  lemma RunFirst(s: State, e: Event, next: State, rest: seq<Event>)
    requires Allowed(s, e) && next == Next(s, e) && AllowedRun(next, rest)
    ensures AllowedRun(s, [e] + rest) && Run(s, [e] + rest) == Run(next, rest)
  {
    assert ([e] + rest)[1..] == rest;
  }

  lemma RunSplit(s: State, events: seq<Event>) returns (next: State)
    requires AllowedRun(s, events) && events != []
    ensures Allowed(s, events[0]) && next == Next(s, events[0]) && AllowedRun(next, events[1..])
    ensures Run(s, events) == Run(next, events[1..])
  {
    next := Next(s, events[0]);
  }

  lemma {:induction false} RunJoin(s: State, a: seq<Event>, b: seq<Event>)
    requires AllowedRun(s, a) && AllowedRun(Run(s, a), b)
    ensures AllowedRun(s, a + b) && Run(s, a + b) == Run(Run(s, a), b)
    decreases |a|
  {
    if a == [] {
      assert a + b == b;
    } else {
      var next := RunSplit(s, a);
      RunJoin(next, a[1..], b);
      SplitFirst(a, b);
      RunFirst(s, a[0], next, a[1..] + b);
    }
  }

  lemma SplitFirst(a: seq<Event>, b: seq<Event>)
    requires a != []
    ensures a + b == [a[0]] + (a[1..] + b)
  {
  }

  lemma RunOne(s: State, e: Event)
    requires Allowed(s, e)
    ensures AllowedRun(s, [e]) && Run(s, [e]) == Next(s, e)
  {
    assert [e][1..] == [];
    assert Run(Next(s, e), []) == Next(s, e);
  }

  function Unexited(s: State): set<WorkerId> {
    set w | w in s.workers && !s.workers[w].Exited?
  }

  /** Worker steps still needed until everything is done and every thread has returned. */
  function ToExit(s: State): nat {
    Remaining(s) + |Unexited(s)|
  }

  lemma SameUnexited(s: State, t: State, w: WorkerId)
    requires OneMoves(s, t, w)
    ensures |Unexited(t)| - |Unexited(s)| == (if t.workers[w].Exited? then 0 else 1) - (if s.workers[w].Exited? then 0 else 1)
  {
    SizeApart(Unexited(s), Unexited(t), w);
  }

  /** Once the stop flag is set, every step of a worker that is not blocked brings the end nearer by exactly one. */
  lemma StepTowardsExit(s: State, w: WorkerId, name: string)
    requires s.r.stop && Allowed(s, Work(w, name))
    ensures ToExit(Worked(s, w, name)) == ToExit(s) - 1
  {
    var t := Worked(s, w, name);
    SameUnexited(s, t, w);
    if MovesJob(s, w) {
      JobStepDecreases(s, w, name);
    } else {
      StageSizes(s, t, w);
    }
  }

  /** The same worker threads, where those outside `movers` have not moved; the shutdowns under way are the same. */
  ghost predicate Others(s: State, t: State, movers: set<WorkerId>) {
    && t.workers.Keys == s.workers.Keys && t.joining == s.joining
    && t.r.stop == s.r.stop && t.r.running == s.r.running
    && forall w :: w in s.workers && w !in movers ==> t.workers[w] == s.workers[w]
  }

  /** One worker works off the queue and returns. */
  lemma {:induction false} ExitOne(s: State, w: WorkerId, name: string) returns (events: seq<Event>)
    requires s.r.stop && w in s.workers && !s.workers[w].Blocked?
    ensures AllowedRun(s, events) && Quiet(events)
    ensures Others(s, Run(s, events), {w}) && Run(s, events).workers[w].Exited?
    decreases ToExit(s)
  {
    if s.workers[w].Exited? {
      events := [];
    } else {
      StepTowardsExit(s, w, name);
      OnlyOneMoves(s, w, name);
      var t := Worked(s, w, name);
      var rest := ExitOne(t, w, name);
      RunFirst(s, Work(w, name), t, rest);
      events := [Work(w, name)] + rest;
    }
  }

  lemma OnlyOneMoves(s: State, w: WorkerId, name: string)
    requires s.r.stop && w in s.workers && !s.workers[w].Blocked? && !s.workers[w].Exited?
    ensures Others(s, Worked(s, w, name), {w}) && !Worked(s, w, name).workers[w].Blocked?
  {
  }

  /** A set of workers returns, one after the other. */
  lemma {:induction false} ExitAll(s: State, leaving: set<WorkerId>, name: string) returns (events: seq<Event>)
    requires s.r.stop && forall w :: w in leaving ==> w in s.workers && !s.workers[w].Blocked?
    ensures AllowedRun(s, events) && Quiet(events)
    ensures Others(s, Run(s, events), leaving) && forall w :: w in leaving ==> Run(s, events).workers[w].Exited?
    decreases |leaving|
  {
    if leaving == {} {
      events := [];
    } else {
      var w :| w in leaving;
      var one := ExitOne(s, w, name);
      var t := Run(s, one);
      var rest := ExitAll(t, leaving - {w}, name);
      RunJoin(s, one, rest);
      events := one + rest;
    }
  }

  // ---------------------------------------------------------------- the shutdown that finds the resolver running

  /** A thread an earlier shutdown is still waiting for. */
  predicate Stray(s: State, w: WorkerId) {
    w in s.workers && w !in s.r.workers && !s.workers[w].Exited?
  }

  /** If there are such threads, there is nothing for them to do and nothing they are doing. */
  ghost predicate StraysIdle(s: State) {
    (exists w :: Stray(s, w)) ==> s.r.queue == [] && forall w :: Stray(s, w) ==> !Busy(s.workers[w])
  }

  /** A quiet run from the start of a shutdown to the point where it returns. */
  predicate Completes(s: State, id: nat, after: seq<Event>)
    requires Allowed(s, BeginShutdown(id))
  {
    var t := Next(s, BeginShutdown(id));
    AllowedRun(t, after) && Quiet(after) && Allowed(Run(t, after), FinishShutdown(id))
  }

  function After(s: State, id: nat, after: seq<Event>): State
    requires Allowed(s, BeginShutdown(id)) && Completes(s, id, after)
  {
    Run(Next(s, BeginShutdown(id)), after)
  }

  /** What stays true while the shutdown waits for the threads in `joined`. */
  ghost predicate Waiting(u: State, id: nat, joined: set<WorkerId>, idle: bool) {
    && !u.r.running && (id in u.joining ==> u.joining[id] == joined)
    && if idle then u.r.queue == [] && forall w :: w in u.workers && w !in joined ==> !Busy(u.workers[w])
       else forall w :: w in u.workers && w !in joined ==> u.workers[w].Exited?
  }

  lemma WaitingStep(u: State, e: Event, id: nat, joined: set<WorkerId>, idle: bool)
    requires Waiting(u, id, joined, idle) && Allowed(u, e) && !e.Schedule? && !e.Configure?
    ensures Waiting(Next(u, e), id, joined, idle)
  {
  }

  lemma {:induction false} WaitingRun(u: State, events: seq<Event>, id: nat, joined: set<WorkerId>, idle: bool)
    requires Waiting(u, id, joined, idle) && AllowedRun(u, events) && Quiet(events)
    ensures Waiting(Run(u, events), id, joined, idle)
    decreases |events|
  {
    if events != [] {
      assert !events[0].Schedule? && !events[0].Configure?;
      WaitingStep(u, events[0], id, joined, idle);
      assert forall i :: 0 <= i < |events[1..]| ==> events[1..][i] == events[i + 1];
      WaitingRun(Next(u, events[0]), events[1..], id, joined, idle);
    }
  }

  lemma IdleStraysDrain(s: State, id: nat, after: seq<Event>)
    requires Inv(s) && StraysIdle(s) && Allowed(s, BeginShutdown(id)) && Completes(s, id, after)
    ensures Drained(After(s, id, after))
  {
    var t, joined := Next(s, BeginShutdown(id)), s.r.workers;
    var idle := exists w :: Stray(s, w);
    assert forall w :: w in s.workers && w !in joined && !s.workers[w].Exited? ==> Stray(s, w);
    assert Waiting(t, id, joined, idle);
    StepKeeps(s, BeginShutdown(id));
    RunKeeps(t, after);
    WaitingRun(t, after, id, joined, idle);
    var u := Run(t, after);
    assert forall w :: w in joined ==> w in u.workers && u.workers[w].Exited?;
    DrainedMeans(u);
  }

  /** Once everybody is awake, a thread that is given a job or has one stays busy while the joined threads return. */
  lemma LeaveOutBusy(u: State, joined: set<WorkerId>, w: WorkerId, name: string) returns (events: seq<Event>)
    requires u.r.stop && w in u.workers && w !in joined && Live(u.workers[w]) && (Busy(u.workers[w]) || u.r.queue != [])
    requires forall x :: x in joined ==> x in u.workers && !u.workers[x].Blocked?
    ensures AllowedRun(u, events) && Quiet(events) && Run(u, events).joining == u.joining
    ensures w in Run(u, events).workers && Busy(Run(u, events).workers[w])
    ensures forall x :: x in joined ==> x in Run(u, events).workers && Run(u, events).workers[x].Exited?
  {
    if Busy(u.workers[w]) {
      events := ExitAll(u, joined, name);
    } else {
      OnlyOneMoves(u, w, name);
      var v := Worked(u, w, name);
      var rest := ExitAll(v, joined, name);
      RunFirst(u, Work(w, name), v, rest);
      events := [Work(w, name)] + rest;
    }
  }

  /** Wake everybody, let a given thread take a job if it is free, and let the joined threads return. */
  lemma LeaveOut(s: State, id: nat, w: WorkerId, name: string) returns (after: seq<Event>)
    requires Inv(s) && Allowed(s, BeginShutdown(id)) && Stray(s, w) && (Busy(s.workers[w]) || s.r.queue != [])
    ensures Completes(s, id, after) && w in After(s, id, after).workers && Busy(After(s, id, after).workers[w])
  {
    var t := Next(s, BeginShutdown(id));
    var u := Next(t, NotifyAll);
    var rest := LeaveOutBusy(u, s.r.workers, w, name);
    RunFirst(t, NotifyAll, u, rest);
    after := [NotifyAll] + rest;
  }

  /**
   The shutdown that finds the resolver running: every quiet completion of it leaves everything drained, each
   accepted address looked up once and stored once, if and only if no thread that an earlier shutdown still waits
   for is busy or could become so.
   */
  lemma ShutdownDrains(before: seq<Event>, id: nat)
    requires AllowedRun(Start(), before) && Allowed(Run(Start(), before), BeginShutdown(id))
    ensures AlwaysDrains(Run(Start(), before), id) <==> StraysIdle(Run(Start(), before))
  {
    RunKeeps(Start(), before);
    DrainsExactly(Run(Start(), before), id);
  }

  ghost predicate AlwaysDrains(s: State, id: nat)
    requires Allowed(s, BeginShutdown(id))
  {
    forall after :: Completes(s, id, after) ==> Drained(After(s, id, after))
  }

  lemma BusyIsNotDrained(s: State, id: nat, after: seq<Event>, w: WorkerId)
    requires Inv(s) && Allowed(s, BeginShutdown(id)) && Completes(s, id, after)
    requires w in After(s, id, after).workers && Busy(After(s, id, after).workers[w])
    ensures !Drained(After(s, id, after))
  {
    StepKeeps(s, BeginShutdown(id));
    RunKeeps(Next(s, BeginShutdown(id)), after);
    DrainedMeans(After(s, id, after));
  }

  lemma DrainsExactly(s: State, id: nat)
    requires Inv(s) && Allowed(s, BeginShutdown(id))
    ensures AlwaysDrains(s, id) <==> StraysIdle(s)
  {
    if StraysIdle(s) {
      forall after | Completes(s, id, after) ensures Drained(After(s, id, after)) {
        IdleStraysDrain(s, id, after);
      }
    } else {
      var w :| Stray(s, w) && (Busy(s.workers[w]) || s.r.queue != []);
      var after := LeaveOut(s, id, w, "");
      BusyIsNotDrained(s, id, after, w);
    }
  }

  /** In particular when no earlier shutdown is still waiting. */
  lemma NobodyWaiting(before: seq<Event>)
    requires AllowedRun(Start(), before) && Run(Start(), before).joining == map[]
    ensures StraysIdle(Run(Start(), before))
  {
    RunKeeps(Start(), before);
    NoStrays(Run(Start(), before));
  }

  lemma NoStrays(s: State)
    requires Roster(s) && s.joining == map[]
    ensures StraysIdle(s)
  {
    forall w ensures !Stray(s, w) {
      assert Stray(s, w) ==> BeingJoined(s, w);
    }
  }

  // ---------------------------------------------------------------- a shutdown can finish

  lemma ShutdownCanFinish(before: seq<Event>, id: nat, name: string) returns (after: seq<Event>)
    requires AllowedRun(Start(), before) && Allowed(Run(Start(), before), BeginShutdown(id))
    ensures Completes(Run(Start(), before), id, after)
  {
    RunKeeps(Start(), before);
    after := LetReturn(Run(Start(), before), id, name);
  }

  lemma LetReturn(s: State, id: nat, name: string) returns (after: seq<Event>)
    requires Inv(s) && Allowed(s, BeginShutdown(id))
    ensures Completes(s, id, after)
  {
    var t := Next(s, BeginShutdown(id));
    var u := Next(t, NotifyAll);
    var rest := ExitAll(u, s.r.workers, name);
    RunFirst(t, NotifyAll, u, rest);
    after := [NotifyAll] + rest;
  }

  /** The joined threads are all awake, at work, or gone. */
  ghost predicate Moving(s: State, id: nat) {
    s.r.stop && !s.r.running
    && (id in s.joining ==> forall w :: w in s.joining[id] ==> w in s.workers && !s.workers[w].Blocked?)
  }

  /** After the notification nobody who is waited for blocks again, and no quiet step adds to the work. */
  lemma {:induction false} JoinedKeepMoving(s: State, id: nat, events: seq<Event>)
    requires Moving(s, id) && AllowedRun(s, events) && Quiet(events)
    ensures Moving(Run(s, events), id) && ToExit(Run(s, events)) <= ToExit(s)
    decreases |events|
  {
    if events != [] {
      var e := events[0];
      assert !e.Schedule? && !e.Configure?;
      QuietStep(s, id, e);
      assert forall i :: 0 <= i < |events[1..]| ==> events[1..][i] == events[i + 1];
      JoinedKeepMoving(Next(s, e), id, events[1..]);
    }
  }

  lemma QuietStep(s: State, id: nat, e: Event)
    requires Moving(s, id) && Allowed(s, e) && !e.Schedule? && !e.Configure?
    ensures Moving(Next(s, e), id) && ToExit(Next(s, e)) <= ToExit(s)
  {
    StillMoving(s, id, e);
    if e.Work? {
      StepTowardsExit(s, e.w, e.name);
    } else {
      OthersWake(s, e);
      SameStages(s, Next(s, e));
    }
  }

  lemma StillMoving(s: State, id: nat, e: Event)
    requires Moving(s, id) && Allowed(s, e) && !e.Schedule? && !e.Configure?
    ensures Moving(Next(s, e), id)
  {
  }

  lemma OthersWake(s: State, e: Event)
    requires Allowed(s, e) && !e.Schedule? && !e.Configure? && !e.Work?
    ensures var t := Next(s, e);
            && t.workers.Keys == s.workers.Keys && t.r.queue == s.r.queue
            && forall w :: w in s.workers ==> t.workers[w] == s.workers[w] || (s.workers[w].Blocked? && t.workers[w].Awake?)
  {
  }

  lemma SameStages(s: State, t: State)
    requires t.workers.Keys == s.workers.Keys && t.r.queue == s.r.queue
    requires forall w :: w in s.workers ==> t.workers[w] == s.workers[w] || (s.workers[w].Blocked? && t.workers[w].Awake?)
    ensures ToExit(t) == ToExit(s)
  {
    assert HoldingNow(t) == HoldingNow(s) && LookedUpNow(t) == LookedUpNow(s);
    assert StoredNow(t) == StoredNow(s) && Unexited(t) == Unexited(s);
  }

  /** So as long as the shutdown cannot return, a thread it waits for can take a step nearer to the end. */
  lemma JoinedCanMove(s: State, id: nat, name: string) returns (w: WorkerId)
    requires Moving(s, id) && id in s.joining && !Allowed(s, FinishShutdown(id))
    ensures w in s.joining[id] && Allowed(s, Work(w, name)) && ToExit(Worked(s, w, name)) == ToExit(s) - 1
  {
    w :| w in s.joining[id] && !(w in s.workers && s.workers[w].Exited?);
    StepTowardsExit(s, w, name);
  }

  /** The notification itself sets everybody moving. */
  lemma NotifiedMove(before: seq<Event>, id: nat)
    requires AllowedRun(Start(), before) && Allowed(Run(Start(), before), BeginShutdown(id))
    ensures Moving(Notified(Run(Start(), before), id), id)
  {
    RunKeeps(Start(), before);
    NotifiedIsMoving(Run(Start(), before), id);
  }

  function Notified(s: State, id: nat): State
    requires Allowed(s, BeginShutdown(id))
  {
    Next(Next(s, BeginShutdown(id)), NotifyAll)
  }

  lemma NotifiedIsMoving(s: State, id: nat)
    requires Inv(s) && Allowed(s, BeginShutdown(id))
    ensures Moving(Notified(s, id), id)
  {
  }

  // ---------------------------------------------------------------- examples

  lemma {:induction false} RunOneMore(s: State, events: seq<Event>, e: Event)
    requires AllowedRun(s, events) && Allowed(Run(s, events), e)
    ensures AllowedRun(s, events + [e]) && Run(s, events + [e]) == Next(Run(s, events), e)
  {
    RunOne(Run(s, events), e);
    RunJoin(s, events, [e]);
  }

  /** A second shutdown returns at once while the first still waits for a thread that holds x. */
  lemma EarlyReturnLeavesJob(x: IP, name: string) returns (events: seq<Event>)
    ensures AllowedRun(Start(), events) && Allowed(Run(Start(), events), ReturnAtOnce)
    ensures Run(Start(), events).r.inFlight == {x} && !Drained(Run(Start(), events))
  {
    events := ShutDownHolding(x, name);
    assert x in Run(Start(), events).r.inFlight;
  }

  /** The first shutdown leaves a lookup running; scheduling has restarted the resolver meanwhile. */
  lemma RestartDuringLookup(x: IP, y: IP, name: string) returns (events: seq<Event>)
    requires x != y
    ensures AllowedRun(Start(), events)
    ensures Restarted(Run(Start(), events), x, y)
  {
    events := ShutDownHolding(x, name);
    Restart(Run(Start(), events), x, y);
    RunOneMore(Start(), events, Schedule(y, 0));
    events := events + [Schedule(y, 0)];
  }

  lemma ShutDownHolding(x: IP, name: string) returns (events: seq<Event>)
    ensures AllowedRun(Start(), events)
    ensures HoldingAtShutdown(Run(Start(), events), x)
  {
    var e1, e2, e3 := Schedule(x, 0), Work(0, name), BeginShutdown(1);
    FirstSchedule(x);
    TakeAndStop(Next(Start(), e1), x, name);
    RunOneMore(Start(), [], e1);
    RunOneMore(Start(), [] + [e1], e2);
    RunOneMore(Start(), [] + [e1] + [e2], e3);
    events := [] + [e1] + [e2] + [e3];
  }

  predicate HoldingAtShutdown(s: State, x: IP) {
    s.r == Shared([], {x}, 1000, {}, 1, false, true) && s.workers == map[0 := Holding(x)] && s.joining == map[1 := {0}]
  }

  /** The first thread has been shut down but still holds x; a second thread is up, and y is queued. */
  predicate Restarted(s: State, x: IP, y: IP) {
    && s.r == Shared([y], {x, y}, 1000, {1}, 2, true, false)
    && s.workers == map[0 := Holding(x), 1 := Awake] && s.joining == map[1 := {0}]
  }

  lemma FirstSchedule(x: IP)
    ensures Allowed(Start(), Schedule(x, 0))
    ensures var s := Next(Start(), Schedule(x, 0));
            && s.r == Shared([x], {x}, 1000, {0}, 1, true, false)
            && s.workers == map[0 := Awake] && s.joining == map[]
  {
    FirstThread(Start(), x);
    assert [] + [x] == [x] && {} + {x} == {x};
  }

  /** Scheduling without threads starts one, which is awake. */
  lemma FirstThread(s: State, ip: IP)
    requires s.r.workers == {} && s.r.started !in s.workers && Accepts(s.r, ip)
    requires !IsBlocked(s, 0) && forall w :: w in s.workers ==> !IsBlocked(s, w)
    ensures Allowed(s, Schedule(ip, 0))
    ensures var t := Next(s, Schedule(ip, 0));
            && t.r == Shared(s.r.queue + [ip], s.r.inFlight + {ip}, s.r.maxQueueSize, {s.r.started}, s.r.started + 1,
                             true, s.r.running && s.r.stop)
            && t.workers == s.workers[s.r.started := Awake] && t.joining == s.joining
  {
    OneWorker(s.r);
    NewcomerIsAwake(s, s.r.started);
    ScheduleParts(s, ip, 0);
  }

  /** A resolver without threads gets exactly one. */
  lemma OneWorker(r: Shared)
    requires r.workers == {}
    ensures WithWorkers(r, 1) == r.(running := true, stop := r.running && r.stop, workers := {r.started}, started := r.started + 1)
  {
    OnlyId(r.started);
  }

  lemma TakeAndStop(s: State, x: IP, name: string)
    requires s.r == Shared([x], {x}, 1000, {0}, 1, true, false) && s.workers == map[0 := Awake] && s.joining == map[]
    ensures Allowed(s, Work(0, name)) && Allowed(Next(s, Work(0, name)), BeginShutdown(1))
    ensures HoldingAtShutdown(Next(Next(s, Work(0, name)), BeginShutdown(1)), x)
  {
  }

  lemma Restart(s: State, x: IP, y: IP)
    requires HoldingAtShutdown(s, x) && x != y
    ensures Allowed(s, Schedule(y, 0))
    ensures Restarted(Next(s, Schedule(y, 0)), x, y)
  {
    assert forall w :: w in s.workers ==> w == 0;
    FirstThread(s, y);
    assert [] + [y] == [y] && {x} + {y} == {x, y};
  }

  /** The one thread that is started is awake, and no other moves. */
  lemma NewcomerIsAwake(s: State, w: WorkerId)
    requires s.r.workers == {} && s.r.started == w && w !in s.workers
    ensures Born(s, WithWorkers(s.r, 1)) == s.workers[w := Awake]
  {
    OneWorker(s.r);
    OnlyId(w);
    BornOne(s, WithWorkers(s.r, 1), w);
  }

  lemma BornOne(s: State, r: Shared, w: WorkerId)
    requires s.r.started == w && w !in s.workers && Ids(w, r.started) == {w}
    ensures Born(s, r) == s.workers[w := Awake]
  {
    assert Born(s, r).Keys == s.workers.Keys + {w};
  }

  lemma OnlyId(w: WorkerId)
    ensures Ids(w, w + 1) == {w}
  {
  }

  /**
   A thread of an earlier shutdown left holding a job: from the state above, worker 1 finishes its own
   address, a second shutdown joins worker 1 alone, and finishes while x is still being looked up.
   */
  lemma OverlappingShutdownsLeaveJob(s: State, x: IP, y: IP, name: string)
    requires x != y && Restarted(s, x, y)
    ensures Allowed(WorkedOff(s, name), BeginShutdown(2)) &&
            var u := Worked(Next(WorkedOff(s, name), BeginShutdown(2)), 1, name);
            Allowed(u, FinishShutdown(2)) && u.r.inFlight == {x} && u.workers[0] == Holding(x)
  {
    WorkedOffIs(s, x, y, name);
    var v := Next(WorkedOff(s, name), BeginShutdown(2));
    assert v.r.stop && v.r.queue == [] && v.joining[2] == {1};
  }

  /** Worker 1 takes, looks up, stores and releases one address. */
  function WorkedOff(s: State, name: string): State
    requires 1 in s.workers
  {
    Worked(Worked(Worked(Worked(s, 1, name), 1, name), 1, name), 1, name)
  }

  lemma WorkedOffIs(s: State, x: IP, y: IP, name: string)
    requires x != y && Restarted(s, x, y)
    ensures var t := WorkedOff(s, name);
            && t.r == Shared([], {x}, 1000, {1}, 2, true, false)
            && t.workers == map[0 := Holding(x), 1 := Awake] && t.joining == map[1 := {0}]
  {
    var a := Worked(s, 1, name);
    assert a.workers == map[0 := Holding(x), 1 := Holding(y)] && a.r.queue == [];
    var b := Worked(Worked(a, 1, name), 1, name);
    assert b.workers == map[0 := Holding(x), 1 := StoredName(y)];
    assert {x, y} - {y} == {x};
  }
}
