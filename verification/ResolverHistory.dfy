/** What the resolver does with a call, from the calls made before it: settings, admission, threads and order. */
module ResolverHistory {
  import opened Resolver
  import opened ResolverShutdown

  // ---------------------------------------------------------------- settings

  /** The latest bound of the queue: the configured one, but at least one, and 1000 before any configuration. */
  function LatestSetting(events: seq<Event>): nat {
    if events == [] then 1000
    else
      match events[|events| - 1]
      case Configure(m, _, _) => if m < 1 then 1 else m
      case _ => LatestSetting(events[..|events| - 1])
  }

  function LargestSetting(events: seq<Event>): nat {
    if events == [] then 1000
    else
      var before := LargestSetting(events[..|events| - 1]);
      if LatestSetting(events) > before then LatestSetting(events) else before
  }

  lemma {:induction false} LastStep(s: State, before: seq<Event>, e: Event)
    requires AllowedRun(s, before + [e])
    ensures AllowedRun(s, before) && Allowed(Run(s, before), e)
    ensures Run(s, before + [e]) == Next(Run(s, before), e)
    decreases |before|
  {
    if before == [] {
      OnlyStep(s, before + [e], e);
    } else {
      var next := RunSplit(s, before + [e]);
      assert (before + [e])[1..] == before[1..] + [e] && (before + [e])[0] == before[0];
      LastStep(next, before[1..], e);
      RunFirst(s, before[0], next, before[1..]);
      assert [before[0]] + before[1..] == before;
    }
  }

  lemma OnlyStep(s: State, events: seq<Event>, e: Event)
    requires events == [e] && AllowedRun(s, events)
    ensures Allowed(s, e) && Run(s, events) == Next(s, e) && Run(s, []) == s
  {
    var next := RunSplit(s, events);
    assert events[1..] == [];
  }

  lemma SettingStep(s: State, e: Event)
    requires Allowed(s, e)
    ensures Next(s, e).r.maxQueueSize
            == match e case Configure(m, _, _) => (if m < 1 then 1 else m) case _ => s.r.maxQueueSize
    ensures Next(s, e).peak == if e.Configure? then Max(s.peak, Next(s, e).r.maxQueueSize) else s.peak
  {
  }

  predicate Settings(s: State, latest: nat, largest: nat) {
    s.r.maxQueueSize == latest <= largest && s.peak == largest
  }

  lemma SettingsStep(s: State, e: Event, before: seq<Event>, events: seq<Event>)
    requires Allowed(s, e) && events != [] && before == events[..|events| - 1] && e == events[|events| - 1]
    requires Settings(s, LatestSetting(before), LargestSetting(before))
    ensures Settings(Next(s, e), LatestSetting(events), LargestSetting(events))
  {
    SettingStep(s, e);
  }

  lemma {:induction false} SettingsFrom(s: State, events: seq<Event>)
    requires Settings(s, 1000, 1000) && AllowedRun(s, events)
    ensures Settings(Run(s, events), LatestSetting(events), LargestSetting(events))
    decreases |events|
  {
    if events != [] {
      var before, e := events[..|events| - 1], events[|events| - 1];
      assert events == before + [e];
      LastStep(s, before, e);
      SettingsFrom(s, before);
      SettingsStep(Run(s, before), e, before, events);
    }
  }

  lemma SettingsAreHistory(events: seq<Event>)
    requires AllowedRun(Start(), events)
    ensures Settings(Run(Start(), events), LatestSetting(events), LargestSetting(events))
  {
    SettingsFrom(Start(), events);
  }

  /** The number in flight never exceeds the largest setting made so far. */
  lemma InFlightIsBounded(events: seq<Event>)
    requires AllowedRun(Start(), events)
    ensures |Run(Start(), events).r.inFlight| <= LargestSetting(events)
  {
    ResolverSafety(events);
    SettingsAreHistory(events);
  }

  // ---------------------------------------------------------------- admission

  /**
   An address is taken on exactly when it is not in flight and fewer than the latest setting are; it then waits
   behind all others. Otherwise nothing but the workers changes.
   */
  lemma Admission(events: seq<Event>, ip: IP, wake: WorkerId)
    requires AllowedRun(Start(), events) && Allowed(Run(Start(), events), Schedule(ip, wake))
    ensures var s := Run(Start(), events);
            var t := Next(s, Schedule(ip, wake));
            if ip !in s.r.inFlight && |s.r.inFlight| < LatestSetting(events) then
              t.r.queue == s.r.queue + [ip] && t.r.inFlight == s.r.inFlight + {ip}
            else
              t.r.queue == s.r.queue && t.r.inFlight == s.r.inFlight
  {
    SettingsAreHistory(events);
  }

  // ---------------------------------------------------------------- threads

  lemma IdsSize(first: nat, next: nat)
    requires first <= next
    ensures |Ids(first, next)| == next - first
    decreases next
  {
    if first < next {
      IdsSize(first, next - 1);
      assert next - 1 !in Ids(first, next - 1);
    }
  }

  lemma GrowSize(r: Shared, next: nat)
    requires r.started <= next && forall w :: w in r.workers ==> w < r.started
    ensures |r.workers + Ids(r.started, next)| == |r.workers| + next - r.started
  {
    IdsSize(r.started, next);
    assert r.workers !! Ids(r.started, next);
  }

  lemma WorkersGrow(r: Shared, threads: nat)
    requires forall w :: w in r.workers ==> w < r.started
    ensures var q := WithWorkers(r, threads);
            && q.running && r.workers <= q.workers
            && (r.running || !q.stop)
            && |q.workers| == if |r.workers| < threads then threads else |r.workers|
  {
    GrowSize(r, r.started + Missing(r.workers, threads));
  }

  lemma RegisteredAreOld(s: State)
    requires Inv(s)
    ensures (forall w :: w in s.r.workers ==> w < s.r.started) && (s.r.running ==> !s.r.stop)
  {
  }

  predicate HasThreads(r: Shared, t: Shared, threads: nat) {
    && t.running && !t.stop && r.workers <= t.workers
    && |t.workers| == if |r.workers| < threads then threads else |r.workers|
  }

  /**
   A configuration that enables the resolver leaves it running, with as many registered threads as asked for, at least
   one, or as there were; a scheduled lookup does so with one thread. No registered thread is given up.
   */
  lemma ThreadsAsAskedFor(events: seq<Event>, e: Event)
    requires AllowedRun(Start(), events) && Allowed(Run(Start(), events), e)
    requires e.Schedule? || (e.Configure? && e.enabled)
    ensures var s, t := Run(Start(), events), Next(Run(Start(), events), e);
            HasThreads(s.r, t.r, if e.Configure? && e.threads > 1 then e.threads else 1)
  {
    var s := Run(Start(), events);
    RunKeeps(Start(), events);
    RegisteredAreOld(s);
    NextShared(s, e);
    if e.Schedule? {
      ScheduledHasThreads(s.r, e.ip);
    } else {
      ConfiguredHasThreads(s.r, e.maxQueueSize, e.threads);
    }
  }

  lemma ScheduledHasThreads(r: Shared, ip: IP)
    requires (forall w :: w in r.workers ==> w < r.started) && (r.running ==> !r.stop)
    ensures HasThreads(r, Scheduled(r, ip), 1)
  {
    WorkersGrow(r, 1);
  }

  lemma ConfiguredHasThreads(r: Shared, m: nat, threads: nat)
    requires (forall w :: w in r.workers ==> w < r.started) && (r.running ==> !r.stop)
    ensures HasThreads(r, Configured(r, m, threads, true), if threads > 1 then threads else 1)
  {
    WorkersGrow(r.(maxQueueSize := AtLeastOne(m)), AtLeastOne(threads));
  }

  lemma NextShared(s: State, e: Event)
    requires Allowed(s, e)
    ensures e.Schedule? ==> Next(s, e).r == Scheduled(s.r, e.ip)
    ensures e.Configure? ==> Next(s, e).r == Configured(s.r, e.maxQueueSize, e.threads, e.enabled)
  {
  }

  /** A configuration that does not enable the resolver changes the bound alone, an early return nothing. */
  lemma NothingStarts(s: State, e: Event)
    requires Allowed(s, e) && (e.ReturnAtOnce? || (e.Configure? && !e.enabled))
    ensures Next(s, e) == if e.ReturnAtOnce? then s else s.(r := Next(s, e).r, peak := Next(s, e).peak)
    ensures Next(s, e).r == s.r.(maxQueueSize := Next(s, e).r.maxQueueSize)
  {
    if e.Configure? {
      assert Born(s, Configured(s.r, e.maxQueueSize, e.threads, false)) == s.workers;
    }
  }

  // ---------------------------------------------------------------- names

  /** What has been stored is in the cache, as long as nothing is dropped from it. */
  ghost predicate Cached(s: State) {
    forall ip :: s.stores[ip] > 0 ==> ip in s.cache
  }

  lemma CachedStep(s: State, e: Event)
    requires Cached(s) && Allowed(s, e) && !e.DropCached?
    ensures Cached(Next(s, e))
  {
  }

  lemma {:induction false} CachedRun(s: State, events: seq<Event>)
    requires Cached(s) && AllowedRun(s, events) && forall i :: 0 <= i < |events| ==> !events[i].DropCached?
    ensures Cached(Run(s, events))
    decreases |events|
  {
    if events != [] {
      CachedStep(s, events[0]);
      assert forall i :: 0 <= i < |events[1..]| ==> events[1..][i] == events[i + 1];
      CachedRun(Next(s, events[0]), events[1..]);
    }
  }

  /**
   When everything is done and the cache has dropped nothing, every address that was ever accepted has a name in it
   that a lookup of that address gave.
   */
  lemma AcceptedIsNamed(events: seq<Event>, ip: IP)
    requires AllowedRun(Start(), events) && forall i :: 0 <= i < |events| ==> !events[i].DropCached?
    requires Drained(Run(Start(), events)) && Run(Start(), events).accepted[ip] > 0
    ensures var s := Run(Start(), events);
            ip in s.cache && (ip, s.cache[ip]) in s.resolved
  {
    CachedRun(Start(), events);
    RunKeeps(Start(), events);
    NamedWhenDrained(Run(Start(), events), ip);
  }

  lemma NamedWhenDrained(s: State, ip: IP)
    requires Inv(s) && Cached(s) && Drained(s) && s.accepted[ip] > 0
    ensures ip in s.cache && (ip, s.cache[ip]) in s.resolved
  {
  }

  // ---------------------------------------------------------------- first come, first served

  /** The address a step queues, if any. */
  function Queues(s: State, e: Event): seq<IP> {
    if e.Schedule? && e.ip !in s.r.inFlight && |s.r.inFlight| < s.r.maxQueueSize then [e.ip] else []
  }

  /** The address a worker takes with a step, if any. */
  function Takes(s: State, e: Event): seq<IP>
    requires Allowed(s, e)
  {
    if e.Work? && s.workers[e.w].Awake? && Next(s, e).workers[e.w].Holding? then [Next(s, e).workers[e.w].ip] else []
  }

  function AllQueued(s: State, events: seq<Event>): seq<IP>
    requires AllowedRun(s, events)
    decreases |events|
  {
    if events == [] then [] else Queues(s, events[0]) + AllQueued(Next(s, events[0]), events[1..])
  }

  function AllTaken(s: State, events: seq<Event>): seq<IP>
    requires AllowedRun(s, events)
    decreases |events|
  {
    if events == [] then [] else Takes(s, events[0]) + AllTaken(Next(s, events[0]), events[1..])
  }

  lemma OneStepInOrder(s: State, e: Event)
    requires Allowed(s, e)
    ensures s.r.queue + Queues(s, e) == Takes(s, e) + Next(s, e).r.queue
  {
    match e
    case Work(w, name) => WorkInOrder(s, w, name);
    case _ =>
  }

  lemma WorkInOrder(s: State, w: WorkerId, name: string)
    requires Allowed(s, Work(w, name))
    ensures s.r.queue == Takes(s, Work(w, name)) + Next(s, Work(w, name)).r.queue
  {
  }

  lemma Regroup(a: seq<IP>, b: seq<IP>, c: seq<IP>)
    ensures a + (b + c) == a + b + c
  {
  }

  /** In every interleaving the workers take the addresses in the order in which they were queued. */
  lemma {:induction false} FirstComeFirstServed(s: State, events: seq<Event>)
    requires AllowedRun(s, events)
    ensures s.r.queue + AllQueued(s, events) == AllTaken(s, events) + Run(s, events).r.queue
    decreases |events|
  {
    if events != [] {
      var e, t := events[0], Next(s, events[0]);
      OneStepInOrder(s, e);
      FirstComeFirstServed(t, events[1..]);
      Regroup(s.r.queue, Queues(s, e), AllQueued(t, events[1..]));
      Regroup(Takes(s, e), t.r.queue, AllQueued(t, events[1..]));
      Regroup(Takes(s, e), AllTaken(t, events[1..]), Run(s, events).r.queue);
    }
  }
}
