/**
 The request log of a handler: a list with an iterator marking the last entry taken for disk, filled by
 request threads, flushed and purged in separate lock regions, and pinned by live log ranges.
 */
module RequestLog {
  type Time = int

  datatype LoggedRequest = LoggedRequest(text: string, endTime: Time)

  /**
   The list iterator that marks the last flushed entry. `End` (the past-the-end iterator) means that nothing
   has been flushed; `At` names an entry by its position, which moves when a prefix is spliced away; an
   iterator to an entry that has left the list is `Dangling` and must not be used.
   */
  datatype Marker = End | At(pos: nat) | Dangling

  datatype Log = Log(entries: seq<LoggedRequest>, marker: Marker, isLogging: bool, readers: int)

  // ---------------------------------------------------------------- lock regions, on values

  predicate Usable(g: Log) {
    g.marker.End? || (g.marker.At? && g.marker.pos < |g.entries|)
  }

  /** Position of the first entry not yet taken for disk. */
  function FirstUnflushed(g: Log): (first: nat)
    requires Usable(g)
    ensures first <= |g.entries|
  {
    if g.marker.End? then 0 else g.marker.pos + 1
  }

  function Unflushed(g: Log): seq<LoggedRequest>
    requires Usable(g)
  {
    g.entries[FirstUnflushed(g)..]
  }

  /** The log after all unflushed entries have been taken. */
  function Taken(g: Log): Log
    requires Usable(g)
  {
    if FirstUnflushed(g) == |g.entries| then g else g.(marker := At(|g.entries| - 1))
  }

  /** Length of the prefix of entries that are not newer than minTime. */
  function OldPrefix(entries: seq<LoggedRequest>, minTime: Time): (n: nat)
    ensures n <= |entries|
    ensures forall i :: 0 <= i < n ==> entries[i].endTime <= minTime
    ensures n < |entries| ==> entries[n].endTime > minTime
  {
    if entries == [] || entries[0].endTime > minTime then 0 else 1 + OldPrefix(entries[1..], minTime)
  }

  /** Where an iterator points after the first n entries have been spliced into another list. */
  function Relocated(marker: Marker, n: nat): Marker {
    match marker
    case At(pos) => if pos < n then Dangling else At(pos - n)
    case _ => marker
  }

  /** The purge phase: nothing while a log range is alive, else the old prefix goes. */
  function Purged(g: Log, minTime: Time): Log {
    var n := OldPrefix(g.entries, minTime);
    if g.readers != 0 || n == 0 then g
    else g.(entries := g.entries[n..], marker := if n == |g.entries| then End else Relocated(g.marker, n))
  }

  function Appended(g: Log, r: LoggedRequest): Log {
    if g.isLogging then g.(entries := g.entries + [r]) else g
  }

  function Switched(g: Log, status: bool): Log {
    if status == g.isLogging then g
    else if status then g.(isLogging := true, marker := End)
    else Log([], End, false, g.readers)
  }

  function SwitchBatch(g: Log, status: bool): seq<LoggedRequest>
    requires g.isLogging && !status ==> Usable(g)
  {
    if g.isLogging && !status then Unflushed(g) else []
  }

  // ---------------------------------------------------------------- the class

  class HandlerView {
    var itsRequestLog: seq<LoggedRequest>
    var itsLastFlushedRequest: Marker
    var isLogging: bool
    var itsLogReaderCount: int

    function Value(): Log
      reads this
    {
      Log(itsRequestLog, itsLastFlushedRequest, isLogging, itsLogReaderCount)
    }

    /** A new handler: begin() of an empty list is end(). */
    constructor (loggingStatus: bool)
      ensures Value() == Log([], End, loggingStatus, 0)
    {
      itsRequestLog := [];
      itsLastFlushedRequest := End;
      isLogging := loggingStatus;
      itsLogReaderCount := 0;
    }

    method AppendLoggedRequest(r: LoggedRequest)
      modifies this
      ensures Value() == Appended(old(Value()), r)
    {
      if isLogging {
        itsRequestLog := itsRequestLog + [r];
      }
    }

    /** Takes every unflushed entry and moves the marker to the last entry. */
    method TakeBatch() returns (batch: seq<LoggedRequest>)
      requires Usable(Value())
      modifies this
      ensures batch == old(Unflushed(Value())) && Value() == Taken(old(Value()))
    {
      var first := if itsLastFlushedRequest.End? then 0 else itsLastFlushedRequest.pos + 1;
      batch := [];
      if first != |itsRequestLog| {
        batch := itsRequestLog[first..];
        itsLastFlushedRequest := At(|itsRequestLog| - 1);
      }
    }

    method PurgeOld(minTime: Time)
      modifies this
      ensures Value() == Purged(old(Value()), minTime)
    {
      if itsLogReaderCount != 0 {
        return;
      }
      var n := 0;
      while n < |itsRequestLog| && itsRequestLog[n].endTime <= minTime
        invariant n <= |itsRequestLog|
        invariant OldPrefix(itsRequestLog, minTime) == n + OldPrefix(itsRequestLog[n..], minTime)
      {
        assert itsRequestLog[n..][1..] == itsRequestLog[n + 1..];
        n := n + 1;
      }
      assert OldPrefix(itsRequestLog, minTime) == n;
      if n != 0 {
        itsLastFlushedRequest := if n == |itsRequestLog| then End else Relocated(itsLastFlushedRequest, n);
        itsRequestLog := itsRequestLog[n..];
      }
    }

    /** One undisturbed cleaning pass; `written` is what reaches the disk. */
    method CleanLog(minTime: Time, flush: bool) returns (written: seq<LoggedRequest>)
      requires Usable(Value())
      modifies this
      ensures written == if flush then old(Unflushed(Value())) else []
      ensures Value() == Purged(if flush then Taken(old(Value())) else old(Value()), minTime)
      ensures flush ==> Usable(Value()) && Unflushed(Value()) == []
    {
      written := [];
      if flush {
        written := TakeBatch();
        FlushedPurge(Value(), minTime);
      }
      PurgeOld(minTime);
    }

    method FlushLog() returns (written: seq<LoggedRequest>)
      requires Usable(Value())
      modifies this
      ensures written == old(Unflushed(Value())) && Value() == Taken(old(Value()))
    {
      written := TakeBatch();
    }

    method SetLogging(newStatus: bool) returns (written: seq<LoggedRequest>)
      requires Usable(Value())
      modifies this
      ensures written == SwitchBatch(old(Value()), newStatus) && Value() == Switched(old(Value()), newStatus)
    {
      written := [];
      var previousStatus := isLogging;
      isLogging := newStatus;
      if isLogging == previousStatus {
        return;
      }
      if !isLogging {
        written := Pending(itsRequestLog, itsLastFlushedRequest);
        itsRequestLog := [];
        itsLastFlushedRequest := End;
      } else {
        itsLastFlushedRequest := End;
      }
    }

    /** The entries after the marker. */
    static method Pending(log: seq<LoggedRequest>, marker: Marker) returns (batch: seq<LoggedRequest>)
      requires marker.End? || (marker.At? && marker.pos < |log|)
      ensures forall isLogging, readers :: batch == Unflushed(Log(log, marker, isLogging, readers))
    {
      batch := [];
      var first := if marker.End? then 0 else marker.pos + 1;
      if first != |log| {
        batch := log[first..];
      }
    }

    method LockLogRange()
      modifies this`itsLogReaderCount
      ensures itsLogReaderCount == old(itsLogReaderCount) + 1
    {
      itsLogReaderCount := itsLogReaderCount + 1;
    }

    method ReleaseLogRange()
      modifies this`itsLogReaderCount
      ensures itsLogReaderCount == old(itsLogReaderCount) - 1
    {
      itsLogReaderCount := itsLogReaderCount - 1;
    }
  }

  lemma Pinned(g: Log, minTime: Time)
    requires g.readers != 0
    ensures Purged(g, minTime) == g
  {
  }

  lemma FlushedPurge(g: Log, minTime: Time)
    requires Usable(g) && Unflushed(g) == []
    ensures Usable(Purged(g, minTime)) && Unflushed(Purged(g, minTime)) == []
  {
  }

  // ---------------------------------------------------------------- exactly when a purge is harmless

  /** The purge frees the very entry the marker points to while a newer entry stays behind. */
  predicate LosesMarker(g: Log, minTime: Time) {
    g.readers == 0 && g.marker.At? && g.marker.pos < OldPrefix(g.entries, minTime) < |g.entries|
  }

  /** The purge drops an entry that was never taken for disk. */
  predicate LosesEntry(g: Log, minTime: Time)
    requires Usable(g)
  {
    g.readers == 0 && FirstUnflushed(g) < OldPrefix(g.entries, minTime)
  }

  lemma MarkerSurvivesExactly(g: Log, minTime: Time)
    requires Usable(g)
    ensures Usable(Purged(g, minTime)) <==> !LosesMarker(g, minTime)
  {
  }

  lemma PurgeKeepsUnflushedExactly(g: Log, minTime: Time)
    requires Usable(g) && !LosesMarker(g, minTime)
    ensures Unflushed(Purged(g, minTime)) == Unflushed(g) <==> !LosesEntry(g, minTime)
  {
    MarkerSurvivesExactly(g, minTime);
    var n, first := OldPrefix(g.entries, minTime), FirstUnflushed(g);
    var h := Purged(g, minTime);
    if g.readers == 0 && n != 0 {
      assert h.entries == g.entries[n..];
      if first < n {
        assert |Unflushed(h)| <= |g.entries| - n < |Unflushed(g)|;
      } else {
        DropTwice(g.entries, n, first);
      }
    }
  }

  lemma DropTwice(s: seq<LoggedRequest>, n: nat, first: nat)
    requires n <= first <= |s|
    ensures s[n..][first - n..] == s[first..]
  {
  }

  // ---------------------------------------------------------------- the machine

  /** A cleaning pass between its flush phase and its purge phase. */
  datatype Pass = Pass(minTime: Time, pushedSince: bool)

  /** A live log range: the list when it was taken, and whether logging was switched off meanwhile. */
  datatype Range = Range(view: seq<LoggedRequest>, cut: bool)

  datatype State = State(
    log: Log,
    passes: map<nat, Pass>,
    ranges: map<nat, Range>,
    pushed: seq<LoggedRequest>,
    taken: seq<LoggedRequest>)

  datatype Event =
    | Append(r: LoggedRequest)
    | BeginPass(id: nat, minTime: Time)
    | EndPass(id: nat)
    | Flush
    | SetLogging(status: bool)
    | GetRange(id: nat)
    | CopyRange(from: nat, id: nat)
    | DropRange(id: nat)

  /** What the code itself needs: the marker is not followed while it dangles. */
  predicate Possible(s: State, e: Event) {
    match e
    case Append(_) => true
    case BeginPass(id, _) => id !in s.passes && Usable(s.log)
    case EndPass(id) => id in s.passes
    case Flush => Usable(s.log)
    case SetLogging(status) => s.log.isLogging && !status ==> Usable(s.log)
    case GetRange(id) => id !in s.ranges
    case CopyRange(from, id) => from in s.ranges && id !in s.ranges
    case DropRange(id) => id in s.ranges
  }

  /**
   The two rules of timing that conservation needs. Appended entries are newer than the limit of every running
   pass, and nothing was pushed during a pass that is about to purge the marker's own entry.
   */
  predicate InTime(s: State, e: Event) {
    match e
    case Append(r) => s.log.isLogging ==> forall id :: id in s.passes ==> s.passes[id].minTime < r.endTime
    case EndPass(id) =>
      id in s.passes && s.log.readers == 0 && s.log.marker.At?
      && s.log.marker.pos < OldPrefix(s.log.entries, s.passes[id].minTime)
      ==> !s.passes[id].pushedSince
    case _ => true
  }

  function Next(s: State, e: Event): State
    requires Possible(s, e)
  {
    match e
    case Append(r) =>
      var t := s.(log := Appended(s.log, r));
      if s.log.isLogging then
        t.(pushed := s.pushed + [r], passes := map id | id in s.passes :: s.passes[id].(pushedSince := true))
      else t
    case BeginPass(id, minTime) =>
      s.(log := Taken(s.log), taken := s.taken + Unflushed(s.log), passes := s.passes[id := Pass(minTime, false)])
    case EndPass(id) => s.(log := Purged(s.log, s.passes[id].minTime), passes := s.passes - {id})
    case Flush => s.(log := Taken(s.log), taken := s.taken + Unflushed(s.log))
    case SetLogging(status) =>
      s.(log := Switched(s.log, status), taken := s.taken + SwitchBatch(s.log, status),
         ranges := if s.log.isLogging && !status then map id | id in s.ranges :: s.ranges[id].(cut := true) else s.ranges)
    case GetRange(id) =>
      s.(log := s.log.(readers := s.log.readers + 1), ranges := s.ranges[id := Range(s.log.entries, false)])
    case CopyRange(from, id) =>
      s.(log := s.log.(readers := s.log.readers + 1), ranges := s.ranges[id := s.ranges[from]])
    case DropRange(id) =>
      s.(log := s.log.(readers := s.log.readers - 1), ranges := s.ranges - {id})
  }

  function Start(loggingStatus: bool): State {
    State(Log([], End, loggingStatus, 0), map[], map[], [], [])
  }

  predicate PossibleRun(s: State, events: seq<Event>)
    decreases |events|
  {
    events == [] || (Possible(s, events[0]) && PossibleRun(Next(s, events[0]), events[1..]))
  }

  function Run(s: State, events: seq<Event>): State
    requires PossibleRun(s, events)
    decreases |events|
  {
    if events == [] then s else Run(Next(s, events[0]), events[1..])
  }

  predicate TimelyRun(s: State, events: seq<Event>)
    requires PossibleRun(s, events)
    decreases |events|
  {
    events == [] || (InTime(s, events[0]) && TimelyRun(Next(s, events[0]), events[1..]))
  }

  // ---------------------------------------------------------------- pins, in every run

  /** Ranges are counted, and what an uncut range was handed is still at the front of the list. */
  ghost predicate Pinning(s: State) {
    && s.log.readers == |s.ranges|
    && (forall id :: id in s.ranges && !s.ranges[id].cut ==> s.ranges[id].view <= s.log.entries)
  }

  lemma CutKeepsCount(s: State, status: bool)
    requires Possible(s, SetLogging(status))
    ensures |Next(s, SetLogging(status)).ranges| == |s.ranges|
  {
    var t := Next(s, SetLogging(status));
    assert t.ranges.Keys == s.ranges.Keys;
    assert |t.ranges| == |t.ranges.Keys| && |s.ranges| == |s.ranges.Keys|;
  }

  lemma PinStep(s: State, e: Event)
    requires Pinning(s) && Possible(s, e)
    ensures Pinning(Next(s, e))
  {
    match e
    case EndPass(id) =>
      if s.log.readers != 0 {
        Pinned(s.log, s.passes[id].minTime);
      } else {
        assert s.ranges == map[];
      }
    case SetLogging(status) => CutKeepsCount(s, status);
    case DropRange(id) => assert s.ranges == (s.ranges - {id})[id := s.ranges[id]];
    case _ =>
  }

  lemma {:induction false} PinRun(s: State, events: seq<Event>)
    requires Pinning(s) && PossibleRun(s, events)
    ensures Pinning(Run(s, events))
    decreases |events|
  {
    if events != [] {
      PinStep(s, events[0]);
      PinRun(Next(s, events[0]), events[1..]);
    }
  }

  /**
   In every interleaving the reader count is the number of live log ranges, no purge removes anything while it is
   not zero, and each range still sees every entry it was handed.
   */
  lemma RangesArePinned(loggingStatus: bool, events: seq<Event>)
    requires PossibleRun(Start(loggingStatus), events)
    ensures var s := Run(Start(loggingStatus), events);
            && s.log.readers == |s.ranges|
            && (s.log.readers != 0 ==> forall minTime :: Purged(s.log, minTime) == s.log)
            && forall id :: id in s.ranges && !s.ranges[id].cut ==> s.ranges[id].view <= s.log.entries
  {
    PinRun(Start(loggingStatus), events);
    Pins(Run(Start(loggingStatus), events));
  }

  /** Neither the range is dropped nor logging switched off. */
  predicate Undisturbed(events: seq<Event>, id: nat) {
    SetLogging(false) !in events && DropRange(id) !in events
  }

  lemma {:induction false} ViewStays(s: State, events: seq<Event>, id: nat, view: seq<LoggedRequest>)
    requires Pinning(s) && PossibleRun(s, events) && Undisturbed(events, id)
    requires id in s.ranges && view <= s.log.entries
    ensures id in Run(s, events).ranges && view <= Run(s, events).log.entries
    decreases |events|
  {
    if events != [] {
      var e, t := events[0], Next(s, events[0]);
      assert e in events && forall i :: 0 <= i < |events[1..]| ==> events[1..][i] == events[i + 1];
      if e.EndPass? {
        assert id in s.ranges.Keys && |s.ranges| == |s.ranges.Keys| > 0;
        Pinned(s.log, s.passes[e.id].minTime);
      }
      PinStep(s, e);
      ViewStays(t, events[1..], id, view);
    }
  }

  /**
   A range that is handed out goes on seeing every entry of the list at that moment, at the same place, through
   any calls of other threads, until it is dropped or logging is switched off.
   */
  lemma RangeSeesItsEntries(loggingStatus: bool, before: seq<Event>, id: nat, events: seq<Event>)
    requires PossibleRun(Start(loggingStatus), before) && id !in Run(Start(loggingStatus), before).ranges
    requires PossibleRun(Next(Run(Start(loggingStatus), before), GetRange(id)), events) && Undisturbed(events, id)
    ensures var s := Run(Start(loggingStatus), before);
            s.log.entries <= Run(Next(s, GetRange(id)), events).log.entries
  {
    var s := Run(Start(loggingStatus), before);
    PinRun(Start(loggingStatus), before);
    PinStep(s, GetRange(id));
    ViewStays(Next(s, GetRange(id)), events, id, s.log.entries);
  }

  lemma Pins(s: State)
    requires Pinning(s)
    ensures s.log.readers == |s.ranges|
    ensures s.log.readers != 0 ==> forall minTime :: Purged(s.log, minTime) == s.log
    ensures forall id :: id in s.ranges && !s.ranges[id].cut ==> s.ranges[id].view <= s.log.entries
  {
    forall minTime | s.log.readers != 0 ensures Purged(s.log, minTime) == s.log {
      Pinned(s.log, minTime);
    }
  }

  // ---------------------------------------------------------------- conservation, in timely runs

  /** What holds between any two lock regions. */
  ghost predicate Inv(s: State) {
    && Usable(s.log)
    && s.taken + Unflushed(s.log) == s.pushed
    && (!s.log.isLogging ==> s.log.entries == [])
    && (forall id :: id in s.passes ==> PassOk(s, s.passes[id]))
  }

  ghost predicate PassOk(s: State, p: Pass)
    requires Usable(s.log)
  {
    && (forall r :: r in Unflushed(s.log) ==> p.minTime < r.endTime)
    && (!p.pushedSince ==> Unflushed(s.log) == [])
  }

  /** The phase C of an allowed pass loses neither the marker nor an entry. */
  lemma EndPassIsHarmless(s: State, id: nat)
    requires Inv(s) && Possible(s, EndPass(id)) && InTime(s, EndPass(id))
    ensures var g := Purged(s.log, s.passes[id].minTime);
            Usable(g) && Unflushed(g) == Unflushed(s.log)
  {
    var g, p := s.log, s.passes[id];
    assert PassOk(s, p);
    assert FirstUnflushed(g) < |g.entries| ==> g.entries[FirstUnflushed(g)] in Unflushed(g);
    assert !LosesEntry(g, p.minTime) && !LosesMarker(g, p.minTime);
    MarkerSurvivesExactly(g, p.minTime);
    PurgeKeepsUnflushedExactly(g, p.minTime);
  }

  lemma EndPassKeeps(s: State, id: nat)
    requires Inv(s) && Possible(s, EndPass(id)) && InTime(s, EndPass(id))
    ensures Inv(Next(s, EndPass(id)))
  {
    var t := Next(s, EndPass(id));
    EndPassIsHarmless(s, id);
    forall i | i in t.passes ensures PassOk(t, t.passes[i]) {
      assert PassOk(s, s.passes[i]);
    }
  }

  lemma AppendKeeps(s: State, r: LoggedRequest)
    requires Inv(s) && InTime(s, Append(r)) && s.log.isLogging
    ensures Inv(Next(s, Append(r)))
  {
    var t := Next(s, Append(r));
    assert Unflushed(t.log) == Unflushed(s.log) + [r];
    forall id | id in t.passes ensures PassOk(t, t.passes[id]) {
      assert PassOk(s, s.passes[id]);
    }
  }

  lemma TakeKeeps(s: State, t: State)
    requires Inv(s) && t.log == Taken(s.log) && t.taken == s.taken + Unflushed(s.log)
    requires t.pushed == s.pushed && t.ranges == s.ranges
    requires forall id :: id in t.passes ==> id in s.passes || !t.passes[id].pushedSince
    ensures Inv(t)
  {
    assert Unflushed(t.log) == [];
  }

  lemma SwitchKeeps(s: State, status: bool)
    requires Inv(s)
    ensures Inv(Next(s, SetLogging(status)))
  {
    var t := Next(s, SetLogging(status));
    if status != s.log.isLogging {
      assert Unflushed(t.log) == [];
    }
  }

  lemma RangeStepKeeps(s: State, e: Event)
    requires Inv(s) && Possible(s, e) && (e.GetRange? || e.CopyRange? || e.DropRange?)
    ensures Inv(Next(s, e))
  {
    var t := Next(s, e);
    assert Unflushed(t.log) == Unflushed(s.log);
    forall id | id in t.passes ensures PassOk(t, t.passes[id]) {
      assert PassOk(s, s.passes[id]);
    }
  }

  lemma StepKeeps(s: State, e: Event)
    requires Inv(s) && Possible(s, e) && InTime(s, e)
    ensures Inv(Next(s, e))
  {
    match e
    case Append(r) =>
      if s.log.isLogging {
        AppendKeeps(s, r);
      }
    case BeginPass(_, _) => TakeKeeps(s, Next(s, e));
    case EndPass(id) => EndPassKeeps(s, id);
    case Flush => TakeKeeps(s, Next(s, e));
    case SetLogging(status) => SwitchKeeps(s, status);
    case _ => RangeStepKeeps(s, e);
  }

  lemma {:induction false} RunKeeps(s: State, events: seq<Event>)
    requires Inv(s) && PossibleRun(s, events) && TimelyRun(s, events)
    ensures Inv(Run(s, events))
    decreases |events|
  {
    if events != [] {
      StepKeeps(s, events[0]);
      RunKeeps(Next(s, events[0]), events[1..]);
    }
  }

  /** Whether logging is on after the events: the latest switch says so, or else the status at the start. */
  function OnAfter(status: bool, events: seq<Event>): bool
    decreases |events|
  {
    if events == [] then status else OnAfter(if events[0].SetLogging? then events[0].status else status, events[1..])
  }

  /** The requests appended while logging was on, from the events alone. */
  function Accepted(status: bool, events: seq<Event>): seq<LoggedRequest>
    decreases |events|
  {
    if events == [] then []
    else
      match events[0]
      case Append(r) => (if status then [r] else []) + Accepted(status, events[1..])
      case SetLogging(now) => Accepted(now, events[1..])
      case _ => Accepted(status, events[1..])
  }

  /** The flag of the log and the requests it was given are what the events say. */
  lemma {:induction false} AcceptedRun(s: State, events: seq<Event>)
    requires PossibleRun(s, events)
    ensures var t := Run(s, events);
            && t.log.isLogging == OnAfter(s.log.isLogging, events)
            && t.pushed == s.pushed + Accepted(s.log.isLogging, events)
    decreases |events|
  {
    if events != [] {
      var t := Next(s, events[0]);
      AcceptedRun(t, events[1..]);
      if events[0].Append? && s.log.isLogging {
        assert s.pushed + ([events[0].r] + Accepted(true, events[1..]))
            == s.pushed + [events[0].r] + Accepted(true, events[1..]);
      }
    }
  }

  /**
   Log conservation: in every interleaving the batches taken for disk, in the order taken, followed by the
   entries after the marker are exactly the requests appended while logging was on, the marker can always be
   dereferenced, and the list is empty while logging is off.
   */
  lemma LogConservation(loggingStatus: bool, events: seq<Event>)
    requires PossibleRun(Start(loggingStatus), events) && TimelyRun(Start(loggingStatus), events)
    ensures var s := Run(Start(loggingStatus), events);
            && Usable(s.log) && s.taken + Unflushed(s.log) == s.pushed == Accepted(loggingStatus, events)
            && s.log.isLogging == OnAfter(loggingStatus, events)
            && (!OnAfter(loggingStatus, events) ==> s.log.entries == [])
  {
    RunKeeps(Start(loggingStatus), events);
    AcceptedRun(Start(loggingStatus), events);
    Conserved(Run(Start(loggingStatus), events));
  }

  lemma Conserved(s: State)
    requires Inv(s)
    ensures Usable(s.log) && s.taken + Unflushed(s.log) == s.pushed
    ensures !s.log.isLogging ==> s.log.entries == []
  {
  }

  // ---------------------------------------------------------------- conservation, exactly

  predicate Conserving(s: State) {
    && Usable(s.log) && s.taken + Unflushed(s.log) == s.pushed
    && (!s.log.isLogging ==> s.log.entries == [])
  }

  /** The only step that can do harm is a purge that frees the marked entry alone, or one not yet taken. */
  predicate Harmless(s: State, e: Event)
    requires Possible(s, e) && Usable(s.log)
  {
    e.EndPass? ==> !LosesMarker(s.log, s.passes[e.id].minTime) && !LosesEntry(s.log, s.passes[e.id].minTime)
  }

  lemma PurgeConserves(s: State, id: nat)
    requires Conserving(s) && Possible(s, EndPass(id))
    ensures Conserving(Next(s, EndPass(id))) <==> Harmless(s, EndPass(id))
  {
    var minTime := s.passes[id].minTime;
    var g := Purged(s.log, minTime);
    MarkerSurvivesExactly(s.log, minTime);
    if !LosesMarker(s.log, minTime) {
      PurgeKeepsUnflushedExactly(s.log, minTime);
      SameEnd(s.taken, Unflushed(s.log), Unflushed(g));
    }
  }

  lemma SameEnd(a: seq<LoggedRequest>, b: seq<LoggedRequest>, c: seq<LoggedRequest>)
    ensures a + b == a + c <==> b == c
  {
    assert (a + b)[|a|..] == b && (a + c)[|a|..] == c;
  }

  lemma StepConserves(s: State, e: Event)
    requires Conserving(s) && Possible(s, e)
    ensures Conserving(Next(s, e)) <==> Harmless(s, e)
  {
    var t := Next(s, e);
    match e
    case EndPass(id) => PurgeConserves(s, id);
    case Append(r) => assert s.log.isLogging ==> Unflushed(t.log) == Unflushed(s.log) + [r];
    case BeginPass(_, _) => assert Unflushed(t.log) == [];
    case Flush => assert Unflushed(t.log) == [];
    case SetLogging(status) => assert status != s.log.isLogging ==> Unflushed(t.log) == [];
    case _ => assert Unflushed(t.log) == Unflushed(s.log);
  }

  predicate AlwaysConserving(s: State, events: seq<Event>)
    requires PossibleRun(s, events)
    decreases |events|
  {
    Conserving(s) && (events != [] ==> AlwaysConserving(Next(s, events[0]), events[1..]))
  }

  predicate AlwaysHarmless(s: State, events: seq<Event>)
    requires PossibleRun(s, events)
    decreases |events|
  {
    events != [] ==> Usable(s.log) && Harmless(s, events[0]) && AlwaysHarmless(Next(s, events[0]), events[1..])
  }

  /**
   Without the rules of timing: a run conserves the log at every step if and only if none of its purges frees the
   marked entry and leaves another, or removes an entry that was not yet taken.
   */
  lemma {:induction false} ConservationExactly(s: State, events: seq<Event>)
    requires Conserving(s) && PossibleRun(s, events)
    ensures AlwaysConserving(s, events) <==> AlwaysHarmless(s, events)
    decreases |events|
  {
    if events != [] {
      StepConserves(s, events[0]);
      if Harmless(s, events[0]) {
        ConservationExactly(Next(s, events[0]), events[1..]);
      } else {
        NotConserving(Next(s, events[0]), events[1..]);
      }
    }
  }

  lemma NotConserving(s: State, events: seq<Event>)
    requires PossibleRun(s, events) && !Conserving(s)
    ensures !AlwaysConserving(s, events)
  {
  }

  // ---------------------------------------------------------------- the purge as a filter

  predicate Sorted(entries: seq<LoggedRequest>) {
    forall i, j :: 0 <= i <= j < |entries| ==> entries[i].endTime <= entries[j].endTime
  }

  function NewerThan(entries: seq<LoggedRequest>, minTime: Time): seq<LoggedRequest> {
    if entries == [] then []
    else (if entries[0].endTime > minTime then [entries[0]] else []) + NewerThan(entries[1..], minTime)
  }

  lemma {:induction false} SortedPurge(entries: seq<LoggedRequest>, minTime: Time)
    requires Sorted(entries)
    ensures entries[OldPrefix(entries, minTime)..] == NewerThan(entries, minTime)
  {
    if entries != [] {
      SortedPurge(entries[1..], minTime);
      if entries[0].endTime > minTime {
        AllNewer(entries, minTime);
      } else {
        assert entries[1 + OldPrefix(entries[1..], minTime)..] == entries[1..][OldPrefix(entries[1..], minTime)..];
      }
    }
  }

  lemma {:induction false} AllNewer(entries: seq<LoggedRequest>, minTime: Time)
    requires forall i :: 0 <= i < |entries| ==> entries[i].endTime > minTime
    ensures NewerThan(entries, minTime) == entries
  {
    if entries != [] {
      AllNewer(entries[1..], minTime);
    }
  }

  /** The clock under the lock never runs backwards: no push is older than one before it. */
  predicate MonotoneRun(s: State, events: seq<Event>)
    requires PossibleRun(s, events)
    decreases |events|
  {
    events == [] ||
    ((events[0].Append? && s.pushed != [] ==> s.pushed[|s.pushed| - 1].endTime <= events[0].r.endTime) &&
     MonotoneRun(Next(s, events[0]), events[1..]))
  }

  /** The list is always a suffix of what was pushed, so it stays in the order of the clock. */
  ghost predicate Suffix(s: State) {
    && |s.log.entries| <= |s.pushed|
    && s.log.entries == s.pushed[|s.pushed| - |s.log.entries|..]
    && Sorted(s.pushed)
  }

  lemma SuffixDrop(pushed: seq<LoggedRequest>, entries: seq<LoggedRequest>, n: nat)
    requires n <= |entries| <= |pushed| && entries == pushed[|pushed| - |entries|..]
    ensures entries[n..] == pushed[|pushed| - |entries[n..]|..]
  {
  }

  lemma SortedPush(pushed: seq<LoggedRequest>, r: LoggedRequest)
    requires Sorted(pushed) && (pushed != [] ==> pushed[|pushed| - 1].endTime <= r.endTime)
    ensures Sorted(pushed + [r])
  {
    forall i, j | 0 <= i <= j < |pushed| + 1 ensures (pushed + [r])[i].endTime <= (pushed + [r])[j].endTime {
      if i < |pushed| {
        assert pushed[i].endTime <= pushed[|pushed| - 1].endTime;
      }
    }
  }

  lemma SuffixPush(pushed: seq<LoggedRequest>, entries: seq<LoggedRequest>, r: LoggedRequest)
    requires |entries| <= |pushed| && entries == pushed[|pushed| - |entries|..]
    ensures entries + [r] == (pushed + [r])[|pushed| - |entries|..]
  {
  }

  /** Apart from a push and a purge, a step keeps the list or clears it. */
  lemma OtherSteps(s: State, e: Event)
    requires Possible(s, e) && !e.Append? && !e.EndPass?
    ensures Next(s, e).pushed == s.pushed
    ensures Next(s, e).log.entries == s.log.entries || Next(s, e).log.entries == []
  {
  }

  lemma SuffixAppend(s: State, r: LoggedRequest)
    requires Suffix(s) && Possible(s, Append(r))
    requires s.pushed != [] ==> s.pushed[|s.pushed| - 1].endTime <= r.endTime
    ensures Suffix(Next(s, Append(r)))
  {
    SuffixPush(s.pushed, s.log.entries, r);
    SortedPush(s.pushed, r);
  }

  lemma SuffixEndPass(s: State, id: nat)
    requires Suffix(s) && Possible(s, EndPass(id))
    ensures Suffix(Next(s, EndPass(id)))
  {
    SuffixDrop(s.pushed, s.log.entries, OldPrefix(s.log.entries, s.passes[id].minTime));
  }

  lemma SuffixStep(s: State, e: Event)
    requires Suffix(s) && Possible(s, e)
    requires e.Append? && s.pushed != [] ==> s.pushed[|s.pushed| - 1].endTime <= e.r.endTime
    ensures Suffix(Next(s, e))
  {
    if e.Append? {
      SuffixAppend(s, e.r);
    } else if e.EndPass? {
      SuffixEndPass(s, e.id);
    } else {
      OtherSteps(s, e);
      var t := Next(s, e);
      assert |t.log.entries| <= |t.pushed| && t.log.entries == t.pushed[|t.pushed| - |t.log.entries|..];
    }
  }

  lemma {:induction false} SortedRun(s: State, events: seq<Event>)
    requires PossibleRun(s, events) && MonotoneRun(s, events) && Suffix(s)
    ensures Suffix(Run(s, events))
    decreases |events|
  {
    if events != [] {
      SuffixStep(s, events[0]);
      SortedRun(Next(s, events[0]), events[1..]);
    }
  }

  /** With a clock that never runs backwards an unpinned purge leaves exactly the entries newer than minTime. */
  lemma PurgeIsExact(loggingStatus: bool, events: seq<Event>, minTime: Time)
    requires PossibleRun(Start(loggingStatus), events) && MonotoneRun(Start(loggingStatus), events)
    ensures var g := Run(Start(loggingStatus), events).log;
            Purged(g, minTime).entries == if g.readers == 0 then NewerThan(g.entries, minTime) else g.entries
  {
    SortedRun(Start(loggingStatus), events);
    SortedPurge(Run(Start(loggingStatus), events).log.entries, minTime);
  }

  // ---------------------------------------------------------------- what stays in the list

  /** The limit of every pass that runs or will run is older than the request. */
  predicate NewerThanPasses(s: State, events: seq<Event>, r: LoggedRequest) {
    && (forall id :: id in s.passes ==> s.passes[id].minTime < r.endTime)
    && forall i :: 0 <= i < |events| && events[i].BeginPass? ==> events[i].minTime < r.endTime
  }

  lemma OldPrefixKeeps(entries: seq<LoggedRequest>, minTime: Time, r: LoggedRequest)
    requires r in entries && minTime < r.endTime
    ensures r in entries[OldPrefix(entries, minTime)..]
  {
    var k :| 0 <= k < |entries| && entries[k] == r;
    assert entries[k] == entries[OldPrefix(entries, minTime)..][k - OldPrefix(entries, minTime)];
  }

  lemma RecentStep(s: State, e: Event, r: LoggedRequest)
    requires Possible(s, e) && r in s.log.entries && forall id :: id in s.passes ==> s.passes[id].minTime < r.endTime
    requires e != SetLogging(false)
    ensures r in Next(s, e).log.entries
  {
    if e.EndPass? {
      OldPrefixKeeps(s.log.entries, s.passes[e.id].minTime, r);
    }
  }

  /** Flushing and purging leave a request in the list as long as no pass has a limit that reaches it. */
  lemma {:induction false} RecentRequestsStay(s: State, events: seq<Event>, r: LoggedRequest)
    requires PossibleRun(s, events) && r in s.log.entries && NewerThanPasses(s, events, r)
    requires SetLogging(false) !in events
    ensures r in Run(s, events).log.entries
    decreases |events|
  {
    if events != [] {
      var t := Next(s, events[0]);
      RecentStep(s, events[0], r);
      assert events[0] in events && forall i :: 0 <= i < |events[1..]| ==> events[1..][i] == events[i + 1];
      assert forall id :: id in t.passes ==> t.passes[id].minTime < r.endTime;
      RecentRequestsStay(t, events[1..], r);
    }
  }

  // ---------------------------------------------------------------- both hypotheses are needed

  /**
   One push between the two phases of a pass, and the pass frees the marker's entry while the new one stays:
   the next flush would advance an iterator to a destroyed node.
   */
  lemma PushDuringPassLosesMarker()
    ensures var a, b := LoggedRequest("a", 1), LoggedRequest("b", 9);
            var g := Appended(Taken(Appended(Log([], End, true, 0), a)), b);
            Usable(g) && Purged(g, 5) == Log([b], Dangling, true, 0)
  {
    var a, b := LoggedRequest("a", 1), LoggedRequest("b", 9);
    var g := Appended(Taken(Appended(Log([], End, true, 0), a)), b);
    assert g == Log([a, b], At(0), true, 0);
    assert OldPrefix([a, b], 5) == 1 by {
      assert [a, b][1..] == [b];
    }
  }

  /** A push that is not newer than the limit of the running pass is purged without ever being taken. */
  lemma OldPushIsLost()
    ensures var a := LoggedRequest("a", 1);
            var g := Appended(Taken(Log([], End, true, 0)), a);
            Unflushed(g) == [a] && Purged(g, 5) == Log([], End, true, 0)
  {
    assert OldPrefix([LoggedRequest("a", 1)], 5) == 1;
  }
}
