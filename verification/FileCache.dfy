/**
 The file cache: its lock regions as operations on the entry map, the class that performs them,
 and the interleaving machine in which many threads use the cache while the disk changes.
 */
module FileCaching {
  import opened Wrappers

  type Path = string
  type Time = int

  /** A cache entry. A modification time of 0 records that the file was missing. */
  datatype FileContents = FileContents(modificationTime: int, checkedTime: Time, content: string)
  type Cache = map<Path, FileContents>

  // ---------------------------------------------------------------- lock regions, on values

  /** The fast path: an entry whose last check is younger than the maximum age. */
  function FreshEntry(cache: Cache, maxAge: int, path: Path, now: Time): Option<FileContents> {
    if path in cache && now - cache[path].checkedTime < maxAge then Some(cache[path]) else None
  }

  predicate Unchanged(cache: Cache, path: Path, mtime: int) {
    path in cache && cache[path].modificationTime == mtime
  }

  function Rechecked(cache: Cache, path: Path, now: Time): Cache
    requires path in cache
  {
    cache[path := cache[path].(checkedTime := now)]
  }

  // ---------------------------------------------------------------- the class

  /** The cache object; every method below is one critical section, except Refresh and Get. */
  class FileCache {
    var itsCache: Cache
    var itsMaxCheckAge: int

    constructor (maxCheckAge: int)
      ensures itsCache == map[] && itsMaxCheckAge == maxCheckAge
    {
      itsCache := map[];
      itsMaxCheckAge := maxCheckAge;
    }

    method SetMaxCheckAge(maxCheckAge: int)
      modifies this`itsMaxCheckAge
      ensures itsMaxCheckAge == maxCheckAge
    {
      itsMaxCheckAge := maxCheckAge;
    }

    method FindFresh(path: Path, now: Time) returns (entry: Option<FileContents>)
      ensures entry == FreshEntry(itsCache, itsMaxCheckAge, path, now)
      ensures entry.Some? <==> path in itsCache && now - itsCache[path].checkedTime < itsMaxCheckAge
      ensures entry.Some? ==> entry.value == itsCache[path]
    {
      entry := None;
      if path in itsCache && now - itsCache[path].checkedTime < itsMaxCheckAge {
        entry := Some(itsCache[path]);
      }
    }

    method StoreMissing(path: Path, now: Time) returns (missing: FileContents)
      modifies this`itsCache
      ensures missing == FileContents(0, now, "")
      ensures itsCache == old(itsCache)[path := missing]
    {
      missing := FileContents(0, now, "");
      itsCache := itsCache[path := missing];
    }

    method Revalidate(path: Path, now: Time, mtime: int) returns (entry: Option<FileContents>)
      modifies this`itsCache
      ensures entry.Some? <==> Unchanged(old(itsCache), path, mtime)
      ensures entry.Some? ==> itsCache == Rechecked(old(itsCache), path, now) && entry.value == itsCache[path]
      ensures entry.None? ==> itsCache == old(itsCache)
    {
      entry := None;
      if path in itsCache && mtime == itsCache[path].modificationTime {
        itsCache := itsCache[path := itsCache[path].(checkedTime := now)];
        entry := Some(itsCache[path]);
      }
    }

    method Store(path: Path, contents: FileContents)
      modifies this`itsCache
      ensures itsCache == old(itsCache)[path := contents]
    {
      itsCache := itsCache[path := contents];
    }

    /** `stat` and `file` are what the disk answers: 0 when the stat fails, None when the open fails. */
    method Refresh(path: Path, now: Time, stat: int, file: Option<string>) returns (r: Result<FileContents>)
      modifies this`itsCache
      ensures stat == 0 ==> r == Success(FileContents(0, now, "")) && itsCache == old(itsCache)[path := r.value]
      ensures stat != 0 && Unchanged(old(itsCache), path, stat) ==>
                r == Success(old(itsCache)[path].(checkedTime := now)) && itsCache == old(itsCache)[path := r.value]
      ensures stat != 0 && !Unchanged(old(itsCache), path, stat) && file.Some? ==>
                r == Success(FileContents(stat, now, file.value)) && itsCache == old(itsCache)[path := r.value]
      ensures stat != 0 && !Unchanged(old(itsCache), path, stat) && file.None? ==>
                r == Thrown && itsCache == old(itsCache)
    {
      if stat == 0 {
        var missing := StoreMissing(path, now);
        return Success(missing);
      }
      var entry := Revalidate(path, now, stat);
      if entry.Some? {
        return Success(entry.value);
      }
      if file.None? {
        return Thrown;
      }
      var contents := FileContents(stat, now, file.value);
      Store(path, contents);
      return Success(contents);
    }

    /** One undisturbed call of get. Within the maximum age the answers of the disk do not matter. */
    method Get(path: Path, now: Time, stat: int, file: Option<string>) returns (r: Result<string>)
      modifies this`itsCache
      ensures (itsCache, r) == Served(old(itsCache), itsMaxCheckAge, Lookup(path, now, stat, file))
      ensures path in old(itsCache) && now - old(itsCache)[path].checkedTime < itsMaxCheckAge ==>
                itsCache == old(itsCache) &&
                r == (if itsCache[path].modificationTime == 0 then Thrown else Success(itsCache[path].content))
      ensures !(path in old(itsCache) && now - old(itsCache)[path].checkedTime < itsMaxCheckAge) ==>
                r == (if stat == 0 then Thrown
                      else if Unchanged(old(itsCache), path, stat) then Success(old(itsCache)[path].content)
                      else if file.None? then Thrown
                      else Success(file.value))
      ensures !(path in old(itsCache) && now - old(itsCache)[path].checkedTime < itsMaxCheckAge) ==>
                itsCache == (if stat == 0 then old(itsCache)[path := FileContents(0, now, "")]
                             else if Unchanged(old(itsCache), path, stat) then Rechecked(old(itsCache), path, now)
                             else if file.None? then old(itsCache)
                             else old(itsCache)[path := FileContents(stat, now, file.value)])
    {
      var entry := FindFresh(path, now);
      if entry.Some? {
        return if entry.value.modificationTime == 0 then Thrown else Success(entry.value.content);
      }
      var contents := Refresh(path, now, stat, file);
      if contents.Thrown? || contents.value.modificationTime == 0 {
        return Thrown;
      }
      return Success(contents.value.content);
    }
  }

  // ---------------------------------------------------------------- many calls

  /** A call of get: its clock reading, and what the disk would answer to it. */
  datatype Lookup = Lookup(path: Path, now: Time, stat: int, file: Option<string>)

  function Given(entry: FileContents): Result<string> {
    if entry.modificationTime == 0 then Thrown else Success(entry.content)
  }

  /** One call: the cache it leaves and its result. */
  function Served(cache: Cache, maxAge: int, l: Lookup): (Cache, Result<string>) {
    match FreshEntry(cache, maxAge, l.path, l.now)
    case Some(entry) => (cache, Given(entry))
    case None =>
      if l.stat == 0 then (cache[l.path := FileContents(0, l.now, "")], Thrown)
      else if Unchanged(cache, l.path, l.stat) then (Rechecked(cache, l.path, l.now), Given(cache[l.path]))
      else if l.file.None? then (cache, Thrown)
      else
        var contents := FileContents(l.stat, l.now, l.file.value);
        (cache[l.path := contents], Given(contents))
  }

  function ServedAll(cache: Cache, maxAge: int, calls: seq<Lookup>): (Cache, seq<Result<string>>)
    decreases |calls|
  {
    if calls == [] then (cache, [])
    else
      var (after, result) := Served(cache, maxAge, calls[0]);
      var (end, results) := ServedAll(after, maxAge, calls[1..]);
      (end, [result] + results)
  }

  /**
   The disk is not asked within the window: whatever calls are made, on whatever paths, and whatever the disk would
   say, those on a path read less than the maximum age after its check all get its entry, and the entry stays.
   */
  lemma {:induction false} WindowIsServedFromCache(cache: Cache, maxAge: int, calls: seq<Lookup>, path: Path)
    requires path in cache
    requires forall k :: 0 <= k < |calls| && calls[k].path == path ==> calls[k].now < cache[path].checkedTime + maxAge
    ensures var (end, results) := ServedAll(cache, maxAge, calls);
            && path in end && end[path] == cache[path] && |results| == |calls|
            && forall k :: 0 <= k < |calls| && calls[k].path == path ==>
                 results[k] == if cache[path].modificationTime == 0 then Thrown else Success(cache[path].content)
    decreases |calls|
  {
    if calls != [] {
      var (after, result) := Served(cache, maxAge, calls[0]);
      assert path in after && after[path] == cache[path];
      assert forall k :: 0 <= k < |calls[1..]| ==> calls[1..][k] == calls[k + 1];
      WindowIsServedFromCache(after, maxAge, calls[1..], path);
      assert forall k :: 1 <= k < |calls| ==> calls[k] == calls[1..][k - 1];
    }
  }

  /**
   So a call that asks the disk decides for the whole window it opens: unless it fails to open the file, all calls
   on its path read less than the maximum age after it give its result again.
   */
  lemma OneCheckPerWindow(cache: Cache, maxAge: int, first: Lookup, calls: seq<Lookup>)
    requires first.path in cache ==> first.now >= cache[first.path].checkedTime + maxAge
    requires first.stat == 0 || Unchanged(cache, first.path, first.stat) || first.file.Some?
    requires forall k :: 0 <= k < |calls| && calls[k].path == first.path ==> calls[k].now < first.now + maxAge
    ensures var (after, result) := Served(cache, maxAge, first);
            var (end, results) := ServedAll(after, maxAge, calls);
            && |results| == |calls|
            && forall k :: 0 <= k < |calls| && calls[k].path == first.path ==> results[k] == result
    ensures Served(cache, maxAge, first).1
            == if first.stat == 0 then Thrown
               else if first.path in cache && cache[first.path].modificationTime == first.stat then
                 Success(cache[first.path].content)
               else Success(first.file.value)
  {
    var (after, result) := Served(cache, maxAge, first);
    assert after[first.path].checkedTime == first.now;
    WindowIsServedFromCache(after, maxAge, calls, first.path);
  }

  // ---------------------------------------------------------------- disk history

  datatype File = File(mtime: int, content: string)

  /** What was on disk from `time` until the next instant. */
  datatype Instant = Instant(time: Time, disk: map<Path, File>)
  type History = seq<Instant>

  predicate HasVersion(x: Instant, path: Path, mtime: int) {
    path in x.disk && x.disk[path].mtime == mtime
  }

  predicate HasContent(x: Instant, path: Path, content: string) {
    path in x.disk && x.disk[path].content == content
  }

  /** One modification time means one file. */
  ghost predicate OneVersion(x: Instant, y: Instant) {
    forall p :: p in x.disk && HasVersion(y, p, x.disk[p].mtime) ==> x.disk[p] == y.disk[p]
  }

  /** What x had and y had no more is not in z. */
  ghost predicate NeverReturns(x: Instant, y: Instant, z: Instant) {
    forall p, m :: HasVersion(x, p, m) && !HasVersion(y, p, m) ==> !HasVersion(z, p, m)
  }

  /** Time runs forward, files carry a non-zero time, one time means one version, and no version returns. */
  ghost predicate ValidHistory(h: History) {
    && |h| > 0
    && (forall i, j :: 0 <= i <= j < |h| ==> h[i].time <= h[j].time)
    && (forall i, p :: 0 <= i < |h| && p in h[i].disk ==> h[i].disk[p].mtime != 0)
    && (forall i, j {:trigger OneVersion(h[i], h[j])} :: 0 <= i <= j < |h| ==> OneVersion(h[i], h[j]))
    && (forall i, j, k {:trigger NeverReturns(h[i], h[j], h[k])} ::
          0 <= i < j < k < |h| ==> NeverReturns(h[i], h[j], h[k]))
  }

  ghost predicate SeenMissing(h: History, path: Path, since: Time) {
    exists k :: 0 <= k < |h| && path !in h[k].disk && since <= h[k].time
  }

  ghost predicate SeenVersion(h: History, path: Path, mtime: int, since: Time) {
    exists k :: 0 <= k < |h| && HasVersion(h[k], path, mtime) && since <= h[k].time
  }

  /** The content was on disk at an instant that either carries this version or lies after it for ever. */
  ghost predicate Backs(h: History, k: int, path: Path, mtime: int, content: string, since: Time) {
    && 0 <= k < |h| && HasContent(h[k], path, content) && since <= h[k].time
    && (HasVersion(h[k], path, mtime) || exists i :: 0 <= i < k && HasVersion(h[i], path, mtime))
  }

  ghost predicate Backed(h: History, path: Path, mtime: int, content: string, since: Time) {
    exists k :: Backs(h, k, path, mtime, content, since)
  }

  // ---------------------------------------------------------------- threads

  datatype Query = GetContent | LastModified

  datatype Outcome = Content(content: string) | Modified(mtime: int) | OpenFailed

  /** Program points of get and last_modified; `now` is the clock reading taken first. */
  datatype Thread =
    | Looking(q: Query, path: Path, now: Time)
    | Stating(q: Query, path: Path, now: Time)
    | Checking(q: Query, path: Path, now: Time, mtime: int)
    | Opening(q: Query, path: Path, now: Time, mtime: int)
    | Storing(q: Query, path: Path, now: Time, mtime: int, content: string)
    | Done(q: Query, path: Path, now: Time, maxAge: int, outcome: Outcome)

  datatype State = State(history: History, cache: Cache, maxAge: int, threads: map<nat, Thread>)

  datatype Event =
    | Tick(time: Time)
    | Write(path: Path, file: File)
    | Delete(path: Path)
    | SetAge(maxAge: int)
    | Call(tid: nat, q: Query, path: Path)
    | Act(tid: nat)

  function Last(h: History): Instant
    requires |h| > 0
  {
    h[|h| - 1]
  }

  function Answer(q: Query, entry: FileContents): Outcome {
    if q == LastModified then Modified(entry.modificationTime)
    else if entry.modificationTime == 0 then OpenFailed
    else Content(entry.content)
  }

  function Finish(s: State, tid: nat, entry: FileContents): State
    requires tid in s.threads
  {
    var t := s.threads[tid];
    s.(threads := s.threads[tid := Done(t.q, t.path, t.now, s.maxAge, Answer(t.q, entry))])
  }

  /** One atomic step of a thread: one lock region, one stat or one read of the file. */
  function Advance(s: State, tid: nat): State
    requires |s.history| > 0 && tid in s.threads
  {
    var disk := Last(s.history).disk;
    match s.threads[tid]
    case Looking(q, p, now) =>
      (match FreshEntry(s.cache, s.maxAge, p, now)
       case Some(entry) => Finish(s, tid, entry)
       case None => s.(threads := s.threads[tid := Stating(q, p, now)]))
    case Stating(q, p, now) =>
      s.(threads := s.threads[tid := Checking(q, p, now, if p in disk then disk[p].mtime else 0)])
    case Checking(q, p, now, mtime) =>
      if mtime == 0 then
        var missing := FileContents(0, now, "");
        Finish(s.(cache := s.cache[p := missing]), tid, missing)
      else if Unchanged(s.cache, p, mtime) then
        var cache := Rechecked(s.cache, p, now);
        Finish(s.(cache := cache), tid, cache[p])
      else
        s.(threads := s.threads[tid := Opening(q, p, now, mtime)])
    case Opening(q, p, now, mtime) =>
      if p in disk then s.(threads := s.threads[tid := Storing(q, p, now, mtime, disk[p].content)])
      else s.(threads := s.threads[tid := Done(q, p, now, s.maxAge, OpenFailed)])
    case Storing(q, p, now, mtime, content) =>
      var contents := FileContents(mtime, now, content);
      Finish(s.(cache := s.cache[p := contents]), tid, contents)
    case _ => s
  }

  function Next(s: State, e: Event): State
    requires |s.history| > 0
  {
    var x := Last(s.history);
    match e
    case Tick(t) => s.(history := s.history + [Instant(t, x.disk)])
    case Write(p, f) => s.(history := s.history + [Instant(x.time, x.disk[p := f])])
    case Delete(p) => s.(history := s.history + [Instant(x.time, x.disk - {p})])
    case SetAge(a) => s.(maxAge := a)
    case Call(tid, q, p) => s.(threads := s.threads[tid := Looking(q, p, x.time)])
    case Act(tid) => if tid in s.threads then Advance(s, tid) else s
  }

  /**
   A thread goes on to ask the disk exactly when, at its lookup, the path has no entry or one that is at least the
   maximum age old; otherwise it is finished, with that entry, and nothing has changed.
   */
  lemma StatsExactlyWhenDue(s: State, tid: nat)
    requires |s.history| > 0 && tid in s.threads && s.threads[tid].Looking?
    ensures var t, u := s.threads[tid], Advance(s, tid);
            var due := t.path !in s.cache || t.now >= s.cache[t.path].checkedTime + s.maxAge;
            && u.cache == s.cache && u.history == s.history && u.threads.Keys == s.threads.Keys
            && u.threads[tid]
               == if due then Stating(t.q, t.path, t.now)
                  else Done(t.q, t.path, t.now, s.maxAge, Answer(t.q, s.cache[t.path]))
  {
  }

  /** A write gives the file a modification time that it never had before. */
  ghost predicate FreshWrite(h: History, path: Path, file: File) {
    file.mtime != 0 && forall k :: 0 <= k < |h| ==> !HasVersion(h[k], path, file.mtime)
  }

  /** A write that leaves the file just as it is. */
  predicate SameWrite(h: History, path: Path, file: File)
    requires |h| > 0
  {
    path in Last(h).disk && Last(h).disk[path] == file
  }

  ghost predicate Allowed(s: State, e: Event)
    requires |s.history| > 0
  {
    match e
    case Tick(t) => Last(s.history).time <= t
    case Write(p, f) => FreshWrite(s.history, p, f) || SameWrite(s.history, p, f)
    case Call(tid, _, _) => tid !in s.threads || s.threads[tid].Done?
    case _ => true
  }

  function Start(time: Time, disk: map<Path, File>, maxAge: int): State {
    State([Instant(time, disk)], map[], maxAge, map[])
  }

  function Run(s: State, events: seq<Event>): (r: State)
    requires |s.history| > 0
    ensures |r.history| > 0
    decreases |events|
  {
    if events == [] then s else Run(Next(s, events[0]), events[1..])
  }

  ghost predicate AllowedRun(s: State, events: seq<Event>)
    requires |s.history| > 0
    decreases |events|
  {
    events == [] || (Allowed(s, events[0]) && AllowedRun(Next(s, events[0]), events[1..]))
  }

  // ---------------------------------------------------------------- the staleness bound

  /** An instant the caller may be told about: not before the call, or younger than the maximum age. */
  predicate Recent(x: Instant, now: Time, maxAge: int) {
    now <= x.time || now - x.time < maxAge
  }

  predicate Reports(x: Instant, path: Path, outcome: Outcome) {
    match outcome
    case Content(c) => HasContent(x, path, c)
    case Modified(m) => if m == 0 then path !in x.disk else HasVersion(x, path, m)
    case OpenFailed => path !in x.disk
  }

  /** The outcome was true of the disk at some recent instant. */
  ghost predicate Justified(h: History, path: Path, now: Time, maxAge: int, outcome: Outcome) {
    exists k :: 0 <= k < |h| && Recent(h[k], now, maxAge) && Reports(h[k], path, outcome)
  }

  ghost predicate EntryOk(h: History, path: Path, entry: FileContents) {
    if entry.modificationTime == 0 then SeenMissing(h, path, entry.checkedTime)
    else SeenVersion(h, path, entry.modificationTime, entry.checkedTime)
         && Backed(h, path, entry.modificationTime, entry.content, entry.checkedTime)
  }

  ghost predicate ThreadOk(h: History, t: Thread)
    requires |h| > 0
  {
    match t
    case Looking(_, _, now) => now <= Last(h).time
    case Stating(_, _, now) => now <= Last(h).time
    case Checking(_, p, now, m) =>
      now <= Last(h).time && if m == 0 then SeenMissing(h, p, now) else SeenVersion(h, p, m, now)
    case Opening(_, p, now, m) => now <= Last(h).time && m != 0 && SeenVersion(h, p, m, now)
    case Storing(_, p, now, m, c) => m != 0 && SeenVersion(h, p, m, now) && Backed(h, p, m, c, now)
    case Done(_, p, now, maxAge, outcome) => Justified(h, p, now, maxAge, outcome)
  }

  ghost predicate Inv(s: State) {
    && ValidHistory(s.history)
    && (forall p :: p in s.cache ==> EntryOk(s.history, p, s.cache[p]))
    && (forall tid :: tid in s.threads ==> ThreadOk(s.history, s.threads[tid]))
  }

  /** Everything recorded about the past stays true as the history grows. */
  lemma EntryKept(h: History, x: Instant, path: Path, entry: FileContents)
    requires EntryOk(h, path, entry)
    ensures EntryOk(h + [x], path, entry)
  {
    var g := h + [x];
    assert forall k :: 0 <= k < |h| ==> g[k] == h[k];
    if entry.modificationTime != 0 {
      var k :| Backs(h, k, path, entry.modificationTime, entry.content, entry.checkedTime);
      BacksKept(h, x, k, path, entry.modificationTime, entry.content, entry.checkedTime);
    }
  }

  lemma BacksKept(h: History, x: Instant, k: int, path: Path, mtime: int, content: string, since: Time)
    requires Backs(h, k, path, mtime, content, since)
    ensures Backs(h + [x], k, path, mtime, content, since)
  {
    var g := h + [x];
    assert forall i :: 0 <= i < |h| ==> g[i] == h[i];
    if !HasVersion(h[k], path, mtime) {
      var i :| 0 <= i < k && HasVersion(h[i], path, mtime);
      assert HasVersion(g[i], path, mtime);
    }
  }

  lemma ThreadKept(h: History, x: Instant, t: Thread)
    requires |h| > 0 && Last(h).time <= x.time && ThreadOk(h, t)
    ensures ThreadOk(h + [x], t)
  {
    var g := h + [x];
    assert forall k :: 0 <= k < |h| ==> g[k] == h[k];
    if t.Storing? {
      var k :| Backs(h, k, t.path, t.mtime, t.content, t.now);
      BacksKept(h, x, k, t.path, t.mtime, t.content, t.now);
    }
  }

  lemma DiskStep(s: State, x: Instant)
    requires Inv(s) && ValidHistory(s.history + [x])
    ensures Inv(s.(history := s.history + [x]))
  {
    var h := s.history;
    assert (h + [x])[|h|] == x && (h + [x])[|h| - 1] == Last(h);
    forall p | p in s.cache ensures EntryOk(h + [x], p, s.cache[p]) {
      EntryKept(h, x, p, s.cache[p]);
    }
    forall tid | tid in s.threads ensures ThreadOk(h + [x], s.threads[tid]) {
      ThreadKept(h, x, s.threads[tid]);
    }
  }

  /** A cached entry whose version is seen again at `i` may be dated to that sighting. */
  lemma Redated(h: History, path: Path, mtime: int, content: string, since: Time, now: Time)
    requires ValidHistory(h) && Backed(h, path, mtime, content, since) && SeenVersion(h, path, mtime, now)
    ensures Backed(h, path, mtime, content, now)
  {
    var k :| Backs(h, k, path, mtime, content, since);
    var i :| 0 <= i < |h| && HasVersion(h[i], path, mtime) && now <= h[i].time;
    if HasVersion(h[k], path, mtime) {
      assert if i <= k then OneVersion(h[i], h[k]) else OneVersion(h[k], h[i]);
      assert h[i].disk[path] == h[k].disk[path];
      assert Backs(h, i, path, mtime, content, now);
    } else {
      var v :| 0 <= v < k && HasVersion(h[v], path, mtime);
      assert k < i ==> NeverReturns(h[v], h[k], h[i]);
      assert i <= k;
      assert Backs(h, k, path, mtime, content, now);
    }
  }

  lemma AnswerJustified(h: History, q: Query, path: Path, now: Time, maxAge: int, entry: FileContents)
    requires EntryOk(h, path, entry)
    requires now <= entry.checkedTime || now - entry.checkedTime < maxAge
    ensures Justified(h, path, now, maxAge, Answer(q, entry))
  {
    if entry.modificationTime == 0 {
      var k :| 0 <= k < |h| && path !in h[k].disk && entry.checkedTime <= h[k].time;
      assert Recent(h[k], now, maxAge) && Reports(h[k], path, Answer(q, entry));
    } else if q == LastModified {
      var k :| 0 <= k < |h| && HasVersion(h[k], path, entry.modificationTime) && entry.checkedTime <= h[k].time;
      assert Recent(h[k], now, maxAge) && Reports(h[k], path, Answer(q, entry));
    } else {
      var k :| Backs(h, k, path, entry.modificationTime, entry.content, entry.checkedTime);
      assert Recent(h[k], now, maxAge) && Reports(h[k], path, Answer(q, entry));
    }
  }

  lemma FinishKeeps(s: State, tid: nat, entry: FileContents)
    requires Inv(s) && tid in s.threads
    requires EntryOk(s.history, s.threads[tid].path, entry)
    requires s.threads[tid].now <= entry.checkedTime || s.threads[tid].now - entry.checkedTime < s.maxAge
    ensures Inv(Finish(s, tid, entry))
  {
    var t := s.threads[tid];
    AnswerJustified(s.history, t.q, t.path, t.now, s.maxAge, entry);
  }

  lemma StatSees(h: History, path: Path, now: Time)
    requires ValidHistory(h) && now <= Last(h).time
    ensures path !in Last(h).disk ==> SeenMissing(h, path, now)
    ensures path in Last(h).disk ==> Last(h).disk[path].mtime != 0 && SeenVersion(h, path, Last(h).disk[path].mtime, now)
  {
    assert path in Last(h).disk ==> HasVersion(h[|h| - 1], path, Last(h).disk[path].mtime);
  }

  /** Content read after the version was seen backs that version, even when the file changed in between. */
  lemma ReadBacks(h: History, path: Path, now: Time, mtime: int)
    requires ValidHistory(h) && SeenVersion(h, path, mtime, now) && path in Last(h).disk
    ensures Backed(h, path, mtime, Last(h).disk[path].content, now)
  {
    var i :| 0 <= i < |h| && HasVersion(h[i], path, mtime) && now <= h[i].time;
    assert HasVersion(h[|h| - 1], path, mtime) || i < |h| - 1;
    assert Backs(h, |h| - 1, path, mtime, Last(h).disk[path].content, now);
  }

  lemma CheckStep(s: State, tid: nat)
    requires Inv(s) && tid in s.threads && s.threads[tid].Checking?
    ensures Inv(Advance(s, tid))
  {
    var Checking(q, p, now, mtime) := s.threads[tid];
    if mtime == 0 {
      var missing := FileContents(0, now, "");
      FinishKeeps(s.(cache := s.cache[p := missing]), tid, missing);
    } else if Unchanged(s.cache, p, mtime) {
      var entry := s.cache[p];
      Redated(s.history, p, mtime, entry.content, entry.checkedTime, now);
      var cache := Rechecked(s.cache, p, now);
      FinishKeeps(s.(cache := cache), tid, cache[p]);
    }
  }

  lemma ActStep(s: State, tid: nat)
    requires Inv(s) && tid in s.threads
    ensures Inv(Advance(s, tid))
  {
    match s.threads[tid]
    case Looking(q, p, now) =>
      var entry := FreshEntry(s.cache, s.maxAge, p, now);
      if entry.Some? {
        FinishKeeps(s, tid, entry.value);
      }
    case Stating(q, p, now) => StatSees(s.history, p, now);
    case Checking(q, p, now, mtime) => CheckStep(s, tid);
    case Opening(q, p, now, mtime) =>
      if p in Last(s.history).disk {
        ReadBacks(s.history, p, now, mtime);
      } else {
        OpenFails(s.history, p, now, s.maxAge);
      }
    case Storing(q, p, now, mtime, content) =>
      var contents := FileContents(mtime, now, content);
      FinishKeeps(s.(cache := s.cache[p := contents]), tid, contents);
    case _ =>
  }

  lemma OpenFails(h: History, path: Path, now: Time, maxAge: int)
    requires |h| > 0 && now <= Last(h).time && path !in Last(h).disk
    ensures Justified(h, path, now, maxAge, OpenFailed)
  {
    assert Recent(h[|h| - 1], now, maxAge) && Reports(h[|h| - 1], path, OpenFailed);
  }

  lemma WriteStep(h: History, path: Path, file: File)
    requires ValidHistory(h) && (FreshWrite(h, path, file) || SameWrite(h, path, file))
    ensures ValidHistory(h + [Instant(Last(h).time, Last(h).disk[path := file])])
  {
    var x := Last(h);
    var y := Instant(x.time, x.disk[path := file]);
    Extend(h, y);
  }

  /** A new instant keeps the history valid when every file in it is new or just as it was. */
  lemma Extend(h: History, y: Instant)
    requires ValidHistory(h) && Last(h).time <= y.time
    requires forall p :: p in y.disk ==>
                           FreshWrite(h, p, y.disk[p]) || (p in Last(h).disk && y.disk[p] == Last(h).disk[p])
    ensures ValidHistory(h + [y])
  {
    var g := h + [y];
    assert g[|h|] == y && forall k :: 0 <= k < |h| ==> g[k] == h[k];
    forall i, j | 0 <= i <= j < |g| ensures OneVersion(g[i], g[j]) {
      if j < |h| {
        assert OneVersion(h[i], h[j]);
      } else if i < |h| {
        NewVersions(h, y, i);
      }
    }
    forall i, j, k | 0 <= i < j < k < |g| ensures NeverReturns(g[i], g[j], g[k]) {
      if k < |h| {
        assert NeverReturns(h[i], h[j], h[k]);
      } else {
        NothingReturns(h, y, i, j);
      }
    }
  }

  lemma NewVersions(h: History, y: Instant, i: nat)
    requires ValidHistory(h) && i < |h|
    requires forall p :: p in y.disk ==>
                           FreshWrite(h, p, y.disk[p]) || (p in Last(h).disk && y.disk[p] == Last(h).disk[p])
    ensures OneVersion(h[i], y)
  {
    forall p | p in h[i].disk && HasVersion(y, p, h[i].disk[p].mtime) ensures h[i].disk[p] == y.disk[p] {
      assert HasVersion(h[i], p, y.disk[p].mtime);
      assert y.disk[p] == Last(h).disk[p];
      assert OneVersion(h[i], h[|h| - 1]) && HasVersion(h[|h| - 1], p, h[i].disk[p].mtime);
    }
  }

  lemma NothingReturns(h: History, y: Instant, i: nat, j: nat)
    requires ValidHistory(h) && i < j < |h|
    requires forall p :: p in y.disk ==>
                           FreshWrite(h, p, y.disk[p]) || (p in Last(h).disk && y.disk[p] == Last(h).disk[p])
    ensures NeverReturns(h[i], h[j], y)
  {
    assert j < |h| - 1 ==> NeverReturns(h[i], h[j], h[|h| - 1]);
    forall p, m | HasVersion(h[i], p, m) && HasVersion(y, p, m) ensures HasVersion(h[j], p, m) {
      assert y.disk[p] == Last(h).disk[p] && HasVersion(h[|h| - 1], p, m);
    }
  }

  lemma StepKeeps(s: State, e: Event)
    requires Inv(s) && Allowed(s, e)
    ensures Inv(Next(s, e))
  {
    var h, x := s.history, Last(s.history);
    match e
    case Tick(t) =>
      Extend(h, Instant(t, x.disk));
      DiskStep(s, Instant(t, x.disk));
    case Write(p, f) =>
      WriteStep(h, p, f);
      DiskStep(s, Instant(x.time, x.disk[p := f]));
    case Delete(p) =>
      Extend(h, Instant(x.time, x.disk - {p}));
      DiskStep(s, Instant(x.time, x.disk - {p}));
    case SetAge(a) =>
    case Call(tid, q, p) =>
    case Act(tid) =>
      if tid in s.threads {
        ActStep(s, tid);
      }
  }

  lemma {:induction false} RunKeeps(s: State, events: seq<Event>)
    requires Inv(s) && AllowedRun(s, events)
    ensures Inv(Run(s, events))
    decreases |events|
  {
    if events != [] {
      StepKeeps(s, events[0]);
      RunKeeps(Next(s, events[0]), events[1..]);
    }
  }

  /**
   Bounded staleness: whatever the interleaving of calls, writes, deletions and clock ticks, a finished
   call reports what the disk really held at an instant no older than the maximum check age in force.
   */
  lemma BoundedStaleness(time: Time, disk: map<Path, File>, maxAge: int, events: seq<Event>, tid: nat)
    requires forall p :: p in disk ==> disk[p].mtime != 0
    requires AllowedRun(Start(time, disk, maxAge), events)
    ensures var s := Run(Start(time, disk, maxAge), events);
            tid in s.threads && s.threads[tid].Done? ==>
              var t := s.threads[tid];
              Justified(s.history, t.path, t.now, t.maxAge, t.outcome)
  {
    RunKeeps(Start(time, disk, maxAge), events);
  }

  /** A call reports the disk's own file whenever that has not changed since the recheck window opened. */
  lemma UnchangedFileIsServed(time: Time, disk: map<Path, File>, maxAge: int, events: seq<Event>, tid: nat, file: File)
    requires forall p :: p in disk ==> disk[p].mtime != 0
    requires AllowedRun(Start(time, disk, maxAge), events)
    requires var s := Run(Start(time, disk, maxAge), events);
             && tid in s.threads && s.threads[tid].Done?
             && var t := s.threads[tid];
                forall k :: 0 <= k < |s.history| && Recent(s.history[k], t.now, t.maxAge) ==>
                  t.path in s.history[k].disk && s.history[k].disk[t.path] == file
    ensures var t := Run(Start(time, disk, maxAge), events).threads[tid];
            t.outcome == Content(file.content) || t.outcome == Modified(file.mtime)
  {
    var s := Run(Start(time, disk, maxAge), events);
    var t := s.threads[tid];
    BoundedStaleness(time, disk, maxAge, events, tid);
    var k :| 0 <= k < |s.history| && Recent(s.history[k], t.now, t.maxAge) && Reports(s.history[k], t.path, t.outcome);
  }

  lemma RunAfter(s: State, a: seq<Event>, b: seq<Event>)
    requires |s.history| > 0
    ensures Run(s, a + b) == Run(Run(s, a), b)
    decreases |a|
  {
    if a == [] {
      assert a + b == b;
    } else {
      assert (a + b)[1..] == a[1..] + b;
      RunAfter(Next(s, a[0]), a[1..], b);
    }
  }

  // ---------------------------------------------------------------- a modification time used twice

  /** The first steps of a get by thread 0, up to the answer of stat. */
  function Asking(path: Path): seq<Event> {
    [Call(0, GetContent, path), Act(0), Act(0)]
  }

  /** Its last steps when the file has to be read. */
  function Reading(): seq<Event> {
    [Act(0), Act(0), Act(0)]
  }

  /** A get of a file that is not in the cache. */
  function FirstGet(path: Path): seq<Event> {
    Asking(path) + Reading()
  }

  /** Later on, a get of one that is, under the modification time that stat answers. */
  function SecondGet(path: Path, later: Time): seq<Event> {
    [Tick(later)] + (Asking(path) + [Act(0)])
  }

  function OnlyThread(t: Thread): map<nat, Thread> {
    map[0 := t]
  }

  lemma Overwritten(threads: map<nat, Thread>, t: Thread)
    requires threads.Keys <= {0}
    ensures threads[0 := t] == OnlyThread(t)
  {
  }

  lemma RunStep(s: State, events: seq<Event>, e: Event, rest: seq<Event>, r: State)
    requires |s.history| > 0 && events == [e] + rest && |r.history| > 0 && r == Next(s, e)
    ensures Run(s, events) == Run(r, rest)
  {
    assert events[0] == e && events[1..] == rest;
  }

  /** Steps of thread 0, when it is the only one. */
  predicate Steps(s: State, e: Event, t: Thread) {
    |s.history| > 0 && Next(s, e) == s.(threads := OnlyThread(t))
  }

  lemma Called(s: State, path: Path)
    requires |s.history| > 0 && s.threads.Keys <= {0}
    ensures Steps(s, Call(0, GetContent, path), Looking(GetContent, path, Last(s.history).time))
  {
    Overwritten(s.threads, Looking(GetContent, path, Last(s.history).time));
  }

  lemma LookedUp(s: State, path: Path, now: Time)
    requires |s.history| > 0 && FreshEntry(s.cache, s.maxAge, path, now).None?
    requires s.threads == OnlyThread(Looking(GetContent, path, now))
    ensures Steps(s, Act(0), Stating(GetContent, path, now))
  {
    Overwritten(s.threads, Stating(GetContent, path, now));
  }

  lemma Asked(s: State, path: Path, now: Time)
    requires |s.history| > 0 && path in Last(s.history).disk && s.threads == OnlyThread(Stating(GetContent, path, now))
    ensures Steps(s, Act(0), Checking(GetContent, path, now, Last(s.history).disk[path].mtime))
  {
    Overwritten(s.threads, Checking(GetContent, path, now, Last(s.history).disk[path].mtime));
  }

  lemma AskingEnds(s: State, path: Path)
    requires |s.history| > 0 && s.threads.Keys <= {0} && path in Last(s.history).disk
    requires FreshEntry(s.cache, s.maxAge, path, Last(s.history).time).None?
    ensures var x := Last(s.history);
            Run(s, Asking(path))
            == s.(threads := OnlyThread(Checking(GetContent, path, x.time, x.disk[path].mtime)))
  {
    var x := Last(s.history);
    var s1 := s.(threads := OnlyThread(Looking(GetContent, path, x.time)));
    var s2 := s.(threads := OnlyThread(Stating(GetContent, path, x.time)));
    var s3 := s.(threads := OnlyThread(Checking(GetContent, path, x.time, x.disk[path].mtime)));
    Called(s, path);
    LookedUp(s1, path, x.time);
    Asked(s2, path, x.time);
    RunStep(s, Asking(path), Call(0, GetContent, path), [Act(0), Act(0)], s1);
    RunStep(s1, [Act(0), Act(0)], Act(0), [Act(0)], s2);
    RunStep(s2, [Act(0)], Act(0), [], s3);
  }

  lemma Checked(s: State, path: Path, now: Time, mtime: int)
    requires |s.history| > 0 && path !in s.cache && mtime != 0
    requires s.threads == OnlyThread(Checking(GetContent, path, now, mtime))
    ensures Steps(s, Act(0), Opening(GetContent, path, now, mtime))
  {
    Overwritten(s.threads, Opening(GetContent, path, now, mtime));
  }

  lemma Opened(s: State, path: Path, now: Time, mtime: int)
    requires |s.history| > 0 && path in Last(s.history).disk
    requires s.threads == OnlyThread(Opening(GetContent, path, now, mtime))
    ensures Steps(s, Act(0), Storing(GetContent, path, now, mtime, Last(s.history).disk[path].content))
  {
    Overwritten(s.threads, Storing(GetContent, path, now, mtime, Last(s.history).disk[path].content));
  }

  lemma Stored(s: State, path: Path, now: Time, mtime: int, content: string)
    requires |s.history| > 0 && mtime != 0 && s.threads == OnlyThread(Storing(GetContent, path, now, mtime, content))
    ensures Next(s, Act(0))
            == s.(cache := s.cache[path := FileContents(mtime, now, content)],
                  threads := OnlyThread(Done(GetContent, path, now, s.maxAge, Content(content))))
  {
    Overwritten(s.threads, Done(GetContent, path, now, s.maxAge, Content(content)));
  }

  lemma ReadingEnds(s: State, path: Path, now: Time)
    requires |s.history| > 0 && path in Last(s.history).disk && path !in s.cache
    requires Last(s.history).disk[path].mtime != 0
    requires s.threads == OnlyThread(Checking(GetContent, path, now, Last(s.history).disk[path].mtime))
    ensures var file := Last(s.history).disk[path];
            Run(s, Reading())
            == s.(cache := s.cache[path := FileContents(file.mtime, now, file.content)],
                  threads := OnlyThread(Done(GetContent, path, now, s.maxAge, Content(file.content))))
  {
    var file := Last(s.history).disk[path];
    var s1 := s.(threads := OnlyThread(Opening(GetContent, path, now, file.mtime)));
    var s2 := s.(threads := OnlyThread(Storing(GetContent, path, now, file.mtime, file.content)));
    Checked(s, path, now, file.mtime);
    Opened(s1, path, now, file.mtime);
    Stored(s2, path, now, file.mtime, file.content);
    RunStep(s, Reading(), Act(0), [Act(0), Act(0)], s1);
    RunStep(s1, [Act(0), Act(0)], Act(0), [Act(0)], s2);
    RunStep(s2, [Act(0)], Act(0), [], Next(s2, Act(0)));
  }

  lemma FirstGetEnds(s: State, path: Path)
    requires |s.history| > 0 && s.threads == map[] && path in Last(s.history).disk && path !in s.cache
    requires Last(s.history).disk[path].mtime != 0
    ensures var x := Last(s.history);
            var file := x.disk[path];
            Run(s, FirstGet(path))
            == s.(cache := s.cache[path := FileContents(file.mtime, x.time, file.content)],
                  threads := OnlyThread(Done(GetContent, path, x.time, s.maxAge, Content(file.content))))
  {
    RunAfter(s, Asking(path), Reading());
    AskingEnds(s, path);
    ReadingEnds(Run(s, Asking(path)), path, Last(s.history).time);
  }

  lemma SecondGetEnds(s: State, path: Path, later: Time)
    requires |s.history| > 0 && s.threads.Keys <= {0} && path in Last(s.history).disk
    requires path in s.cache && later - s.cache[path].checkedTime >= s.maxAge
    requires s.cache[path].modificationTime == Last(s.history).disk[path].mtime != 0
    ensures var u := Run(s, SecondGet(path, later));
            && u.history == s.history + [Instant(later, Last(s.history).disk)]
            && u.threads == OnlyThread(Done(GetContent, path, later, s.maxAge, Content(s.cache[path].content)))
  {
    var t := Next(s, Tick(later));
    RunStep(s, SecondGet(path, later), Tick(later), Asking(path) + [Act(0)], t);
    RunAfter(t, Asking(path), [Act(0)]);
    AskingEnds(t, path);
    var v := Run(t, Asking(path));
    RunStep(v, [Act(0)], Act(0), [], Next(v, Act(0)));
    CheckedAgain(v, path, later);
  }

  lemma CheckedAgain(s: State, path: Path, now: Time)
    requires |s.history| > 0 && path in s.cache && s.cache[path].modificationTime != 0
    requires s.threads == OnlyThread(Checking(GetContent, path, now, s.cache[path].modificationTime))
    ensures var u := Next(s, Act(0));
            && u.history == s.history
            && u.threads == OnlyThread(Done(GetContent, path, now, s.maxAge, Content(s.cache[path].content)))
  {
    Overwritten(s.threads, Done(GetContent, path, now, s.maxAge, Content(s.cache[path].content)));
  }

  /**
   The freshness of modification times is needed: they are kept in whole seconds, and any file that has been read,
   and is written again under the modification time it has, is served stale, however far past the maximum age.
   */
  lemma ReusedTimeServesStaleContent(time: Time, disk: map<Path, File>, maxAge: int, path: Path, content: string,
                                     later: Time)
    requires path in disk && disk[path].mtime != 0 && content != disk[path].content
    requires later > time && later - time >= maxAge
    ensures var file := File(disk[path].mtime, content);
            var w := Next(Run(Start(time, disk, maxAge), FirstGet(path)), Write(path, file));
            var s := Run(w, SecondGet(path, later));
            && Last(s.history) == Instant(later, disk[path := file])
            && s.threads == OnlyThread(Done(GetContent, path, later, maxAge, Content(disk[path].content)))
            && !Justified(s.history, path, later, maxAge, Content(disk[path].content))
  {
    FirstGetEnds(Start(time, disk, maxAge), path);
    var w := Next(Run(Start(time, disk, maxAge), FirstGet(path)), Write(path, File(disk[path].mtime, content)));
    SecondGetEnds(w, path, later);
  }

  // ---------------------------------------------------------------- one write, exactly

  /** Events that leave the disk alone. */
  predicate OffDisk(events: seq<Event>) {
    forall i :: 0 <= i < |events| ==> !events[i].Write? && !events[i].Delete?
  }

  /** A run in which the file is written once, and a call that reports what was on disk at no recent instant. */
  ghost predicate StaleRun(s: State, path: Path, file: File, before: seq<Event>, after: seq<Event>, tid: nat)
    requires |s.history| > 0
  {
    && OffDisk(before) && AllowedRun(s, before)
    && var w := Next(Run(s, before), Write(path, file));
       && OffDisk(after) && AllowedRun(w, after)
       && var u := Run(w, after);
          && tid in u.threads && u.threads[tid].Done?
          && var t := u.threads[tid];
             !Justified(u.history, t.path, t.now, t.maxAge, t.outcome)
  }

  predicate AlwaysHeld(h: History, disk: map<Path, File>) {
    forall k :: 0 <= k < |h| ==> h[k].disk == disk
  }

  lemma {:induction false} DiskStays(s: State, events: seq<Event>, disk: map<Path, File>)
    requires |s.history| > 0 && OffDisk(events) && AlwaysHeld(s.history, disk)
    ensures AlwaysHeld(Run(s, events).history, disk)
    decreases |events|
  {
    if events != [] {
      assert !events[0].Write? && !events[0].Delete?;
      assert forall i :: 0 <= i < |events[1..]| ==> events[1..][i] == events[i + 1];
      OffDiskStep(s, events[0], disk);
      DiskStays(Next(s, events[0]), events[1..], disk);
    }
  }

  lemma OffDiskStep(s: State, e: Event, disk: map<Path, File>)
    requires |s.history| > 0 && !e.Write? && !e.Delete? && AlwaysHeld(s.history, disk)
    ensures AlwaysHeld(Next(s, e).history, disk)
  {
  }

  /** A write that does not reuse a time for other content: no run with it is stale. */
  lemma OtherwiseNotStale(time: Time, disk: map<Path, File>, maxAge: int, path: Path, file: File,
                          before: seq<Event>, after: seq<Event>, tid: nat)
    requires (forall p :: p in disk ==> disk[p].mtime != 0) && path in disk && file.mtime != 0
    requires file.mtime != disk[path].mtime || file.content == disk[path].content
    ensures !StaleRun(Start(time, disk, maxAge), path, file, before, after, tid)
  {
    var s := Start(time, disk, maxAge);
    if OffDisk(before) && AllowedRun(s, before) {
      DiskStays(s, before, disk);
      RunKeeps(s, before);
      var v := Run(s, before);
      assert Last(v.history).disk == disk;
      assert FreshWrite(v.history, path, file) || SameWrite(v.history, path, file);
      var w := Next(v, Write(path, file));
      StepKeeps(v, Write(path, file));
      if AllowedRun(w, after) {
        RunKeeps(w, after);
      }
    }
  }

  lemma AllowedStep(s: State, events: seq<Event>, e: Event, rest: seq<Event>)
    requires |s.history| > 0 && events == [e] + rest && Allowed(s, e) && AllowedRun(Next(s, e), rest)
    ensures AllowedRun(s, events)
  {
    assert events[0] == e && events[1..] == rest;
  }

  /** Thread 0 may go on for ever. */
  lemma {:induction false} ActsAllowed(s: State, events: seq<Event>)
    requires |s.history| > 0 && forall i :: 0 <= i < |events| ==> events[i] == Act(0)
    ensures AllowedRun(s, events)
    decreases |events|
  {
    if events != [] {
      ActsAllowed(Next(s, events[0]), events[1..]);
    }
  }

  /** A call by thread 0 when it is free. */
  lemma CallAllowed(s: State, path: Path, acts: seq<Event>)
    requires |s.history| > 0 && (0 in s.threads ==> s.threads[0].Done?)
    requires forall i :: 0 <= i < |acts| ==> acts[i] == Act(0)
    ensures AllowedRun(s, [Call(0, GetContent, path)] + acts)
  {
    ActsAllowed(Next(s, Call(0, GetContent, path)), acts);
    AllowedStep(s, [Call(0, GetContent, path)] + acts, Call(0, GetContent, path), acts);
  }

  lemma GetsAllowed(time: Time, disk: map<Path, File>, maxAge: int, path: Path, file: File, later: Time)
    requires path in disk && disk[path].mtime != 0 && later > time
    ensures AllowedRun(Start(time, disk, maxAge), FirstGet(path))
    ensures var w := Next(Run(Start(time, disk, maxAge), FirstGet(path)), Write(path, file));
            AllowedRun(w, SecondGet(path, later))
  {
    var s := Start(time, disk, maxAge);
    var acts: seq<Event> := [Act(0), Act(0), Act(0), Act(0), Act(0)];
    assert FirstGet(path) == [Call(0, GetContent, path)] + acts;
    CallAllowed(s, path, acts);
    FirstGetEnds(s, path);
    var w := Next(Run(s, FirstGet(path)), Write(path, file));
    var t := Next(w, Tick(later));
    var more: seq<Event> := [Act(0), Act(0), Act(0)];
    assert Asking(path) + [Act(0)] == [Call(0, GetContent, path)] + more;
    CallAllowed(t, path, more);
    AllowedStep(w, SecondGet(path, later), Tick(later), Asking(path) + [Act(0)]);
  }

  /**
   A single write of a file, in any run of calls around it: some run reports stale content if and only if the write
   gives other content under the modification time the file has.
   */
  lemma StaleExactly(time: Time, disk: map<Path, File>, maxAge: int, path: Path, file: File)
    requires (forall p :: p in disk ==> disk[p].mtime != 0) && path in disk && file.mtime != 0
    ensures (exists before, after, tid :: StaleRun(Start(time, disk, maxAge), path, file, before, after, tid))
            <==> file.mtime == disk[path].mtime && file.content != disk[path].content
  {
    var s := Start(time, disk, maxAge);
    if file.mtime == disk[path].mtime && file.content != disk[path].content {
      var later := if maxAge > 1 then time + maxAge else time + 1;
      ReusedTimeServesStaleContent(time, disk, maxAge, path, file.content, later);
      GetsAllowed(time, disk, maxAge, path, file, later);
      assert StaleRun(s, path, file, FirstGet(path), SecondGet(path, later), 0);
    } else {
      forall before, after, tid ensures !StaleRun(s, path, file, before, after, tid) {
        OtherwiseNotStale(time, disk, maxAge, path, file, before, after, tid);
      }
    }
  }
}
