# Verification of SmartMet Spine

Spine is the library behind the SmartMet server: it accepts HTTP requests, routes them to plugins, logs them,
throttles them, and formats their results. This project models the parts of it that are hard to get right and
proves what they are for.

Text is a `string` with one character for each byte. Where the program works by changing objects, the model has a
class with the same fields, and every method is proved against a function on values. The concurrent parts are state
machines with one step for each lock region or atomic access; the methods of the classes are those same steps, and
the theorems are about every interleaving of them.

| file | what it models |
|---|---|
| `FileCache.dfy` | cached files against a disk that changes under the readers |
| `HandlerView.dfy` | the queue of logged requests, its flush marker, purging and pinned ranges |
| `Resolver.dfy`, `ResolverHistory.dfy`, `ResolverShutdown.dfy` | the background host name resolver, what it does with each call, and what its shutdown guarantees |
| `Throttle.dfy` | the adaptive limit on active requests |
| `Engines.dfy` | deletion of engines that hold each other |
| `ContentHandlerMap.dfy`, `Ordering.dfy` | routing by URI prefix, and the sorted sets it uses |
| `Text.dfy`, `Codecs.dfy`, `HeaderMaps.dfy` | spans and numbers, percent coding and base64, header and parameter maps |
| `UrlText.dfy`, `NameOrder.dfy` | the same, against alphabets, strtol, data URLs and what the order of names is for |
| `HTTPParsers.dfy`, `WrittenForm.dfy`, `Extension.dfy` | the request and response grammars, the form of the texts they accept, and what more text does to a finished parse |
| `Requests.dfy`, `RequestRoundTrip.dfy`, `FormEncoding.dfy`, `RequestFraming.dfy` | requests: printing, parsing what was printed and what clients send, framing |
| `Responses.dfy`, `ResponseRoundTrip.dfy`, `ResponseWire.dfy` | responses, with the local statuses carried through a 503 |
| `EntityTags.dfy` | conditional requests |
| `Table.dfy`, `PhpArrays.dfy`, `SerialFormatter.dfy` | the result table and its grouping printer |
| `SerialGroups.dfy`, `SerialLists.dfy`, `SerialValues.dfy` | what that printer groups, what it leaves in the lists it changes in place, and what its text says about the table |
| `Variables.dfy`, `VariableMeaning.dfy`, `VariableTermination.dfy` | expansion of variables in a configuration: what it means and when it ends |

Some promises hold only under a condition. These have a lemma with an input that breaks them and a theorem that says
when they hold:

- A file rewritten under the modification time it has is served stale, however far past the maximum age, whatever the
  file and the age (`FileCaching.ReusedTimeServesStaleContent`); `FileCaching.StaleExactly` says that a single write
  can do so exactly when it reuses that time for other content, and `FileCaching.BoundedStaleness` covers any number of
  writes that give fresh times.
- A request logged between the flush and the purge of the same pass leaves the flush marker dangling when the purge
  removes the marked entry (`RequestLog.PushDuringPassLosesMarker`), and one older than the limit of a running pass is
  lost (`RequestLog.OldPushIsLost`). `RequestLog.ConservationExactly` says for every run whatever that it conserves the
  log at every step if and only if no purge in it does either; `RequestLog.LogConservation` gives two rules of timing
  that are enough. Pins, order and exact purging need no such rules.
- A second shutdown returns at once while the first still waits for a job (`ResolverShutdown.EarlyReturnLeavesJob`);
  `ResolverShutdown.EarlyReturn` says exactly when all is done at that moment. A shutdown after a restart during the
  first one joins the new threads only, and leaves a job of the old ones
  (`ResolverShutdown.RestartDuringLookup`, `ResolverShutdown.OverlappingShutdownsLeaveJob`);
  `ResolverShutdown.ShutdownDrains` has the exact condition.
- Racing threads push the request limit over its configured maximum, by up to one less than their number
  (`Throttle.LimitUnderRaces`); `Throttle.OvershootExactly` says for which options and how many threads some run does.
- A proper prefix of a valid request can fail instead of being incomplete, exactly when the query holds a blank line,
  which the grammar lets through (`RequestFraming.BlankLineInQuery`, `RequestFraming.PrefixesAreIncomplete`).
- A response without any header line, or a 503 that itself carries a recognised X-SmartMet-Error, does not read back
  (`ResponseRoundTrips.ResponseRoundTrip`).
- Repeated grouping attributes are left in the attribute list when no row gets down to their level
  (`SerialLists.RepeatsStay`, and exactly when in `SerialLists.RestoredByRows`), and printing no rows can put a column
  index in that was not there (`SerialLists.ColumnGained`, and exactly when in `SerialLists.ColumnsRestored`).
- Expansion of variables does not end when a setting refers to another that refers to its own name
  (`VariableMeaning.OwnNameLoops`), and then the order of the settings decides (`VariableTermination.OrderDecides`).
  `VariableTermination.LoopEndsExactly` and `VariableTermination.ExpansionEndsExactly` say exactly when it ends.

Where code and comments disagree the model follows the code:

- `spine/HandlerView.cpp:528-532` says that after the flush phase the marker is at the most recent entry, so that a
  partial purge keeps it; a request pushed between the phases makes this false.
- `spine/HTTP.cpp:645` speaks of content that is not given, while the branch is taken when it is.
- `spine/HTTP.h:803-804` says that a failed If-Match needs a full response; the code answers 412 without one.

## Model

| member | source | states |
|---|---|---|
| FileCaching.FileCache.FindFresh | spine/FileCache.cpp:106-116 | the fast path returns the entry of the path exactly when the clock is less than the maximum age past its check, and changes nothing |
| FileCaching.FileCache.StoreMissing | spine/FileCache.cpp:56-62 | a missing file replaces the entry by a negative one |
| FileCaching.FileCache.Revalidate | spine/FileCache.cpp:64-73 | an entry with the same modification time keeps its content and gets the new check time; otherwise the cache is unchanged |
| FileCaching.FileCache.Store | spine/FileCache.cpp:84-90 | the contents read replace the entry of that path only |
| FileCaching.FileCache.Refresh | spine/FileCache.cpp:43-92 | the result and the new cache in each of the four cases: missing, unchanged, changed, unreadable |
| FileCaching.FileCache.Get | spine/FileCache.cpp:100-128 | less than the maximum age after the check of its path, get returns the entry, or throws, and changes nothing, whatever the disk would answer; otherwise what it returns and the cache it leaves for every answer |
| FileCaching.WindowIsServedFromCache | spine/FileCache.h:9-14 | for any calls in a row and any answers of the disk, those on a path less than the maximum age after its check all get its entry, and the entry stays |
| FileCaching.OneCheckPerWindow | spine/FileCache.h:9-14 | a call that asks the disk and does not fail to open the file decides the result of all calls on its path for the maximum age after it |
| FileCaching.StatsExactlyWhenDue | spine/FileCache.cpp:104-119 | among threads, one goes on to ask the disk if and only if at its lookup the path has no entry or one at least the maximum age old |
| FileCaching.Redated | spine/FileCache.cpp:64-73 | reading again that a modification time has not changed proves the cached content current at the new check |
| FileCaching.StepKeeps | spine/FileCache.cpp:43-161 | every atomic step of a thread, of the disk or of the clock keeps every cached triple backed by the disk's history |
| FileCaching.RunKeeps | spine/FileCache.cpp:43-161 | so does every interleaving |
| FileCaching.BoundedStaleness | spine/FileCache.h:9-14 | in every interleaving, what a thread reports (content, modification time, or missing) was true of the disk at an instant later than its clock reading minus the maximum age, or at that reading or after it |
| FileCaching.UnchangedFileIsServed | spine/FileCache.h:9-14 | in every interleaving, a finished call about a file that did not change over that time reports its own content or time |
| FileCaching.ReusedTimeServesStaleContent | spine/FileCache.cpp:68-72 | for every disk, file, other content, maximum age and clock past it: a write that reuses the file's modification time is followed by a call that reports the old content, which was on disk at no recent instant |
| FileCaching.StaleExactly | spine/FileCache.cpp:43-128 | over all runs of calls around a single write of a file: some call reports what was on disk at no recent instant if and only if the write gives other content under the file's own modification time |
| RequestLog.HandlerView.AppendLoggedRequest | spine/HandlerView.cpp:566-587 | a request is added at the end, only while logging is on; every append of the machine is this step |
| RequestLog.HandlerView.TakeBatch | spine/HandlerView.cpp:492-498 | the batch is exactly what follows the marker, and afterwards nothing does |
| RequestLog.HandlerView.PurgeOld | spine/HandlerView.cpp:511-545 | the old prefix goes unless a range is pinned; the marker is kept, reset or left dangling |
| RequestLog.HandlerView.CleanLog | spine/HandlerView.cpp:484-552 | an undisturbed pass writes all unflushed requests and leaves none |
| RequestLog.HandlerView.FlushLog | spine/HandlerView.cpp:601-630 | the unflushed requests are written, in order |
| RequestLog.HandlerView.SetLogging | spine/HandlerView.cpp:342-415 | switching off writes the rest and empties the queue, switching on resets the marker, no change does nothing |
| RequestLog.HandlerView.LockLogRange | spine/LogRange.cpp:18-22 | a new or copied range adds one reader |
| RequestLog.HandlerView.ReleaseLogRange | spine/LogRange.cpp:8-11 | a destroyed range takes one away |
| RequestLog.MarkerSurvivesExactly | spine/HandlerView.cpp:526-544 | after a purge the marker can be used exactly when its entry was not removed alone, without all others |
| RequestLog.PurgeKeepsUnflushedExactly | spine/HandlerView.cpp:519-544 | a purge keeps the unflushed requests exactly when it removes none of them |
| RequestLog.EndPassIsHarmless | spine/HandlerView.cpp:511-545 | under the two timing rules a purge neither loses the marker nor an unflushed request |
| RequestLog.StepKeeps | spine/HandlerView.cpp:342-647 | every step keeps the conservation law and the pins |
| RequestLog.RunKeeps | spine/HandlerView.cpp:342-647 | so does every interleaving |
| RequestLog.ConservationExactly | spine/HandlerView.cpp:484-552 | without any rules of timing, a run keeps the conservation law at every step if and only if no purge in it loses the marker or an entry not yet taken |
| RequestLog.AcceptedRun | spine/HandlerView.cpp:342-415 | in every possible run logging is on as the latest switch said, and what was pushed is what was appended while it was on |
| RequestLog.LogConservation | spine/HandlerView.cpp:31-38 | over every interleaving that obeys the two rules of timing, the batches taken, in order, followed by what is after the marker, are exactly the requests appended while the switches had logging on; while it is off the list is empty |
| RequestLog.RangesArePinned | spine/HandlerView.cpp:516-520 | over every interleaving, the reader count is the number of live ranges, nothing is purged while it is not zero, and what a range sees stays in the queue |
| RequestLog.RangeSeesItsEntries | spine/LogRange.cpp:8-22 | in every interleaving, a range handed out goes on seeing every entry at its place until it is dropped or logging is switched off |
| RequestLog.RecentRequestsStay | spine/HandlerView.cpp:484-545 | a request newer than the limit of every pass stays in the list, through flushes too, until logging is switched off |
| RequestLog.SortedPurge | spine/HandlerView.cpp:522-524 | in a queue sorted by end time the old prefix is all there is that is old |
| RequestLog.SortedRun | spine/HandlerView.cpp:567-586 | with a monotone clock the queue stays sorted |
| RequestLog.PurgeIsExact | spine/HandlerView.cpp:511-545 | with a monotone clock a purge leaves exactly the entries newer than the limit |
| RequestLog.PushDuringPassLosesMarker | spine/HandlerView.cpp:526-534 | a push between the two phases of a pass makes the purge leave the marker dangling |
| RequestLog.OldPushIsLost | spine/HandlerView.cpp:522-544 | a push older than the limit of a running pass is purged before it is written |
| Resolver.Resolver.StartWorkersLocked | spine/HostInfo.cpp:277-287 | workers are added up to the number asked for, and a stopped resolver runs again |
| Resolver.Resolver.ScheduleResolve | spine/HostInfo.cpp:219-232 | an address is queued and marked exactly when it is not in flight and there is room |
| Resolver.Resolver.Configure | spine/HostInfo.cpp:125-142 | the queue bound is set, at least one, and workers are started when enabled |
| Resolver.Resolver.BeginShutdown | spine/HostInfo.cpp:144-154 | a running resolver stops and hands over its workers, a stopped one does nothing |
| Resolver.Resolver.TakeJob | spine/HostInfo.cpp:295-300 | a worker takes the front of the queue |
| Resolver.Resolver.FinishJob | spine/HostInfo.cpp:308-311 | the address leaves the in-flight set |
| Resolver.StepKeeps | spine/HostInfo.cpp:125-313 | every step of every thread keeps the invariant of the resolver |
| Resolver.RunKeeps | spine/HostInfo.cpp:125-313 | so does every interleaving |
| Resolver.ResolverSafety | spine/HostInfo.cpp:219-313 | the in-flight set is the disjoint union of queued and held addresses, the queue has no repeats, no two workers hold one address, the in-flight size is within the largest setting so far and within the setting while that is not lowered, and cached names were really looked up |
| Resolver.PeakIsSetting | spine/HostInfo.cpp:133 | the largest setting so far is the setting while that is not lowered |
| ResolverHistory.InFlightIsBounded | spine/HostInfo.cpp:125-133 | in every interleaving the number in flight is at most the largest bound configured so far, each at least one, or the 1000 it starts with |
| ResolverHistory.Admission | spine/HostInfo.cpp:219-232 | an address is taken on, behind all others, if and only if it is not in flight and fewer than the latest configured bound are |
| ResolverHistory.ThreadsAsAskedFor | spine/HostInfo.cpp:140-141 | after configuration or scheduling the resolver runs with as many threads as asked for, at least one, or as there were, and gives none up |
| ResolverHistory.NothingStarts | spine/HostInfo.cpp:133-150 | a configuration that does not enable the resolver changes the bound alone, and a shutdown that finds nothing running changes nothing |
| ResolverHistory.FirstComeFirstServed | spine/HostInfo.cpp:228-298 | in every interleaving the addresses are taken in the order in which they were queued |
| ResolverHistory.AcceptedIsNamed | spine/HostInfo.cpp:289-313 | once all is done, and while the cache drops nothing, every accepted address has a name that a lookup of it gave |
| Resolver.JobStepDecreases | spine/HostInfo.cpp:295-311 | every worker step on a job lowers the remaining work by one |
| Resolver.JobsProgress | spine/HostInfo.cpp:289-313 | while work remains some worker can take such a step: no job is left without a live worker |
| ResolverShutdown.EarlyReturn | spine/HostInfo.cpp:144-150 | a shutdown that finds nothing running returns at once: all is drained at that moment if and only if the queue is empty and no thread another shutdown waits for is busy; always when no other shutdown is waiting |
| ResolverShutdown.EarlyReturnLeavesJob | spine/HostInfo.cpp:149-150 | a run in which a second shutdown returns while a job is held |
| ResolverShutdown.ShutdownDrains | spine/HostInfo.cpp:144-161 | from every reachable state where a shutdown finds the resolver running: every completion of it without scheduling beside it leaves the queue and the in-flight set empty, every accepted address looked up once and stored once, if and only if no thread that an earlier shutdown waits for is busy or could become so |
| ResolverShutdown.NobodyWaiting | spine/HostInfo.cpp:144-161 | which holds whenever no earlier shutdown is still waiting |
| ResolverShutdown.ShutdownCanFinish | spine/HostInfo.cpp:144-161 | every such shutdown has a completion |
| ResolverShutdown.StepTowardsExit | spine/HostInfo.cpp:289-313 | once the stop flag is set, each step of a thread lowers the work left, jobs and returns, by exactly one |
| ResolverShutdown.NotifiedMove | spine/HostInfo.cpp:152-155 | after the notification no thread the shutdown waits for is blocked |
| ResolverShutdown.JoinedKeepMoving | spine/HostInfo.cpp:289-313 | nor is one ever again, in any run without scheduling, and nothing adds to the work left |
| ResolverShutdown.JoinedCanMove | spine/HostInfo.cpp:157-161 | and until the shutdown can return, a thread it waits for can take a step nearer to the end |
| ResolverShutdown.RestartDuringLookup | spine/HostInfo.cpp:219-222 | a run that restarts the workers while a shut down worker is still looking up |
| ResolverShutdown.OverlappingShutdownsLeaveJob | spine/HostInfo.cpp:144-161 | from there a second shutdown returns while the job is still held |
| Throttle.ActiveRequests.Insert | spine/ActiveRequests.cpp:15-22 | a new key is handed out and becomes active |
| Throttle.ActiveRequests.Remove | spine/ActiveRequests.cpp:30-37 | that key is no longer active |
| Throttle.ActiveRequests.Size | spine/ActiveRequests.cpp:58-62 | the number of active keys |
| Throttle.Reactor.InsertActiveRequest | spine/Reactor.cpp:548-595 | high load resets the successes and drops the limit, otherwise the flag is cleared |
| Throttle.Reactor.RemoveActiveRequest | spine/Reactor.cpp:603-630 | a success counts, and every so many of them raise the limit up to its maximum |
| Throttle.Reactor.IsLoadHigh | spine/Reactor.cpp:486-489 | the flag |
| Throttle.NeverAboveMaximum | spine/Reactor.cpp:565-629 | with whole calls the limit stays between the smaller of start and restart limit and the maximum |
| Throttle.LimitInClosedForm | spine/Reactor.cpp:573-629 | with whole calls and fewer than 2^32 successes since the last reset, the limit is the base plus one for each full count of successes, cut off at the maximum |
| Throttle.LimitAndFlagByAccounting | spine/Reactor.cpp:573-629 | with whole calls, limit, counter and high-load flag are at any time what an account of resets and successes says: from an insertion that reaches the limit on the load is high, and the limit starts over from the restart limit |
| Throttle.StepKeeps | spine/Reactor.cpp:565-629 | every single atomic access keeps the bound that counts the threads about to raise the limit |
| Throttle.LimitUnderRaces | spine/Reactor.cpp:621-623 | with N racing threads the limit stays within the maximum plus N - 1 |
| Throttle.OvershootExactly | spine/Reactor.cpp:565-629 | some run of N threads from the start takes the limit over the maximum if and only if N > 1 and the start or the restart limit is below the maximum; some run then reaches the maximum plus N - 1 |
| Throttle.AloneInserts | spine/Reactor.cpp:548-595 | the accesses of an undisturbed insert add up to the whole call |
| Throttle.AloneRemoves | spine/Reactor.cpp:603-630 | the accesses of an undisturbed remove add up to the whole call |
| Engines.Reactor.DestroyPass | spine/Reactor.cpp:1408-1444 | one pass over the map erases what is unheld when its turn comes, and counts it |
| Engines.Reactor.DestroyEngines | spine/Reactor.cpp:1398-1459 | what is left for the final clear is what up to 20 passes leave, and the map ends empty |
| Engines.PassErasesHoldersFirst | spine/Reactor.cpp:1410-1444 | in one pass no engine is erased while an engine still there holds it |
| Engines.TeardownErasesHoldersFirst | spine/Reactor.cpp:1406-1456 | nor in all passes together |
| Engines.PassErasesUnheld | spine/Reactor.cpp:1414-1431 | a pass erases every engine that at its start is neither held nor referenced from outside |
| Engines.SurvivorEndsChain | spine/Reactor.cpp:1406-1444 | an engine that survives n passes is at the end of a chain of n holders, or of one that starts at an engine referenced from outside |
| Engines.ChainLengthBoundsPasses | spine/Reactor.cpp:1406-1444 | the map is empty after as many passes as the longest chain is long |
| Engines.ClearIsNoOp | spine/Reactor.cpp:1458 | with chains of at most 20 the final clear finds nothing |
| Engines.EarlyBreakMeansCycle | spine/Reactor.cpp:1446-1455 | a pass that erases nothing means engines that hold each other in a cycle |
| Engines.CycleSurvives | spine/Reactor.cpp:1414-1422 | a cycle survives any number of passes |
| Engines.KeptExactly | spine/Reactor.cpp:1406-1444 | an engine survives all passes if and only if it is referenced from outside, or on a cycle, or held by such an engine, directly or through others |
| Engines.KeptIsLeftToClear | spine/Reactor.cpp:1414-1458 | such an engine is never erased by the loop, however long it runs, and is among those left to the final clear |
| Engines.TwentyIsTheLimit | spine/Reactor.cpp:1406 | the bound is tight: a chain of 21 engines may be left unfinished, one of 20 is not |
| Engines.PassesEmptyExactlyWithoutCycles | spine/Reactor.cpp:1406-1456 | passes empty the map if and only if there is no cycle and no engine is referenced from outside |
| Routing.ContentHandlerMap.AddContentHandler | spine/ContentHandlerMap.cpp:204-277 | the new registry, and that an addition succeeds exactly for a handler, before shutdown, under a new URI |
| Routing.ContentHandlerMap.RemoveContentHandlers | spine/ContentHandlerMap.cpp:279-314 | handlers and prefixes of the plugin go, and their number is returned |
| Routing.ContentHandlerMap.GetHandlerView | spine/ContentHandlerMap.cpp:354-396 | the first prefix in order that ends at a segment boundary, else the URI itself, else no match |
| Routing.ContentHandlerMap.HasHandlerView | spine/ContentHandlerMap.cpp:399-415 | true exactly when that lookup finds a handler |
| Routing.RunKeeps | spine/ContentHandlerMap.cpp:257-270 | after any additions, rejected ones too, and removals, every prefix has a handler |
| Routing.FirstIsShortest | spine/ContentHandlerMap.cpp:362-371 | the first serving prefix in the order of std::set is a shortest one |
| Routing.RoutingIsShortestPrefix | spine/ContentHandlerMap.cpp:354-396 | in every reachable registry the internal error is never raised, the shortest serving prefix wins, and without one the exact URI or no match |
| Routing.RegistryIsHistory | spine/ContentHandlerMap.cpp:204-314 | after any calls each URI has the handler and the prefix that the calls about it alone give it: the first handler added stays until its plugin goes, accepted additions register handler and prefix, removal takes both |
| Routing.RoutingByHistory | spine/ContentHandlerMap.cpp:204-396 | from the calls alone: the shortest URI added as a prefix that is the resource or a path above it decides, and has a handler; without one the handler of the resource itself, or no match |
| Routing.RejectedAdditionKeepsHandlers | spine/ContentHandlerMap.cpp:257-270 | a rejected duplicate leaves the handlers alone but does register its prefix |
| Codecs.Base64Decode | spine/HTTP.cpp:1892-1922 | the loop over whole groups and the padded end compute the group-wise decoding |
| Codecs.Base64RoundTrip | spine/HTTP.cpp:1884-1922 | decoding inverts both encodings of sections 4 and 5 of RFC 4648, padded or not, for all bytes |
| Codecs.UrlEncode | spine/HTTP.cpp:2034-2061 | the loop computes the encoding character by character |
| Codecs.UrlDecode | spine/HTTP.cpp:1927-2010 | the loop over percent signs, data URLs included, computes the decoding; failed conversions pass through |
| Codecs.PercentRoundTrip | spine/HTTP.cpp:1973-2061 | decoding percent signs undoes the encoding of all bytes |
| Codecs.UrlRoundTrip | spine/HTTP.cpp:1927-2061 | urldecode undoes urlencode for all bytes, section 2.1 of RFC 3986 |
| UrlText.IndexIsAlphabet | spine/HTTP.cpp:1884-1891 | the table decodes three alphabets, and what is in none of them counts as 0 |
| UrlText.EncodedByteByByte | spine/HTTP.cpp:2019-2061 | the unreserved characters of section 2.3 of RFC 3986 are kept, and every other byte becomes a percent sign and two capital digits |
| UrlText.PairIsStrtol | spine/HTTP.cpp:1987-1995 | two characters convert exactly as strtol in base 16 takes them, digits of either case, white space, signs and zero bytes included |
| UrlText.DecodedByPercents | spine/HTTP.cpp:1973-2003 | any text, malformed ones too, decodes percent sign by percent sign |
| UrlText.DataUrl | spine/HTTP.cpp:1934-1971 | a data URL decodes its data as base64, as percent coding, or throws, as its media type says |
| UrlText.DataUrlWithoutComma | spine/HTTP.cpp:1934-1950 | without a comma everything after the scheme is data |
| UrlText.DataRoundTrip | spine/HTTP.cpp:1927-2010 | data encoded into a data URL, either way, comes back |
| UrlText.ClassesExactly | spine/HTTPParsers.h:84-156 | the characters the grammars repeat over, as rows of ASCII and short lists |
| Text.ContainsExactly | spine/HTTP.cpp:1535-1541 | a text is found exactly when the whole is something before it, itself, and something after it |
| HeaderMaps.CaseInsensitiveComp | spine/HTTP.h:57-69 | the comparison loop is the lexicographic order of lower-cased signed characters |
| HeaderMaps.StrictWeakOrder | spine/HTTP.h:47-74 | it is a strict weak order, and its equivalence is equality up to ASCII case |
| HeaderMaps.InsertSortedAll | spine/HTTP.h:72 | a header map built from sorted entries is those entries |
| HeaderMaps.SetThenLookup | spine/HTTP.cpp:511-531 | a header set is found under every spelling of its name, and no other header changes |
| HeaderMaps.ExceptInsertAll | spine/HTTP.h:72 | leaving out one name commutes with building the map |
| NameOrder.SameNameExactly | spine/HTTP.h:47-74 | names are the same exactly when they agree up to the case of the 26 letters |
| NameOrder.LessExactly | spine/HTTP.h:57-69 | the first letters that differ decide, bytes of the upper half first, and a name comes before a longer one |
| NameOrder.FirstHeaderWins | spine/HTTP.cpp:1454-1458 | a header sent several times has the first of its values |
| NameOrder.SortedByNameIsStable | spine/HTTP.cpp:1450 | the parameters of each name keep their order, and none is added or lost |
| Extension.RequestExtend | spine/HTTPParsers.h:84-108 | a request followed by more text parses the same, with the text added to its body |
| WrittenForm.RequestIsWritten | spine/HTTPParsers.h:84-108 | a request that is parsed was written in the one form of the grammar, and its parts are those read |
| WrittenForm.ResponseIsWritten | spine/HTTPParsers.h:146-160 | so was a response |
| Requests.Request.SetHeader | spine/HTTP.cpp:511-531 | the header map afterwards, and that the value is found |
| Requests.Request.RemoveHeader | spine/HTTP.cpp:533-543 | the header map afterwards, and that the name is not found |
| Requests.Request.AddParameter | spine/HTTP.cpp:925-935 | the parameter goes after all of an equal name |
| Requests.Request.ToString | spine/HTTP.cpp:583-730 | the loops print the message, and throw for a GET with content and no parameters |
| Requests.Request.GetURI | spine/HTTP.cpp:794-824 | the loop with its trailing ampersand taken away prints the URI with encoded names |
| Requests.ParseRequest | spine/HTTP.cpp:1422-1550 | status and request are those of the parse on values, and a request comes with COMPLETE only |
| FormEncoding.SpelledIsDecoded | spine/HTTP.cpp:93-100 | whatever way a value is written, with percent signs and digits of either case, plus signs for spaces and line breaks, decoding finds it |
| FormEncoding.SpelledQuery | spine/HTTP.cpp:1439-1450 | however a client writes the names and values of a query, the parsed request has the names and values it meant, with plus signs as spaces in values |
| FormEncoding.SpelledForm | spine/HTTP.cpp:1502-1511 | however a client writes the fields of a posted form, the parsed request has the values it meant |
| FormEncoding.FormExactly | spine/HTTP.cpp:1502-1509 | a body is taken for a form if and only if the first Content-Type header is that of forms, in any case, alone or before a semicolon |
| FormEncoding.EmptyNamesAreDropped | spine/HTTP.cpp:1444-1446 | pairs with an empty name are dropped, and no others |
| FormEncoding.StatusExactly | spine/HTTP.cpp:1459-1494 | a request that follows the grammar fails for an unknown method, and otherwise is complete, incomplete or failed as the first declared length says |
| FormEncoding.UnparsedExactly | spine/HTTP.cpp:1532-1541 | a request that cannot be parsed is incomplete until an empty line has arrived, and has failed from then on |
| RequestRoundTrips.ParamsExact | spine/HTTPParsers.h:94-100 | the grammar reads printed parameters back, one pair for each |
| RequestRoundTrips.CollectedExact | spine/HTTP.cpp:1439-1449 | decoding the pairs rebuilds the parameter multimap with its order |
| RequestRoundTrips.HeadersExact | spine/HTTPParsers.h:104 | the grammar reads printed header lines back |
| RequestRoundTrips.UriRoundTrip | spine/HTTP.cpp:794-824 | a request line with the URI of getURI brings back every byte of every name and value, for any method |
| RequestRoundTrips.RequestRoundTrip | spine/HTTP.cpp:583-730 | parsing the print of a request is COMPLETE and returns the same method, resource, version, headers, parameters and content |
| RequestRoundTrips.RoundTripExactly | spine/HTTP.cpp:583-730 | for any request but a form: printing throws exactly for a GET with content and no parameters, else what is printed is read back, which is the whole request if and only if nothing of it is left out |
| RequestRoundTrips.FormRoundTrip | spine/HTTP.cpp:629-667 | a posted form comes back with all its fields, and its printed form as content |
| RequestFraming.RequestShrink | spine/HTTPParsers.h:84-108 | a text that parses still does when any end of its body is cut off |
| RequestFraming.CutHead | spine/HTTPParsers.h:108 | a text cut inside its head does not parse |
| RequestFraming.BlankInQuery | spine/HTTPParsers.h:92-108 | a blank line before the end of the head can only be in the query |
| RequestFraming.WholeIsComplete | spine/HTTP.cpp:1465-1494 | a request with its declared length is COMPLETE, and FAILED with anything after it |
| RequestFraming.PrefixStatus | spine/HTTP.cpp:1486-1541 | the status of every proper prefix, cut in the body or in the head |
| RequestFraming.PrefixesAreIncomplete | spine/HTTP.cpp:1434-1542 | all proper prefixes are INCOMPLETE if and only if the query holds no blank line |
| RequestFraming.BlankLineInQuery | spine/HTTPParsers.h:94-96 | a complete request with a blank line in a parameter value, which fails while it arrives |
| Responses.StatusOfDecimal | spine/HTTP.cpp:425-476 | the chain of comparisons recognises exactly the known codes |
| Responses.Response.SetStatus | spine/HTTP.cpp:1249-1261 | a known number sets status and standard phrase, another throws and changes nothing |
| Responses.Response.HeadersToString | spine/HTTP.cpp:1319-1356 | the printed head, the extra header of a local status first, and that an unset status throws |
| Responses.ParseResponseFull | spine/HTTP.cpp:1621-1699 | status and response are those of the parse on values |
| ResponseRoundTrips.StartExact | spine/HTTPParsers.h:152-156 | the status line is read back, and the line ends after it are all taken |
| ResponseRoundTrips.MapBack | spine/HTTP.cpp:1333-1347 | the header map comes back; for a local status, apart from the header that carries it |
| ResponseRoundTrips.ResponseRoundTrip | spine/HTTP.cpp:1621-1679 | a printed response reads back with status (1234 and 3210 too), reason, headers and body if and only if some header line is printed and a 503 does not itself ask for a local status |
| ResponseRoundTrips.ParsedIsPrintable | spine/HTTP.cpp:1621-1679 | every parsed response meets the hypotheses of the round trip |
| ResponseRoundTrips.ParsedAgain | spine/HTTP.cpp:1319-1679 | a parsed response survives printing and parsing again if and only if it has a header line to print |
| ResponseWire.CodesExactly | spine/HTTP.h:82-109 | the codes that are known |
| ResponseWire.ErrorHeaderExactly | spine/HTTP.cpp:38-50 | the values of the error header that name a local status, by number or word, in any case |
| ResponseWire.StatusExactly | spine/HTTP.cpp:1636-1679 | the status of any response that can be parsed: its code, the local status named by the first error header of a 503, and a bad gateway or an exception for a code that is not known |
| ResponseWire.UnparsedExactly | spine/HTTP.cpp:1680-1692 | so is a response |
| ResponseWire.SentExactly | spine/HTTP.cpp:1319-1356 | the text that is sent for a status of the standards, for each local one, and that none is for an unset one |
| ResponseWire.SuccessPhrases | spine/HTTP.cpp:137-140 | phrases of successes |
| ResponseWire.RedirectionPhrases | spine/HTTP.cpp:141-144 | of redirections |
| ResponseWire.ClientErrorPhrases | spine/HTTP.cpp:145-148 | of client errors |
| ResponseWire.MoreClientErrorPhrases | spine/HTTP.cpp:153-156 | of more of them |
| ResponseWire.ServerErrorPhrases | spine/HTTP.cpp:149-152 | of server errors |
| ResponseWire.LocalPhrases | spine/HTTP.cpp:158-159 | and of the local statuses |
| EntityTags.SplitTagList | spine/HTTP.cpp:2074-2098 | the loop splits at the commas outside quotes |
| EntityTags.ETagFilter.constructor | spine/HTTP.cpp:2123-2164 | what the filter keeps of both headers |
| EntityTags.ETagFilter.Evaluate | spine/HTTP.cpp:2166-2225 | the two loops decide as RFC 7232 does for the conditions kept |
| EntityTags.ConditionalResponseStatus | spine/HTTP.cpp:2239-2258 | a status exactly when no full response is needed and the frontend is not probing |
| EntityTags.ParseTag | spine/HTTP.cpp:2103-2120 | however an entity-tag is written, weak marks of either case, white space after them, quotes or none, it is read as it was meant |
| EntityTags.SplitList | spine/HTTP.cpp:2074-2098 | a printed list splits into its elements, commas inside tags notwithstanding |
| EntityTags.ConditionComesBack | spine/HTTP.cpp:2123-2164 | from any printed list, with white space, empty elements and stars, exactly the condition is recovered |
| EntityTags.DecisionIs | spine/HTTP.cpp:2166-2225 | 412 when If-Match names no strong tag equal to a strong current one; else 304 when If-None-Match is a star or names the current tag, weak or not; else 200 |
| EntityTags.ConditionalRequests | spine/HTTP.cpp:2123-2258 | for all printed preconditions, 412, 304 or full response as sections 2.3.2, 3.1 and 3.2 of RFC 7232 say, If-Match first, and always a full response for a frontend that probes |
| Tables.Table.Set | spine/Table.cpp:40-70 | the cell is written and the bounds stay tight; writing after the first read throws |
| Tables.Table.Get | spine/Table.cpp:78-121 | the last value written to the cell, empty when none was, and that an index out of range throws |
| Tables.Table.Columns | spine/Table.cpp:197-217 | all columns between the lowest and the highest written |
| Tables.Table.Rows | spine/Table.cpp:225-251 | the rows of the page |
| Tables.FilledArray | spine/Table.cpp:157-189 | the array holds the last write of every cell at its position |
| Tables.WriteThenRead | spine/Table.cpp:40-121 | a write is seen by reads of its cell and by no other |
| Tables.LastWriteIsStored | spine/Table.cpp:157-189 | the value of a cell is the one written last, or empty when none was |
| Tables.ReadByWrites | spine/Table.cpp:40-121 | after any writes, reading gives the last value written to the cell and throws exactly outside the columns and rows spanned by the writes |
| Tables.IndicesByWrites | spine/Table.cpp:197-251 | columns and rows are those spanned by the writes, in order |
| Tables.PagesFollow | spine/Table.cpp:225-251 | pages follow one another without gap or overlap, each as full as it can be |
| PhpArrays.RoundTrip | spine/SerialFormatter.cpp:153-278 | a decoder of PHP arrays takes back every encoded node and stops where it ends, so every count and length is right |
| SerialFormatters.FindName | spine/SerialFormatter.cpp:30-51 | the first column with the name, or an exception |
| SerialFormatters.FormatPlain | spine/SerialFormatter.cpp:79-144 | without grouping the text is the encoding of the numbered rows |
| SerialFormatters.FormatLeaf | spine/SerialFormatter.cpp:172-217 | a leaf is its row, or its numbered rows |
| SerialFormatters.FormatAttributes | spine/SerialFormatter.cpp:153-278 | the text is the encoding of the grouping tree, and what becomes of the columns and attributes in place |
| SerialFormatters.Format | spine/SerialFormatter.cpp:286-312 | the whole formatter, from the table to the text |
| SerialGroups.RemainingMembers | spine/SerialFormatter.cpp:237 | the columns of a leaf are those given but for the grouping columns |
| SerialGroups.TreeSorted | spine/SerialFormatter.cpp:224-263 | at every level the groups are sorted by their values and none is printed twice |
| SerialGroups.TreeIsGroupBy | spine/SerialFormatter.cpp:219-270 | a path of values leads to a leaf exactly when none is empty and some row has them; the leaf has all those rows without the grouping columns; and the groups are sorted, none printed twice |
| SerialGroups.LeafOfPosition | spine/SerialFormatter.cpp:219-270 | whatever stands at the full depth of the tree is such a leaf |
| SerialGroups.RowsOfLeaves | spine/SerialFormatter.cpp:219-270 | a path leads to a leaf with a given row exactly when it is made of the row's own values, none of them empty |
| SerialGroups.ExactlyOneLeaf | spine/SerialFormatter.cpp:219-270 | every row with all its grouping values is in the leaf at exactly one position of the tree, every other in none |
| SerialFormatters.TreeDedup | spine/SerialFormatter.cpp:237-240 | repeated attributes do not change the tree |
| SerialFormatters.GroupedTextDecodes | spine/SerialFormatter.cpp:153-278 | a decoder takes all of the grouped text and finds the tree |
| SerialFormatters.FormattedTextDecodes | spine/SerialFormatter.cpp:286-312 | and so it does with the text of any table |
| SerialValues.PlainTextShowsTable | spine/SerialFormatter.cpp:79-144 | the decoded text has every row of the page under its number, and in it under the name of each column the value last written to the cell, or the missing text when that is empty or there is none |
| SerialValues.GroupedTextShowsTable | spine/SerialFormatter.cpp:153-312 | so has every leaf of a grouped text, for exactly the rows that hold the values on the way to it and all columns but the grouping ones |
| SerialValues.SameTextSameTable | spine/SerialFormatter.cpp:79-144 | tables whose texts agree hold the same values on the page, when the missing text is no cell's value |
| SerialFormatters.EraseThenInsert | spine/SerialFormatter.cpp:237-270 | a column taken out and put back is where it was |
| SerialLists.AttributesRestored | spine/SerialFormatter.cpp:269-270 | the attributes come back as the distinct ones if and only if the repeated ones belong to levels entered; always without repeats, or when a row has all its grouping values |
| SerialLists.LevelsAreLongestLead | spine/SerialFormatter.cpp:222-270 | the levels entered are one more than the longest run of leading non-empty grouping values in a row, cut off at the number of distinct attributes |
| SerialLists.RestoredByRows | spine/SerialFormatter.cpp:269-270 | for a page with rows, the attributes come back as the distinct ones if and only if some row has values for all of them before the last repeated one |
| SerialLists.RepeatsStay | spine/SerialFormatter.cpp:222-270 | repeats that stay behind |
| SerialLists.ColumnsRestored | spine/SerialFormatter.cpp:237-269 | the columns come back if and only if there are rows, or no attribute, or the column of the first attribute was there |
| SerialLists.ColumnGained | spine/SerialFormatter.cpp:237-269 | an empty table gains a column |
| SerialLists.AttributesComeBack | spine/SerialFormatter.cpp:57-70 | attributes joined by commas come back, and a single empty one is none |
| SerialLists.GroupingThrows | spine/SerialFormatter.cpp:219-232 | grouping rows throws if and only if some row has values down to an attribute that is not a name or whose column is not in the table |
| Variables.Configuration.RewriteOnce | spine/ConfigTools.cpp:216-262 | one rewriting of the first reference, or the error |
| Variables.Configuration.ExpandSetting | spine/ConfigTools.cpp:209-268 | the loop, when it ends, replaces the setting by its result, or throws and leaves it |
| Variables.Configuration.ExpandVariables | spine/ConfigTools.cpp:270-287 | all settings, one after the other, in place |
| Variables.RewriteExactly | spine/ConfigTools.cpp:216-262 | one pass on any text at all: done without a reference; an error when the first one does not end, or its name leads to no string setting and not to the environment; otherwise that reference is replaced and nothing else |
| Variables.RunEnds | spine/ConfigTools.cpp:215-265 | an error ends the loop with an exception, and a loop that ends otherwise leaves no reference |
| VariableMeaning.RewriteMeaning | spine/ConfigTools.cpp:219-256 | one rewriting keeps the meaning of the text and lowers its weight |
| VariableMeaning.LoopEnds | spine/ConfigTools.cpp:215-268 | the loop ends, and with full substitution |
| VariableMeaning.ExpansionInOrder | spine/ConfigTools.cpp:205-287 | settings rewritten in place in any order, from any partly rewritten configuration, end with their full value |
| VariableMeaning.ExpansionIsSubstitution | spine/ConfigTools.cpp:205-287 | expansion terminates, leaves no reference, and gives every setting the value substituted from the original configuration |
| VariableMeaning.TreeOrderIsAnyOrder | spine/ConfigTools.cpp:270-287 | tree order and any other order give the same configuration |
| VariableMeaning.OwnNameIsEnvironment | spine/ConfigTools.cpp:223-225 | a setting that names itself meets all these hypotheses, and ends after one rewriting with the environment's value |
| VariableMeaning.OwnNameLoops | spine/ConfigTools.cpp:224-231 | a reference to a setting that refers to its own name is rewritten to itself for ever |
| VariableTermination.LoopEndsExactly | spine/ConfigTools.cpp:215-265 | the loop on a text ends if and only if no cycle of references is reachable from it, where the setting's own name stands for the environment; what it ends with has no reference left |
| VariableTermination.ExpansionEndsExactly | spine/ConfigTools.cpp:205-287 | expansion of all settings in place ends if and only if each setting, at its turn, reaches no cycle among those not yet expanded; it then does not throw |
| VariableTermination.OrderDecides | spine/ConfigTools.cpp:205-287 | two settings that expand in one order and not in the other |

## Left out

- FileCaching.BoundedStaleness: reads of a file are atomic, and every write gives a fresh, non-zero modification time or leaves the file as it is; a write during a read is not modelled, and runs with several writes that reuse times have no exact condition here.
- RequestLog.LogConservation: the run obeys two rules of timing, that a request pushed during a pass is newer than its limit and that no request is pushed between the phases of a pass that purges the marked entry; `RequestLog.ConservationExactly` has the exact condition without them.
- RequestLog.RangesArePinned: switching logging off empties the queue whatever the pins, so a range cut in this way is excepted.
- ResolverShutdown.ShutdownDrains: scheduling or configuring during the shutdown is not covered.
- Throttle.OvershootExactly: the maximum plus N - 1 is below 2^32.
- Throttle.LimitInClosedForm: holds below 2^32 successes since the last reset; the counter wraps in the model, too.
- FormEncoding.SpelledQuery: a value that starts with the text "data:" is decoded as a data URL, which `UrlText.DataUrl` covers.
- Requests.ParseRequest: Fmi::stoul, which reads the declared length, is not part of this model; any function from text to an optional number stands for it.
- Responses.ParseResponseFull: whether Fmi::Exception is a std::runtime_error is not part of this model; the parameter `caught` stands for it, and every theorem holds for both values.
- SerialFormatters.FormatAttributes: is given attributes or at least one row, as the formatter sees to; for no attributes and no rows the program prints nothing.
- SerialFormatters.Format: every column has a name among the names that are printed, as the table's header asks of its user; the program reads past the names otherwise.
- Variables.Configuration.ExpandVariables: settings are a list in tree order with their leaf names, and path lookup is a parameter; the tree and the path syntax of libconfig are not modelled. Termination is asked of the caller; exactly when it holds is proved in `VariableTermination`.
- Tables.Table.Rows: indices are unbounded numbers; the loop of the program does not end for the largest index of its type.
- VariableMeaning.ExpansionIsSubstitution: a literal '$' in a setting or in the environment is not covered, since it may form a new reference with the text beside it; nor is a configuration in which a setting reaches another that means something else when copied into it, such as one that names itself.
- VariableTermination.LoopEndsExactly: texts as above, and every name that is reached resolves, to a string setting or in the environment; an unresolved one ends the loop with an exception when its turn comes.
- PhpArrays.RoundTrip: the entries of an array are a list; PHP itself keeps only the last of equal keys, which matters when two columns have the same name.
- Disk, clock, DNS and environment are arbitrary inputs; logging output, OpenTelemetry, sockets and signal handling are not modelled.
- Fmi::Cache is a map that may drop entries at any time.
- The cache expiry times of the resolver and the trimming of addresses before a lookup: they decide whether a lookup is scheduled, which here may happen at any time.
- parseResponse differs from parseResponseFull only in not storing the body.
- Admin request handlers, IP filters, stock replies, chunked and streamed content, decompression.
- The HTML, XML, ASCII, CSV and JSON formatters, option parsing, lookup tables and counters: they would only add easy members.
