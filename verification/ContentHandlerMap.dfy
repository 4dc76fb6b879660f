/** The registry of content handlers and the choice of a handler for a resource. */
module Routing {
  import opened Wrappers
  import opened Ordering

  type Uri = string

  /** A handler belongs to a plugin, or to nobody when it is built in. */
  datatype Handler = Handler(plugin: Option<nat>, tag: nat)

  /** The handlers, and the URIs that also serve everything below them, in the order of std::set. */
  datatype Registry = Registry(handlers: map<Uri, Handler>, prefixes: seq<Uri>)

  datatype View = Found(handler: Handler) | NoMatch | InternalError

  // ---------------------------------------------------------------- operations on values

  /** The URI is a prefix of the resource that ends where a path segment does. */
  predicate Serves(uri: Uri, resource: Uri) {
    |uri| <= |resource| && resource[..|uri|] == uri && (|resource| == |uri| || resource[|uri|] == '/')
  }

  /** A rejected addition may still have registered the prefix. */
  function Added(g: Registry, uri: Uri, h: Option<Handler>, handlesPrefix: bool, shuttingDown: bool): Registry {
    if h.None? || shuttingDown then g
    else
      Registry(if uri in g.handlers then g.handlers else g.handlers[uri := h.value],
               if handlesPrefix then SetInsert(g.prefixes, uri) else g.prefixes)
  }

  predicate AddAccepted(g: Registry, uri: Uri, h: Option<Handler>, shuttingDown: bool) {
    h.Some? && !shuttingDown && uri !in g.handlers
  }

  function Removed(g: Registry, plugin: Option<nat>): Registry {
    Registry(map u | u in g.handlers && g.handlers[u].plugin != plugin :: g.handlers[u],
             EraseAll(g.prefixes, g, plugin))
  }

  function EraseAll(prefixes: seq<Uri>, g: Registry, plugin: Option<nat>): seq<Uri> {
    if prefixes == [] then []
    else (if prefixes[0] in g.handlers && g.handlers[prefixes[0]].plugin == plugin then [] else [prefixes[0]])
         + EraseAll(prefixes[1..], g, plugin)
  }

  /** The first registered prefix, in the order of the set, that serves the resource. */
  function FirstServing(prefixes: seq<Uri>, resource: Uri): Option<Uri> {
    if prefixes == [] then None
    else if Serves(prefixes[0], resource) then Some(prefixes[0])
    else FirstServing(prefixes[1..], resource)
  }

  function Select(g: Registry, resource: Uri): View {
    match FirstServing(g.prefixes, resource)
    case Some(p) => if p in g.handlers then Found(g.handlers[p]) else InternalError
    case None => if resource in g.handlers then Found(g.handlers[resource]) else NoMatch
  }

  // ---------------------------------------------------------------- the class

  class ContentHandlerMap {
    var itsHandlers: map<Uri, Handler>
    var itsUriPrefixes: seq<Uri>

    function Value(): Registry
      reads this
    {
      Registry(itsHandlers, itsUriPrefixes)
    }

    constructor ()
      ensures Value() == Registry(map[], [])
    {
      itsHandlers, itsUriPrefixes := map[], [];
    }

    method AddContentHandler(uri: Uri, h: Option<Handler>, handlesPrefix: bool, shuttingDown: bool) returns (r: Result<bool>)
      modifies this
      ensures Value() == Added(old(Value()), uri, h, handlesPrefix, shuttingDown)
      ensures r.Success? <==> AddAccepted(old(Value()), uri, h, shuttingDown)
    {
      if h.None? {
        return Thrown;
      }
      if shuttingDown {
        return Thrown;
      }
      if handlesPrefix {
        itsUriPrefixes := SetInsert(itsUriPrefixes, uri);
      }
      if uri in itsHandlers {
        return Thrown;
      }
      itsHandlers := itsHandlers[uri := h.value];
      return Success(true);
    }

    method RemoveContentHandlers(plugin: Option<nat>) returns (count: nat)
      requires StrictlySorted(itsUriPrefixes) && forall p :: p in itsUriPrefixes ==> p in itsHandlers
      modifies this
      ensures Value() == Removed(old(Value()), plugin)
      ensures count == |old(itsHandlers)| - |itsHandlers|
    {
      ghost var before := Value();
      count := 0;
      var uris := itsHandlers.Keys;
      while uris != {}
        invariant Removing(before, plugin, Value(), uris)
        invariant count == |before.handlers| - |itsHandlers|
        decreases |uris|
      {
        var uri :| uri in uris;
        uris := uris - {uri};
        RemovingStep(before, plugin, Value(), uris, uri);
        if itsHandlers[uri].plugin == plugin {
          EraseOne(itsHandlers, uri);
          itsHandlers := itsHandlers - {uri};
          itsUriPrefixes := SetErase(itsUriPrefixes, uri);
          count := count + 1;
        }
      }
      RemovingEnds(before, plugin, Value());
    }

    method GetHandlerView(resource: Uri) returns (view: View)
      ensures view == Select(Value(), resource)
    {
      var remapped, target := false, resource;
      var i := 0;
      while i < |itsUriPrefixes|
        invariant i <= |itsUriPrefixes| && !remapped && target == resource
        invariant FirstServing(itsUriPrefixes, resource) == FirstServing(itsUriPrefixes[i..], resource)
      {
        if Serves(itsUriPrefixes[i], resource) {
          remapped := true;
          target := itsUriPrefixes[i];
          break;
        }
        i := i + 1;
      }
      if target !in itsHandlers {
        return if remapped then InternalError else NoMatch;
      }
      return Found(itsHandlers[target]);
    }

    method HasHandlerView(resource: Uri) returns (found: bool)
      ensures found == Select(Value(), resource).Found?
    {
      var target := resource;
      var i := 0;
      while i < |itsUriPrefixes|
        invariant i <= |itsUriPrefixes| && target == resource
        invariant FirstServing(itsUriPrefixes, resource) == FirstServing(itsUriPrefixes[i..], resource)
      {
        if Serves(itsUriPrefixes[i], resource) {
          target := itsUriPrefixes[i];
          break;
        }
        i := i + 1;
      }
      found := target in itsHandlers;
    }
  }

  /** Removal under way: the given handlers are still to be looked at. */
  ghost predicate Removing(before: Registry, plugin: Option<nat>, g: Registry, uris: set<Uri>) {
    && uris <= g.handlers.Keys <= before.handlers.Keys
    && (forall u :: u in g.handlers ==> g.handlers[u] == before.handlers[u])
    && (forall u :: u in before.handlers && u !in uris ==> (u in g.handlers <==> before.handlers[u].plugin != plugin))
    && StrictlySorted(g.prefixes)
    && (forall p :: p in g.prefixes <==> p in before.prefixes && p in g.handlers)
  }

  lemma RemovingStep(before: Registry, plugin: Option<nat>, g: Registry, uris: set<Uri>, uri: Uri)
    requires Removing(before, plugin, g, uris + {uri}) && uri !in uris
    ensures g.handlers[uri].plugin == plugin ==>
              Removing(before, plugin, Registry(g.handlers - {uri}, SetErase(g.prefixes, uri)), uris)
    ensures g.handlers[uri].plugin != plugin ==> Removing(before, plugin, g, uris)
  {
    SetEraseMembers(g.prefixes, uri);
  }

  lemma RemovingEnds(before: Registry, plugin: Option<nat>, g: Registry)
    requires Removing(before, plugin, g, {})
    requires StrictlySorted(before.prefixes) && forall p :: p in before.prefixes ==> p in before.handlers
    ensures g == Removed(before, plugin)
  {
    EraseAllMembers(before.prefixes, before, plugin);
    SameSortedSet(g.prefixes, Removed(before, plugin).prefixes);
  }

  lemma EraseOne(m: map<Uri, Handler>, uri: Uri)
    requires uri in m
    ensures |m - {uri}| == |m| - 1
  {
    assert (m - {uri}).Keys == m.Keys - {uri};
    assert |m| == |m.Keys| && |m - {uri}| == |(m - {uri}).Keys|;
  }

  lemma {:induction false} EraseAllMembers(prefixes: seq<Uri>, g: Registry, plugin: Option<nat>)
    ensures forall p :: p in EraseAll(prefixes, g, plugin) <==>
                          p in prefixes && !(p in g.handlers && g.handlers[p].plugin == plugin)
    ensures StrictlySorted(prefixes) ==> StrictlySorted(EraseAll(prefixes, g, plugin))
  {
    if prefixes != [] {
      EraseAllMembers(prefixes[1..], g, plugin);
      if StrictlySorted(prefixes) {
        SortedCons(prefixes[0], EraseAll(prefixes[1..], g, plugin));
      }
    }
  }

  /** A sorted set is determined by its members. */
  lemma {:induction false} SameSortedSet(a: seq<Uri>, b: seq<Uri>)
    requires StrictlySorted(a) && StrictlySorted(b) && forall x :: x in a <==> x in b
    ensures a == b
  {
    assert (a != [] ==> a[0] in b) && (b != [] ==> b[0] in a);
    if a != [] && b != [] {
      if StringLess(a[0], b[0]) || StringLess(b[0], a[0]) {
        FirstIsLeast(a, b[0]);
        FirstIsLeast(b, a[0]);
      }
      LexTotal(Codes(a[0]), Codes(b[0]));
      CodesInjective(a[0], b[0]);
      TailMembers(a);
      TailMembers(b);
      SameSortedSet(a[1..], b[1..]);
      assert a == [a[0]] + a[1..] && b == [b[0]] + b[1..];
    }
  }

  lemma FirstIsLeast(a: seq<Uri>, x: Uri)
    requires StrictlySorted(a) && x in a
    ensures !StringLess(x, a[0])
  {
    LexIrreflexive(Codes(x));
    if x != a[0] && StringLess(x, a[0]) {
      LexTransitive(Codes(x), Codes(a[0]), Codes(x));
    }
  }

  lemma TailMembers(a: seq<Uri>)
    requires StrictlySorted(a) && a != []
    ensures forall x :: x in a[1..] <==> x in a && x != a[0]
  {
    LexIrreflexive(Codes(a[0]));
  }

  // ---------------------------------------------------------------- every reachable registry

  datatype Operation =
    | Add(uri: Uri, handler: Option<Handler>, handlesPrefix: bool, shuttingDown: bool)
    | Remove(plugin: Option<nat>)

  function Apply(g: Registry, op: Operation): Registry {
    match op
    case Add(uri, h, handlesPrefix, shuttingDown) => Added(g, uri, h, handlesPrefix, shuttingDown)
    case Remove(plugin) => Removed(g, plugin)
  }

  function Run(g: Registry, ops: seq<Operation>): Registry
    decreases |ops|
  {
    if ops == [] then g else Run(Apply(g, ops[0]), ops[1..])
  }

  ghost predicate Consistent(g: Registry) {
    StrictlySorted(g.prefixes) && forall p :: p in g.prefixes ==> p in g.handlers
  }

  lemma ApplyKeeps(g: Registry, op: Operation)
    requires Consistent(g)
    ensures Consistent(Apply(g, op))
  {
    match op
    case Add(uri, h, handlesPrefix, shuttingDown) =>
      SetInsertMembers(g.prefixes, uri);
      SetInsertSorted(g.prefixes, uri);
    case Remove(plugin) =>
      EraseAllMembers(g.prefixes, g, plugin);
  }

  lemma {:induction false} RunKeeps(g: Registry, ops: seq<Operation>)
    requires Consistent(g)
    ensures Consistent(Run(g, ops))
    decreases |ops|
  {
    if ops != [] {
      ApplyKeeps(g, ops[0]);
      RunKeeps(Apply(g, ops[0]), ops[1..]);
    }
  }

  lemma {:induction false} FirstServingFacts(prefixes: seq<Uri>, resource: Uri)
    ensures match FirstServing(prefixes, resource)
            case None => forall p :: p in prefixes ==> !Serves(p, resource)
            case Some(f) => f in prefixes && Serves(f, resource)
  {
    if prefixes != [] && !Serves(prefixes[0], resource) {
      FirstServingFacts(prefixes[1..], resource);
    }
  }

  /** In the order of the set a shorter serving prefix comes before a longer one. */
  lemma {:induction false} FirstIsShortest(prefixes: seq<Uri>, resource: Uri, p: Uri)
    requires StrictlySorted(prefixes) && p in prefixes && Serves(p, resource)
    ensures FirstServing(prefixes, resource).Some? && |FirstServing(prefixes, resource).value| <= |p|
  {
    if Serves(prefixes[0], resource) {
      var f := prefixes[0];
      if |p| < |f| {
        assert Codes(p) == Codes(f)[..|p|] by {
          assert p == resource[..|p|] && f == resource[..|f|];
        }
        LexPrefix(Codes(p), Codes(f));
        FirstIsLeast(prefixes, p);
      }
    } else {
      FirstIsShortest(prefixes[1..], resource, p);
    }
  }

  /**
   After any additions, rejected ones included, and removals: the shortest registered prefix that ends at a
   segment boundary decides, else the exact URI, and the internal error cannot happen.
   */
  lemma RoutingIsShortestPrefix(ops: seq<Operation>, resource: Uri)
    ensures var g := Run(Registry(map[], []), ops);
            var view := Select(g, resource);
            && view != InternalError
            && (forall p :: p in g.prefixes && Serves(p, resource) &&
                            (forall q :: q in g.prefixes && Serves(q, resource) ==> |p| <= |q|) ==>
                  p in g.handlers && view == Found(g.handlers[p]))
            && ((forall p :: p in g.prefixes ==> !Serves(p, resource)) ==>
                  view == if resource in g.handlers then Found(g.handlers[resource]) else NoMatch)
  {
    var g := Run(Registry(map[], []), ops);
    RunKeeps(Registry(map[], []), ops);
    FirstServingFacts(g.prefixes, resource);
    forall p | p in g.prefixes && Serves(p, resource) &&
               (forall q :: q in g.prefixes && Serves(q, resource) ==> |p| <= |q|)
      ensures p in g.handlers && Select(g, resource) == Found(g.handlers[p])
    {
      FirstIsShortest(g.prefixes, resource, p);
      var f := FirstServing(g.prefixes, resource).value;
      assert |f| == |p| && f == resource[..|f|] == p;
    }
  }

  /** A rejected duplicate never replaces a handler, but it can turn the handler into a prefix handler. */
  lemma RejectedAdditionKeepsHandlers(g: Registry, uri: Uri, h: Option<Handler>, handlesPrefix: bool, shuttingDown: bool)
    requires !AddAccepted(g, uri, h, shuttingDown)
    ensures Added(g, uri, h, handlesPrefix, shuttingDown).handlers == g.handlers
    ensures h.Some? && !shuttingDown && handlesPrefix ==> uri in Added(g, uri, h, handlesPrefix, shuttingDown).prefixes
  {
    SetInsertMembers(g.prefixes, uri);
  }

  // ---------------------------------------------------------------- routing, from the history of calls alone

  /** The URI itself, or a path below it. */
  ghost predicate IsBelow(resource: Uri, uri: Uri) {
    resource == uri || exists rest: string :: resource == uri + "/" + rest
  }

  lemma ServesExactly(uri: Uri, resource: Uri)
    ensures Serves(uri, resource) <==> IsBelow(resource, uri)
  {
    if Serves(uri, resource) && |resource| != |uri| {
      assert resource == uri + "/" + resource[|uri| + 1..];
    }
    if rest: string :| resource == uri + "/" + rest {
      assert resource[..|uri|] == uri;
    }
  }

  /** What one URI has: its handler, and whether it also serves what is below it. */
  datatype Slot = Slot(handler: Option<Handler>, prefix: bool)

  /** The first handler that is added stays until its plugin is removed; prefixes come with any addition. */
  function SlotAfter(slot: Slot, op: Operation, uri: Uri): Slot {
    match op
    case Add(u, h, handlesPrefix, shuttingDown) =>
      if u != uri || h.None? || shuttingDown then slot
      else Slot(if slot.handler.Some? then slot.handler else h, slot.prefix || handlesPrefix)
    case Remove(plugin) =>
      if slot.handler.Some? && slot.handler.value.plugin == plugin then Slot(None, false) else slot
  }

  function SlotOf(slot: Slot, ops: seq<Operation>, uri: Uri): Slot
    decreases |ops|
  {
    if ops == [] then slot else SlotOf(SlotAfter(slot, ops[0], uri), ops[1..], uri)
  }

  function SlotIn(g: Registry, uri: Uri): Slot {
    Slot(if uri in g.handlers then Some(g.handlers[uri]) else None, uri in g.prefixes)
  }

  lemma SlotStep(g: Registry, op: Operation, uri: Uri)
    requires Consistent(g)
    ensures SlotIn(Apply(g, op), uri) == SlotAfter(SlotIn(g, uri), op, uri)
  {
    match op
    case Add(u, h, handlesPrefix, shuttingDown) =>
      SetInsertMembers(g.prefixes, u);
    case Remove(plugin) =>
      EraseAllMembers(g.prefixes, g, plugin);
  }

  /** The registry is what the calls made of each URI on its own. */
  lemma {:induction false} RegistryIsHistory(g: Registry, ops: seq<Operation>, uri: Uri)
    requires Consistent(g)
    ensures SlotIn(Run(g, ops), uri) == SlotOf(SlotIn(g, uri), ops, uri)
    decreases |ops|
  {
    if ops != [] {
      SlotStep(g, ops[0], uri);
      ApplyKeeps(g, ops[0]);
      RegistryIsHistory(Apply(g, ops[0]), ops[1..], uri);
    }
  }

  function Now(ops: seq<Operation>, uri: Uri): Slot {
    SlotOf(Slot(None, false), ops, uri)
  }

  /** The URI serves the resource, and no shorter one does. */
  ghost predicate Decides(ops: seq<Operation>, resource: Uri, uri: Uri) {
    && Now(ops, uri).prefix && IsBelow(resource, uri)
    && forall u :: Now(ops, u).prefix && IsBelow(resource, u) ==> |uri| <= |u|
  }

  /**
   Routing, from the calls made so far: the shortest URI added as a prefix at or above the resource decides, and has
   a handler; when there is none, the handler added for the resource itself, or no match.
   */
  lemma RoutingByHistory(ops: seq<Operation>, resource: Uri)
    ensures var view := Select(Run(Registry(map[], []), ops), resource);
            && (forall uri :: Decides(ops, resource, uri) ==>
                  Now(ops, uri).handler.Some? && view == Found(Now(ops, uri).handler.value))
            && ((forall uri :: !(Now(ops, uri).prefix && IsBelow(resource, uri))) ==>
                  view == match Now(ops, resource).handler case Some(h) => Found(h) case None => NoMatch)
  {
    var g := Run(Registry(map[], []), ops);
    RoutingIsShortestPrefix(ops, resource);
    forall uri ensures SlotIn(g, uri) == Now(ops, uri) && (Serves(uri, resource) <==> IsBelow(resource, uri)) {
      RegistryIsHistory(Registry(map[], []), ops, uri);
      ServesExactly(uri, resource);
    }
    forall uri | Decides(ops, resource, uri)
      ensures Now(ops, uri).handler.Some? && Select(g, resource) == Found(Now(ops, uri).handler.value)
    {
      assert SlotIn(g, uri) == Now(ops, uri);
      assert forall q :: q in g.prefixes ==> SlotIn(g, q) == Now(ops, q);
    }
    if forall uri :: !(Now(ops, uri).prefix && IsBelow(resource, uri)) {
      assert forall q :: q in g.prefixes ==> SlotIn(g, q) == Now(ops, q);
      assert SlotIn(g, resource) == Now(ops, resource);
    }
  }
}
