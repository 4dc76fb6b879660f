/**
 When the expansion of variables ends: exactly when no cycle of references is reachable from the text, a reference to
 the own leaf name of the setting being one to the environment.
 */
module VariableTermination {
  import opened Wrappers
  import opened Text
  import opened Variables
  import opened VariableMeaning

  // ---------------------------------------------------------------- the graph of references

  /** The settings as texts with references; what is not a string has none. */
  type Texts = seq<Option<Template>>

  predicate Written(c: Config, texts: Texts) {
    && |texts| == |c.values|
    && forall j :: 0 <= j < |texts| ==>
         match texts[j]
         case None => c.values[j].Other?
         case Some(t) => Clean(t) && c.values[j] == Str(Shown(t))
  }

  /** What a reference may lead to: settings by path, and the environment. */
  datatype Links = Links(names: seq<string>, find: string -> Option<nat>, env: string -> Option<string>)

  function Outside(c: Config): Links {
    Links(c.names, c.find, c.env)
  }

  /** The setting a name leads to, seen from a setting with the given leaf name. */
  function Leads(g: Links, own: string, name: string): Option<nat> {
    if name == own then None else g.find(name)
  }

  predicate IsText(texts: Texts, j: nat) {
    j < |texts| && texts[j].Some?
  }

  /** Every name in a text leads to a string setting or is held, without a '$', by the environment. */
  predicate Resolves(g: Links, texts: Texts, own: string, t: Template) {
    t.Refer? ==>
      && (match Leads(g, own, t.name)
          case Some(j) => IsText(texts, j)
          case None => g.env(t.name).Some? && '$' !in g.env(t.name).value)
      && Resolves(g, texts, own, t.rest)
  }

  predicate Refers(g: Links, own: string, t: Template, j: nat) {
    t.Refer? && (Leads(g, own, t.name) == Some(j) || Refers(g, own, t.rest, j))
  }

  /** A walk along references that starts in a text. */
  predicate Walk(g: Links, texts: Texts, own: string, t: Template, path: seq<nat>)
    decreases |path|
  {
    path != [] ==>
      && IsText(texts, path[0]) && Refers(g, own, t, path[0])
      && Walk(g, texts, own, texts[path[0]].value, path[1..])
  }

  /** The text at the end of a walk. */
  function Arrives(g: Links, texts: Texts, own: string, t: Template, path: seq<nat>): Template
    requires Walk(g, texts, own, t, path)
    decreases |path|
  {
    if path == [] then t else Arrives(g, texts, own, texts[path[0]].value, path[1..])
  }

  /** No walk from a text leads to a name that does not resolve. */
  ghost predicate Resolvable(g: Links, texts: Texts, own: string, t: Template) {
    forall path :: Walk(g, texts, own, t, path) ==> Resolves(g, texts, own, Arrives(g, texts, own, t, path))
  }

  /** Some walk from the text comes back to a setting it has met. */
  ghost predicate ReachesCycle(g: Links, texts: Texts, own: string, t: Template) {
    exists path :: Walk(g, texts, own, t, path) && !NoRepeats(path)
  }

  predicate NoRepeats(path: seq<nat>) {
    forall a, b :: 0 <= a < b < |path| ==> path[a] != path[b]
  }

  // ---------------------------------------------------------------- depth

  /** No walk from the text has more than k settings. */
  predicate Shallow(g: Links, texts: Texts, own: string, t: Template, k: nat)
    decreases k, t
  {
    t.Refer? ==>
      && (match Leads(g, own, t.name)
          case None => true
          case Some(j) => k > 0 && IsText(texts, j) && Shallow(g, texts, own, texts[j].value, k - 1))
      && Shallow(g, texts, own, t.rest, k)
  }

  /** The number of references met when all are replaced. */
  function Rewritings(g: Links, texts: Texts, own: string, t: Template, k: nat): nat
    requires Shallow(g, texts, own, t, k)
    decreases k, t
  {
    match t
    case Plain(_) => 0
    case Refer(_, name, rest) =>
      1
      + (match Leads(g, own, name)
         case None => 0
         case Some(j) => Rewritings(g, texts, own, texts[j].value, k - 1))
      + Rewritings(g, texts, own, rest, k)
  }

  lemma {:induction false} Deeper(g: Links, texts: Texts, own: string, t: Template, k: nat, l: nat)
    requires Shallow(g, texts, own, t, k) && k <= l
    ensures Shallow(g, texts, own, t, l) && Rewritings(g, texts, own, t, l) == Rewritings(g, texts, own, t, k)
    decreases k, t
  {
    if t.Refer? {
      Deeper(g, texts, own, t.rest, k, l);
      if Leads(g, own, t.name).Some? {
        Deeper(g, texts, own, texts[Leads(g, own, t.name).value].value, k - 1, l - 1);
      }
    }
  }

  lemma {:induction false} AppendShallow(g: Links, texts: Texts, own: string, a: Template, b: Template, k: nat)
    ensures Shallow(g, texts, own, Append(a, b), k) <==> Shallow(g, texts, own, a, k) && Shallow(g, texts, own, b, k)
    ensures Shallow(g, texts, own, Append(a, b), k) ==>
              Rewritings(g, texts, own, Append(a, b), k)
              == Rewritings(g, texts, own, a, k) + Rewritings(g, texts, own, b, k)
  {
    if a.Refer? {
      AppendShallow(g, texts, own, a.rest, b, k);
    }
  }

  // ---------------------------------------------------------------- resolvable texts

  lemma {:induction false} AppendClean(a: Template, b: Template)
    requires Clean(a) && Clean(b)
    ensures Clean(Append(a, b))
  {
    if a.Refer? {
      AppendClean(a.rest, b);
    }
  }

  lemma {:induction false} AppendResolves(g: Links, texts: Texts, own: string, a: Template, b: Template)
    requires Resolves(g, texts, own, a) && Resolves(g, texts, own, b)
    ensures Resolves(g, texts, own, Append(a, b))
  {
    if a.Refer? {
      AppendResolves(g, texts, own, a.rest, b);
    }
  }

  lemma {:induction false} AppendRefers(g: Links, own: string, a: Template, b: Template, j: nat)
    ensures Refers(g, own, Append(a, b), j) <==> Refers(g, own, a, j) || Refers(g, own, b, j)
  {
    if a.Refer? {
      AppendRefers(g, own, a.rest, b, j);
    }
  }

  lemma AppendResolvable(g: Links, texts: Texts, own: string, a: Template, b: Template)
    requires Resolvable(g, texts, own, a) && Resolvable(g, texts, own, b)
    ensures Resolvable(g, texts, own, Append(a, b))
  {
    ResolvesItself(g, texts, own, a);
    ResolvesItself(g, texts, own, b);
    AppendResolves(g, texts, own, a, b);
    forall path | Walk(g, texts, own, Append(a, b), path)
      ensures Resolves(g, texts, own, Arrives(g, texts, own, Append(a, b), path))
    {
      if path != [] {
        AppendRefers(g, own, a, b, path[0]);
        assert Walk(g, texts, own, a, path) || Walk(g, texts, own, b, path);
      }
    }
  }

  lemma ResolvesItself(g: Links, texts: Texts, own: string, t: Template)
    requires Resolvable(g, texts, own, t)
    ensures Resolves(g, texts, own, t)
  {
    assert Walk(g, texts, own, t, []);
  }

  lemma {:induction false} ReferredIsText(g: Links, texts: Texts, own: string, t: Template, j: nat)
    requires Resolves(g, texts, own, t) && Refers(g, own, t, j)
    ensures IsText(texts, j)
  {
    if Leads(g, own, t.name) != Some(j) {
      ReferredIsText(g, texts, own, t.rest, j);
    }
  }

  lemma ReferredIsResolvable(g: Links, texts: Texts, own: string, t: Template, j: nat)
    requires Resolvable(g, texts, own, t) && Refers(g, own, t, j)
    ensures IsText(texts, j) && Resolvable(g, texts, own, texts[j].value)
  {
    ResolvesItself(g, texts, own, t);
    ReferredIsText(g, texts, own, t, j);
    forall path | Walk(g, texts, own, texts[j].value, path)
      ensures Resolves(g, texts, own, Arrives(g, texts, own, texts[j].value, path))
    {
      assert ([j] + path)[1..] == path;
      assert Walk(g, texts, own, t, [j] + path);
    }
  }

  lemma RestIsResolvable(g: Links, texts: Texts, own: string, t: Template)
    requires Resolvable(g, texts, own, t) && t.Refer?
    ensures Resolvable(g, texts, own, t.rest)
  {
    ResolvesItself(g, texts, own, t);
    forall path | Walk(g, texts, own, t.rest, path)
      ensures Resolves(g, texts, own, Arrives(g, texts, own, t.rest, path))
    {
      if path != [] {
        assert Walk(g, texts, own, t, path);
      }
    }
  }

  // ---------------------------------------------------------------- one rewriting

  /** What the loop is about: setting i of a configuration, and a text it may hold on the way. */
  ghost predicate Good(c: Config, texts: Texts, i: nat, t: Template) {
    && c.Valid() && i < |c.values| && Written(c, texts)
    && Clean(t) && Resolvable(Outside(c), texts, c.names[i], t)
  }

  /** The text a name is replaced by. */
  function Inserted(g: Links, texts: Texts, own: string, t: Template): Template
    requires t.Refer? && Resolves(g, texts, own, t)
  {
    match Leads(g, own, t.name)
    case Some(j) => texts[j].value
    case None => Plain(g.env(t.name).value)
  }

  function Rewritten(g: Links, texts: Texts, own: string, t: Template): Template
    requires t.Refer? && Resolves(g, texts, own, t)
  {
    Append(Plain(t.lit), Append(Inserted(g, texts, own, t), t.rest))
  }

  lemma RewritesTo(c: Config, texts: Texts, i: nat, t: Template)
    requires Good(c, texts, i, t) && t.Refer?
    ensures Resolves(Outside(c), texts, c.names[i], t)
    ensures Rewrite(c, i, Shown(t)) == Next(Shown(Rewritten(Outside(c), texts, c.names[i], t)))
  {
    ResolvesItself(Outside(c), texts, c.names[i], t);
    var p := Inserted(Outside(c), texts, c.names[i], t);
    RewriteAt(c, i, t.lit, t.name, Shown(t.rest), Shown(p));
    AppendShown(p, t.rest);
    AppendShown(Plain(t.lit), Append(p, t.rest));
    Regroup3(t.lit, Shown(p), Shown(t.rest));
  }

  lemma LiteralEndsWalk(g: Links, texts: Texts, own: string, t: Template, path: seq<nat>)
    requires t.Plain? && Walk(g, texts, own, t, path)
    ensures path == []
  {
  }

  lemma PlainIsResolvable(g: Links, texts: Texts, own: string, lit: string)
    ensures Resolvable(g, texts, own, Plain(lit))
  {
    forall path | Walk(g, texts, own, Plain(lit), path) ensures path == [] {
      LiteralEndsWalk(g, texts, own, Plain(lit), path);
    }
  }

  lemma RewrittenIsGood(c: Config, texts: Texts, i: nat, t: Template)
    requires Good(c, texts, i, t) && t.Refer?
    ensures Resolves(Outside(c), texts, c.names[i], t)
    ensures Good(c, texts, i, Rewritten(Outside(c), texts, c.names[i], t))
  {
    var g, own := Outside(c), c.names[i];
    ResolvesItself(g, texts, own, t);
    var p := Inserted(g, texts, own, t);
    if Leads(g, own, t.name).Some? {
      ReferredIsResolvable(g, texts, own, t, Leads(g, own, t.name).value);
    } else {
      PlainIsResolvable(g, texts, own, p.lit);
    }
    RestIsResolvable(g, texts, own, t);
    PlainIsResolvable(g, texts, own, t.lit);
    AppendResolvable(g, texts, own, p, t.rest);
    AppendResolvable(g, texts, own, Plain(t.lit), Append(p, t.rest));
    AppendClean(p, t.rest);
    AppendClean(Plain(t.lit), Append(p, t.rest));
  }

  /** The rewritten text is as shallow as its parts. */
  lemma RewrittenShallow(g: Links, texts: Texts, own: string, t: Template, k: nat)
    requires t.Refer? && Resolves(g, texts, own, t)
    ensures var next, p := Rewritten(g, texts, own, t), Inserted(g, texts, own, t);
            && (Shallow(g, texts, own, next, k) <==> Shallow(g, texts, own, p, k) && Shallow(g, texts, own, t.rest, k))
            && (Shallow(g, texts, own, next, k) ==>
                  Rewritings(g, texts, own, next, k)
                  == Rewritings(g, texts, own, p, k) + Rewritings(g, texts, own, t.rest, k))
  {
    var p := Inserted(g, texts, own, t);
    AppendShallow(g, texts, own, p, t.rest, k);
    AppendShallow(g, texts, own, Plain(t.lit), Append(p, t.rest), k);
  }

  // ---------------------------------------------------------------- the loop

  lemma RunRewritten(c: Config, texts: Texts, i: nat, t: Template, n: nat)
    requires Good(c, texts, i, t) && t.Refer?
    ensures Resolves(Outside(c), texts, c.names[i], t)
    ensures var next := Rewritten(Outside(c), texts, c.names[i], t);
            Good(c, texts, i, next) && Run(c, i, Shown(t), n) == if n == 0 then None else Run(c, i, Shown(next), n - 1)
  {
    RewritesTo(c, texts, i, t);
    RewrittenIsGood(c, texts, i, t);
  }

  /** Rewriting the first reference of a shallow text leaves one reference fewer to meet. */
  lemma ShallowRewritten(g: Links, texts: Texts, own: string, t: Template, k: nat)
    requires t.Refer? && Resolves(g, texts, own, t) && Shallow(g, texts, own, t, k)
    ensures var next := Rewritten(g, texts, own, t);
            && Shallow(g, texts, own, next, k)
            && Rewritings(g, texts, own, next, k) == Rewritings(g, texts, own, t, k) - 1
  {
    if Leads(g, own, t.name).Some? {
      Deeper(g, texts, own, Inserted(g, texts, own, t), k - 1, k);
    }
    RewrittenShallow(g, texts, own, t, k);
  }

  /** Before the rewriting, walks are at most one setting longer. */
  lemma RewrittenWasShallow(g: Links, texts: Texts, own: string, t: Template, k: nat)
    requires t.Refer? && Resolves(g, texts, own, t) && Shallow(g, texts, own, Rewritten(g, texts, own, t), k)
    ensures Shallow(g, texts, own, t, k + 1)
  {
    RewrittenShallow(g, texts, own, t, k);
    Deeper(g, texts, own, t.rest, k, k + 1);
  }

  /** A shallow text: the loop ends after as many rewritings as there are references to meet, and does not throw. */
  lemma {:induction false} ShallowEnds(c: Config, texts: Texts, i: nat, t: Template, k: nat, n: nat)
    requires Good(c, texts, i, t) && Shallow(Outside(c), texts, c.names[i], t, k)
    requires Rewritings(Outside(c), texts, c.names[i], t, k) <= n
    ensures var r := Run(c, i, Shown(t), n);
            r.Some? && r.value.Success? && '$' !in r.value.value
    decreases n
  {
    if t.Plain? {
      RunDone(c, i, t.lit, n);
    } else {
      RunRewritten(c, texts, i, t, n);
      ShallowRewritten(Outside(c), texts, c.names[i], t, k);
      ShallowEnds(c, texts, i, Rewritten(Outside(c), texts, c.names[i], t), k, n - 1);
    }
  }

  /** A loop that ends after at most n rewritings has met no walk longer than n. */
  lemma {:induction false} EndsShallow(c: Config, texts: Texts, i: nat, t: Template, n: nat)
    requires Good(c, texts, i, t) && Run(c, i, Shown(t), n).Some?
    ensures Shallow(Outside(c), texts, c.names[i], t, n)
    decreases n
  {
    if t.Refer? {
      RunRewritten(c, texts, i, t, n);
      EndsShallow(c, texts, i, Rewritten(Outside(c), texts, c.names[i], t), n - 1);
      RewrittenWasShallow(Outside(c), texts, c.names[i], t, n - 1);
    }
  }

  // ---------------------------------------------------------------- walks

  lemma {:induction false} ShallowStep(g: Links, texts: Texts, own: string, t: Template, k: nat, j: nat)
    requires Shallow(g, texts, own, t, k) && Refers(g, own, t, j)
    ensures k > 0 && IsText(texts, j) && Shallow(g, texts, own, texts[j].value, k - 1)
  {
    if Leads(g, own, t.name) != Some(j) {
      ShallowStep(g, texts, own, t.rest, k, j);
    }
  }

  lemma {:induction false} WalkAt(g: Links, texts: Texts, own: string, t: Template, path: seq<nat>, a: nat)
    requires Walk(g, texts, own, t, path) && a < |path|
    ensures IsText(texts, path[a]) && Walk(g, texts, own, texts[path[a]].value, path[a + 1..])
    decreases |path|
  {
    if a > 0 {
      WalkAt(g, texts, own, texts[path[0]].value, path[1..], a - 1);
      assert path[1..][a..] == path[a + 1..];
    }
  }

  lemma {:induction false} WalkPrefix(g: Links, texts: Texts, own: string, t: Template, path: seq<nat>, n: nat)
    requires Walk(g, texts, own, t, path) && n <= |path|
    ensures Walk(g, texts, own, t, path[..n])
    decreases |path|
  {
    if n > 0 {
      WalkPrefix(g, texts, own, texts[path[0]].value, path[1..], n - 1);
      assert path[..n][1..] == path[1..][..n - 1];
    }
  }

  lemma {:induction false} ShallowWalk(g: Links, texts: Texts, own: string, t: Template, k: nat, path: seq<nat>)
    requires Shallow(g, texts, own, t, k) && Walk(g, texts, own, t, path)
    ensures |path| <= k
    ensures path != [] ==>
              IsText(texts, path[|path| - 1]) && Shallow(g, texts, own, texts[path[|path| - 1]].value, k - |path|)
    decreases |path|
  {
    if path != [] {
      ShallowStep(g, texts, own, t, k, path[0]);
      ShallowWalk(g, texts, own, texts[path[0]].value, k - 1, path[1..]);
    }
  }

  /** A text that lies on a cycle is not shallow: the cycle can be walked again. */
  lemma {:induction false} CycleIsDeep(g: Links, texts: Texts, own: string, j: nat, cycle: seq<nat>, k: nat)
    requires IsText(texts, j) && Walk(g, texts, own, texts[j].value, cycle) && cycle != [] && cycle[|cycle| - 1] == j
    ensures !Shallow(g, texts, own, texts[j].value, k)
    decreases k
  {
    if Shallow(g, texts, own, texts[j].value, k) {
      ShallowWalk(g, texts, own, texts[j].value, k, cycle);
      CycleIsDeep(g, texts, own, j, cycle, k - |cycle|);
    }
  }

  lemma RepeatIsDeep(g: Links, texts: Texts, own: string, t: Template, path: seq<nat>, k: nat)
    requires Walk(g, texts, own, t, path) && !NoRepeats(path)
    ensures !Shallow(g, texts, own, t, k)
  {
    var a, b :| 0 <= a < b < |path| && path[a] == path[b];
    if Shallow(g, texts, own, t, k) {
      WalkPrefix(g, texts, own, t, path, a + 1);
      ShallowWalk(g, texts, own, t, k, path[..a + 1]);
      WalkPrefix(g, texts, own, t, path, b + 1);
      WalkAt(g, texts, own, t, path[..b + 1], a);
      CycleIsDeep(g, texts, own, path[a], path[..b + 1][a + 1..], k - a - 1);
    }
  }

  /** A text that is not shallow has a longer walk. */
  lemma {:induction false} DeepWalk(g: Links, texts: Texts, own: string, t: Template, k: nat) returns (path: seq<nat>)
    requires Resolvable(g, texts, own, t) && !Shallow(g, texts, own, t, k)
    ensures Walk(g, texts, own, t, path) && |path| == k + 1
    decreases k, t
  {
    if !Shallow(g, texts, own, t.rest, k) {
      RestIsResolvable(g, texts, own, t);
      path := DeepWalk(g, texts, own, t.rest, k);
    } else {
      ResolvesItself(g, texts, own, t);
      var j := Leads(g, own, t.name).value;
      ReferredIsResolvable(g, texts, own, t, j);
      if k == 0 {
        path := [j];
      } else {
        var further := DeepWalk(g, texts, own, texts[j].value, k - 1);
        path := [j] + further;
        assert path[1..] == further;
      }
    }
  }

  lemma {:induction false} Pigeonhole(path: seq<nat>, n: nat)
    requires NoRepeats(path) && forall a :: 0 <= a < |path| ==> path[a] < n
    ensures |path| <= n
  {
    if path != [] {
      assert path[0] < n;
      if last :| 0 <= last < |path| && path[last] == n - 1 {
        Pigeonhole(path[..last] + path[last + 1..], n - 1);
      } else {
        Pigeonhole(path, n - 1);
      }
    }
  }

  lemma WalkInside(g: Links, texts: Texts, own: string, t: Template, path: seq<nat>)
    requires Walk(g, texts, own, t, path)
    ensures forall a :: 0 <= a < |path| ==> path[a] < |texts|
  {
    forall a | 0 <= a < |path| ensures path[a] < |texts| {
      WalkAt(g, texts, own, t, path, a);
    }
  }

  /** Without a cycle no walk is longer than the number of settings, and only then is there a bound at all. */
  lemma ShallowExactly(g: Links, texts: Texts, own: string, t: Template, k: nat)
    requires Resolvable(g, texts, own, t)
    ensures !ReachesCycle(g, texts, own, t) ==> Shallow(g, texts, own, t, |texts|)
    ensures Shallow(g, texts, own, t, k) ==> !ReachesCycle(g, texts, own, t)
  {
    if !Shallow(g, texts, own, t, |texts|) {
      var path := DeepWalk(g, texts, own, t, |texts|);
      WalkInside(g, texts, own, t, path);
      if NoRepeats(path) {
        Pigeonhole(path, |texts|);
      }
    }
    if ReachesCycle(g, texts, own, t) {
      var path :| Walk(g, texts, own, t, path) && !NoRepeats(path);
      RepeatIsDeep(g, texts, own, t, path, k);
    }
  }

  // ---------------------------------------------------------------- the theorem for one setting

  /** The cut-off does not matter once the loop ends before it. */
  lemma {:induction false} RunLonger(c: Config, i: nat, val: string, n: nat, l: nat)
    requires c.Valid() && i < |c.values| && n <= l && Run(c, i, val, n).Some?
    ensures Run(c, i, val, l) == Run(c, i, val, n)
    decreases n
  {
    if Rewrite(c, i, val).Next? {
      RunLonger(c, i, Rewrite(c, i, val).text, n - 1, l - 1);
    }
  }

  lemma SameEnd(c: Config, i: nat, val: string, n: nat, l: nat)
    requires c.Valid() && i < |c.values| && Run(c, i, val, n).Some? && Run(c, i, val, l).Some?
    ensures Run(c, i, val, n) == Run(c, i, val, l)
  {
    if n <= l {
      RunLonger(c, i, val, n, l);
    } else {
      RunLonger(c, i, val, l, n);
    }
  }

  /** A loop that ends has reached no cycle, and ends with a text without references. */
  lemma EndedOutsideCycles(c: Config, texts: Texts, i: nat, t: Template, n: nat)
    requires Good(c, texts, i, t) && Run(c, i, Shown(t), n).Some?
    ensures !ReachesCycle(Outside(c), texts, c.names[i], t)
    ensures Run(c, i, Shown(t), n).value.Success? && '$' !in Run(c, i, Shown(t), n).value.value
  {
    EndsShallow(c, texts, i, t, n);
    ShallowExactly(Outside(c), texts, c.names[i], t, n);
    var enough := EndsOutsideCycles(c, texts, i, t);
    SameEnd(c, i, Shown(t), n, enough);
  }

  lemma EndsOutsideCycles(c: Config, texts: Texts, i: nat, t: Template) returns (n: nat)
    requires Good(c, texts, i, t) && !ReachesCycle(Outside(c), texts, c.names[i], t)
    ensures var r := Run(c, i, Shown(t), n);
            r.Some? && r.value.Success? && '$' !in r.value.value
  {
    ShallowExactly(Outside(c), texts, c.names[i], t, 0);
    n := Rewritings(Outside(c), texts, c.names[i], t, |texts|);
    ShallowEnds(c, texts, i, t, |texts|, n);
  }

  /**
   The loop on a text ends exactly when no cycle of references is reachable from it. It then ends with a text
   without references.
   */
  lemma LoopEndsExactly(c: Config, texts: Texts, i: nat, t: Template)
    requires Good(c, texts, i, t)
    ensures (exists n: nat :: Run(c, i, Shown(t), n).Some?) <==> !ReachesCycle(Outside(c), texts, c.names[i], t)
    ensures forall n: nat :: Run(c, i, Shown(t), n).Some? ==>
              Run(c, i, Shown(t), n).value.Success? && '$' !in Run(c, i, Shown(t), n).value.value
  {
    forall n: nat | Run(c, i, Shown(t), n).Some?
      ensures !ReachesCycle(Outside(c), texts, c.names[i], t)
      ensures Run(c, i, Shown(t), n).value.Success? && '$' !in Run(c, i, Shown(t), n).value.value
    {
      EndedOutsideCycles(c, texts, i, t, n);
    }
    if !ReachesCycle(Outside(c), texts, c.names[i], t) {
      var n := EndsOutsideCycles(c, texts, i, t);
    }
  }

  // ---------------------------------------------------------------- all settings, in place

  /** The texts once a setting has been expanded: it refers to nothing any more. */
  function Settled(texts: Texts, i: nat): Texts
    requires IsText(texts, i)
  {
    texts[i := Some(Plain(""))]
  }

  /** Each setting in turn reaches no cycle among those not yet expanded. */
  ghost predicate NoCycles(g: Links, texts: Texts, order: seq<nat>)
    requires |g.names| == |texts| && forall k :: 0 <= k < |order| ==> order[k] < |texts|
    decreases |order|
  {
    order != [] ==>
      var i := order[0];
      if texts[i].None? then NoCycles(g, texts, order[1..])
      else !ReachesCycle(g, texts, g.names[i], texts[i].value) && NoCycles(g, Settled(texts, i), order[1..])
  }

  predicate Literal(t: Option<Template>) {
    t.Some? && t.value.Plain?
  }

  /** b has the references of a, or fewer: some of its texts are literal. */
  predicate Fewer(a: Texts, b: Texts) {
    |a| == |b| && forall j :: 0 <= j < |a| ==> b[j] == a[j] || (a[j].Some? && Literal(b[j]))
  }

  lemma {:induction false} FewerWalks(g: Links, a: Texts, b: Texts, own: string, t: Template, path: seq<nat>)
    requires Fewer(a, b) && Walk(g, b, own, t, path)
    ensures Walk(g, a, own, t, path)
    ensures Arrives(g, b, own, t, path) == Arrives(g, a, own, t, path) || Arrives(g, b, own, t, path).Plain?
    decreases |path|
  {
    if path != [] {
      var j := path[0];
      if b[j] == a[j] {
        FewerWalks(g, a, b, own, a[j].value, path[1..]);
      } else {
        LiteralEndsWalk(g, b, own, b[j].value, path[1..]);
      }
    }
  }

  lemma FewerCycles(g: Links, a: Texts, b: Texts, own: string, i: nat)
    requires Fewer(a, b) && IsText(a, i) && !ReachesCycle(g, a, own, a[i].value)
    ensures !ReachesCycle(g, b, own, b[i].value)
  {
    forall path | Walk(g, b, own, b[i].value, path) ensures NoRepeats(path) {
      if b[i] == a[i] {
        FewerWalks(g, a, b, own, a[i].value, path);
      } else {
        LiteralEndsWalk(g, b, own, b[i].value, path);
      }
    }
  }

  lemma {:induction false} FewerNoCycles(g: Links, a: Texts, b: Texts, order: seq<nat>)
    requires |g.names| == |a| && (forall k :: 0 <= k < |order| ==> order[k] < |a|) && Fewer(a, b)
    requires NoCycles(g, a, order)
    ensures NoCycles(g, b, order)
    decreases |order|
  {
    if order != [] {
      var i := order[0];
      if a[i].None? {
        FewerNoCycles(g, a, b, order[1..]);
      } else {
        FewerNoCycles(g, Settled(a, i), Settled(b, i), order[1..]);
        FewerCycles(g, a, b, g.names[i], i);
      }
    }
  }

  /** A configuration of which every string setting is resolvable. */
  ghost predicate Ready(c: Config, texts: Texts) {
    && c.Valid() && Written(c, texts)
    && forall i :: 0 <= i < |texts| && texts[i].Some? ==> Resolvable(Outside(c), texts, c.names[i], texts[i].value)
  }

  /** Setting i has got its value. */
  function Expanded(c: Config, i: nat, value: string): Config
    requires c.Valid() && i < |c.values|
  {
    c.(values := c.values[i := Str(value)])
  }

  lemma {:induction false} StillResolves(g: Links, a: Texts, b: Texts, own: string, t: Template)
    requires Fewer(a, b) && Resolves(g, a, own, t)
    ensures Resolves(g, b, own, t)
  {
    if t.Refer? {
      StillResolves(g, a, b, own, t.rest);
    }
  }

  lemma StillResolvable(g: Links, a: Texts, b: Texts, own: string, t: Template)
    requires Fewer(a, b) && Resolvable(g, a, own, t)
    ensures Resolvable(g, b, own, t)
  {
    forall path | Walk(g, b, own, t, path) ensures Resolves(g, b, own, Arrives(g, b, own, t, path)) {
      FewerWalks(g, a, b, own, t, path);
      StillResolves(g, a, b, own, Arrives(g, a, own, t, path));
    }
  }

  lemma StillReady(c: Config, texts: Texts, i: nat, value: string)
    requires Ready(c, texts) && IsText(texts, i) && '$' !in value
    ensures Ready(Expanded(c, i, value), texts[i := Some(Plain(value))])
  {
    var after := texts[i := Some(Plain(value))];
    forall k | 0 <= k < |after| && after[k].Some?
      ensures Resolvable(Outside(c), after, c.names[k], after[k].value)
    {
      if k == i {
        PlainIsResolvable(Outside(c), after, c.names[k], value);
      } else {
        StillResolvable(Outside(c), texts, after, c.names[k], texts[k].value);
      }
    }
  }

  /** If the whole loop ends, each setting reached no cycle when its turn came. */
  lemma {:induction false} EndedWithoutCycles(c: Config, texts: Texts, order: seq<nat>, n: nat)
    requires Ready(c, texts) && (forall k :: 0 <= k < |order| ==> order[k] < |texts|) && RunIn(c, order, n).Some?
    ensures NoCycles(Outside(c), texts, order) && RunIn(c, order, n).value.Success?
    decreases |order|
  {
    if order != [] {
      var i := order[0];
      if texts[i].None? {
        EndedWithoutCycles(c, texts, order[1..], n);
      } else {
        EndedOutsideCycles(c, texts, i, texts[i].value, n);
        var value := Run(c, i, c.values[i].text, n).value.value;
        StillReady(c, texts, i, value);
        EndedWithoutCycles(Expanded(c, i, value), texts[i := Some(Plain(value))], order[1..], n);
        FewerNoCycles(Outside(c), texts[i := Some(Plain(value))], Settled(texts, i), order[1..]);
      }
    }
  }

  /** If each setting reaches no cycle when its turn comes, the whole loop ends. */
  lemma {:induction false} EndsWithoutCycles(c: Config, texts: Texts, order: seq<nat>) returns (n: nat)
    requires Ready(c, texts) && (forall k :: 0 <= k < |order| ==> order[k] < |texts|)
    requires NoCycles(Outside(c), texts, order)
    ensures RunIn(c, order, n).Some?
    decreases |order|
  {
    n := 0;
    if order != [] {
      var i := order[0];
      if texts[i].None? {
        n := EndsWithoutCycles(c, texts, order[1..]);
      } else {
        var first := EndsOutsideCycles(c, texts, i, texts[i].value);
        var value := Run(c, i, c.values[i].text, first).value.value;
        StillReady(c, texts, i, value);
        FewerNoCycles(Outside(c), Settled(texts, i), texts[i := Some(Plain(value))], order[1..]);
        var further := EndsWithoutCycles(Expanded(c, i, value), texts[i := Some(Plain(value))], order[1..]);
        n := first + further;
        RunLonger(c, i, c.values[i].text, first, n);
        RunInLonger(Expanded(c, i, value), order[1..], further, n);
      }
    }
  }

  lemma {:induction false} RunInLonger(c: Config, order: seq<nat>, n: nat, l: nat)
    requires c.Valid() && (forall k :: 0 <= k < |order| ==> order[k] < |c.values|)
    requires n <= l && RunIn(c, order, n).Some?
    ensures RunIn(c, order, l) == RunIn(c, order, n)
    decreases |order|
  {
    if order != [] {
      var i := order[0];
      if c.values[i].Other? {
        RunInLonger(c, order[1..], n, l);
      } else {
        RunLonger(c, i, c.values[i].text, n, l);
        var end := Run(c, i, c.values[i].text, n).value;
        if end.Success? {
          RunInLonger(Expanded(c, i, end.value), order[1..], n, l);
        }
      }
    }
  }

  /**
   Expansion of all settings in place ends exactly when each setting, at its turn, reaches no cycle among the
   settings not expanded before it. It then does not throw.
   */
  lemma ExpansionEndsExactly(c: Config, texts: Texts, order: seq<nat>)
    requires Ready(c, texts) && forall k :: 0 <= k < |order| ==> order[k] < |texts|
    ensures (exists n: nat :: RunIn(c, order, n).Some?) <==> NoCycles(Outside(c), texts, order)
    ensures forall n: nat :: RunIn(c, order, n).Some? ==> RunIn(c, order, n).value.Success?
  {
    forall n: nat | RunIn(c, order, n).Some?
      ensures NoCycles(Outside(c), texts, order) && RunIn(c, order, n).value.Success?
    {
      EndedWithoutCycles(c, texts, order, n);
    }
    if NoCycles(Outside(c), texts, order) {
      var n := EndsWithoutCycles(c, texts, order);
    }
  }

  /** Two settings, a = "$(b)" and b = "$(b)", where b is also held by the environment. */
  function TwoTexts(b: string): Texts {
    [Some(Refer("", b, Plain(""))), Some(Refer("", b, Plain("")))]
  }

  function TwoSettings(a: string, b: string, value: string): Config {
    Config([a, b], [Str(Shown(TwoTexts(b)[0].value)), Str(Shown(TwoTexts(b)[1].value))],
           path => if path == a then Some(0) else if path == b then Some(1) else None,
           path => if path == b then Some(value) else None)
  }

  /** Whether expansion ends depends on the order: with b first it does, with a first it does not. */
  lemma OrderDecides(a: string, b: string, value: string)
    requires a != b && '$' !in b && ')' !in b && '$' !in value
    ensures Ready(TwoSettings(a, b, value), TwoTexts(b))
    ensures exists n: nat :: RunIn(TwoSettings(a, b, value), [1, 0], n).Some?
    ensures forall n: nat :: RunIn(TwoSettings(a, b, value), [0, 1], n).None?
  {
    var c, texts := TwoSettings(a, b, value), TwoTexts(b);
    var g, t := Outside(c), texts[0].value;
    assert Clean(t) && Clean(t.rest);
    forall own | own == a || own == b ensures Resolvable(g, texts, own, t) {
      forall path | Walk(g, texts, own, t, path) ensures Resolves(g, texts, own, Arrives(g, texts, own, t, path)) {
        AlwaysThere(g, texts, own, t, path);
      }
    }
    ExpansionEndsExactly(c, texts, [1, 0]);
    ExpansionEndsExactly(c, texts, [0, 1]);
    RepeatedWalk(g, texts, a, b);
    BackwardsIsFine(g, texts, a, b);
  }

  lemma {:induction false} AlwaysThere(g: Links, texts: Texts, own: string, t: Template, path: seq<nat>)
    requires texts == [Some(t), Some(t)] && Walk(g, texts, own, t, path)
    ensures Arrives(g, texts, own, t, path) == t
    decreases |path|
  {
    if path != [] {
      AlwaysThere(g, texts, own, t, path[1..]);
    }
  }

  lemma RepeatedWalk(g: Links, texts: Texts, a: string, b: string)
    requires a != b && g.names == [a, b] && texts == TwoTexts(b) && g.find(b) == Some(1)
    ensures !NoCycles(g, texts, [0, 1])
  {
    assert Refers(g, a, texts[0].value, 1);
    assert Walk(g, texts, a, texts[0].value, [1, 1]) by {
      assert Walk(g, texts, a, texts[1].value, [1, 1][1..]) by {
        assert Walk(g, texts, a, texts[1].value, [1, 1][1..][1..]);
      }
    }
    assert [1, 1][0] == [1, 1][1] && !NoRepeats([1, 1]);
  }

  lemma BackwardsIsFine(g: Links, texts: Texts, a: string, b: string)
    requires a != b && g.names == [a, b] && texts == TwoTexts(b) && g.find(b) == Some(1)
    ensures NoCycles(g, texts, [1, 0])
  {
    var after := Settled(texts, 1);
    assert Shallow(g, texts, b, texts[1].value, 0) && Shallow(g, after, a, Plain(""), 0);
    assert Shallow(g, after, a, after[0].value.rest, 1) && Shallow(g, after, a, after[0].value, 1);
    forall path | Walk(g, texts, b, texts[1].value, path) && !NoRepeats(path) ensures false {
      RepeatIsDeep(g, texts, b, texts[1].value, path, 0);
    }
    forall path | Walk(g, after, a, after[0].value, path) && !NoRepeats(path) ensures false {
      RepeatIsDeep(g, after, a, after[0].value, path, 1);
    }
    assert [1, 0][1..] == [0] && [0][1..] == [];
  }
}
