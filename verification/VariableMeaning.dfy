/**
 What expansion means: full substitution from the original configuration, in whatever order the settings are
 rewritten in place.
 */
module VariableMeaning {
  import opened Wrappers
  import opened Text
  import opened Codecs
  import opened Variables

  // ---------------------------------------------------------------- templates

  /** A setting as written: literal text, then references each followed by more text. */
  datatype Template = Plain(lit: string) | Refer(lit: string, name: string, rest: Template)

  function Shown(t: Template): string {
    match t
    case Plain(lit) => lit
    case Refer(lit, name, rest) => lit + ("$(" + name + ")" + Shown(rest))
  }

  /** Literals are free of '$', names of '$' and ')'. */
  predicate Clean(t: Template) {
    '$' !in t.lit && (t.Refer? ==> '$' !in t.name && ')' !in t.name && Clean(t.rest))
  }

  function Append(a: Template, b: Template): Template {
    match a
    case Plain(lit) => (match b case Plain(l) => Plain(lit + l) case Refer(l, n, r) => Refer(lit + l, n, r))
    case Refer(lit, name, rest) => Refer(lit, name, Append(rest, b))
  }

  /** The original configuration, as templates, with a rank that falls along references. */
  datatype Model = Model(names: seq<string>, templates: seq<Option<Template>>, find: string -> Option<nat>,
                         env: string -> Option<string>, rank: seq<nat>, top: nat)

  /** The setting a name refers to, if any, in a setting with the given leaf name: it does not refer to itself. */
  function Target(m: Model, own: string, name: string): Option<nat> {
    if name == own then None else m.find(name)
  }

  predicate InModel(m: Model, i: nat) {
    i < |m.names| && i < |m.templates| && i < |m.rank| && m.templates[i].Some?
  }

  /** Every name resolves: to a string setting of a rank below k, or to the environment. */
  predicate Below(m: Model, own: string, t: Template, k: nat) {
    t.Refer? ==>
      && (match Target(m, own, t.name)
          case Some(j) => InModel(m, j) && m.rank[j] < k
          case None => m.env(t.name).Some? && '$' !in m.env(t.name).value)
      && Below(m, own, t.rest, k)
  }

  /** The hypotheses on a configuration that make it acyclic and resolvable. */
  ghost predicate Sound(m: Model) {
    && |m.names| == |m.templates| == |m.rank|
    && (forall path :: m.find(path).Some? ==> m.find(path).value < |m.templates|)
    && forall i :: 0 <= i < |m.templates| && m.templates[i].Some? ==>
         && Clean(m.templates[i].value) && Below(m, m.names[i], m.templates[i].value, m.rank[i])
         && m.rank[i] < m.top
  }

  // ---------------------------------------------------------------- full substitution

  function Meaning(m: Model, own: string, t: Template, k: nat): string
    requires Sound(m) && Below(m, own, t, k)
    decreases k, 1, t
  {
    match t
    case Plain(lit) => lit
    case Refer(lit, name, rest) => lit + (Stands(m, own, name, k) + Meaning(m, own, rest, k))
  }

  /** What a name stands for: the full value of a setting, or what the environment holds. */
  function Stands(m: Model, own: string, name: string, k: nat): string
    requires Sound(m) && Below(m, own, Refer("", name, Plain("")), k)
    decreases k, 0
  {
    match Target(m, own, name)
    case Some(j) => Full(m, j)
    case None => m.env(name).value
  }

  /**
   The value of a setting: every reference replaced by the value it stands for, from the original configuration. A
   reference to the setting's own leaf name stands for the environment's value.
   */
  function Full(m: Model, i: nat): string
    requires Sound(m) && InModel(m, i)
    decreases m.rank[i], 2
  {
    Meaning(m, m.names[i], m.templates[i].value, m.rank[i])
  }

  /** How many rewritings a text needs at most. */
  function Weight(m: Model, own: string, t: Template, k: nat): nat
    requires Sound(m) && Below(m, own, t, k)
    decreases k, 0, t
  {
    match t
    case Plain(_) => 0
    case Refer(_, name, rest) =>
      1 + (match Target(m, own, name) case Some(j) => FullWeight(m, j) case None => 0) + Weight(m, own, rest, k)
  }

  function FullWeight(m: Model, i: nat): nat
    requires Sound(m) && InModel(m, i)
    decreases m.rank[i], 1
  {
    Weight(m, m.names[i], m.templates[i].value, m.rank[i])
  }

  // ---------------------------------------------------------------- texts copied into another setting

  /** Every reference of a text means the same in a setting called a as in one called b. */
  predicate SameTargets(m: Model, a: string, b: string, t: Template) {
    t.Refer? ==> Target(m, a, t.name) == Target(m, b, t.name) && SameTargets(m, a, b, t.rest)
  }

  /**
   No setting met on the way from a text changes its meaning by being copied into a setting with the given leaf
   name: neither that name nor the met setting's own name is referred to there, unless no setting has that name.
   */
  predicate Stable(m: Model, own: string, t: Template, k: nat)
    decreases k, t
  {
    t.Refer? ==>
      && (match Target(m, own, t.name)
          case None => true
          case Some(j) =>
            && InModel(m, j) && m.rank[j] < k
            && SameTargets(m, own, m.names[j], m.templates[j].value)
            && Stable(m, own, m.templates[j].value, m.rank[j]))
      && Stable(m, own, t.rest, k)
  }

  /**
   Each setting may be expanded by copying from the others. A setting may refer to its own leaf name, for the
   environment's value, as long as no setting of another name reaches it.
   */
  predicate Undisturbed(m: Model) {
    forall i :: 0 <= i < |m.names| && InModel(m, i) ==> Stable(m, m.names[i], m.templates[i].value, m.rank[i])
  }

  /** A text whose references mean the same in two settings has the same meaning in both. */
  lemma {:induction false} SameMeaning(m: Model, a: string, b: string, t: Template, k: nat)
    requires Sound(m) && SameTargets(m, a, b, t) && Below(m, b, t, k)
    ensures Below(m, a, t, k) && Meaning(m, a, t, k) == Meaning(m, b, t, k)
    ensures Weight(m, a, t, k) == Weight(m, b, t, k)
  {
    if t.Refer? {
      SameMeaning(m, a, b, t.rest, k);
    }
  }

  /** The bound on the ranks does not matter once all are below it. */
  lemma {:induction false} AnyBound(m: Model, own: string, t: Template, k: nat, l: nat)
    requires Sound(m) && Below(m, own, t, k) && k <= l
    ensures Below(m, own, t, l) && Meaning(m, own, t, l) == Meaning(m, own, t, k)
    ensures Weight(m, own, t, l) == Weight(m, own, t, k)
    ensures Stable(m, own, t, k) ==> Stable(m, own, t, l)
  {
    if t.Refer? {
      AnyBound(m, own, t.rest, k, l);
    }
  }

  // ---------------------------------------------------------------- joining templates

  lemma {:induction false} AppendFacts(m: Model, own: string, a: Template, b: Template, k: nat)
    requires Sound(m) && Below(m, own, a, k) && Below(m, own, b, k)
    ensures Below(m, own, Append(a, b), k)
    ensures Weight(m, own, Append(a, b), k) == Weight(m, own, a, k) + Weight(m, own, b, k)
    ensures Stable(m, own, Append(a, b), k) <==> Stable(m, own, a, k) && Stable(m, own, b, k)
    ensures Clean(a) && Clean(b) ==> Clean(Append(a, b))
  {
    if a.Refer? {
      AppendFacts(m, own, a.rest, b, k);
    }
  }

  lemma {:induction false} AppendShown(a: Template, b: Template)
    ensures Shown(Append(a, b)) == Shown(a) + Shown(b)
  {
    match a {
      case Plain(lit) =>
        if b.Refer? {
          Regroup3(lit, b.lit, "$(" + b.name + ")" + Shown(b.rest));
        }
      case Refer(lit, name, rest) =>
        AppendShown(rest, b);
        Regroup3("$(" + name + ")", Shown(rest), Shown(b));
        Regroup3(lit, "$(" + name + ")" + Shown(rest), Shown(b));
    }
  }

  lemma {:induction false} AppendMeaning(m: Model, own: string, a: Template, b: Template, k: nat)
    requires Sound(m) && Below(m, own, a, k) && Below(m, own, b, k)
    ensures Below(m, own, Append(a, b), k)
    ensures Meaning(m, own, Append(a, b), k) == Meaning(m, own, a, k) + Meaning(m, own, b, k)
  {
    match a {
      case Plain(lit) =>
        if b.Refer? {
          Regroup3(lit, b.lit, Meaning(m, own, b, k)[|b.lit|..]);
          assert Meaning(m, own, b, k) == b.lit + Meaning(m, own, b, k)[|b.lit|..];
        }
      case Refer(lit, name, rest) =>
        AppendMeaning(m, own, rest, b, k);
        var value := Stands(m, own, name, k);
        Regroup3(value, Meaning(m, own, rest, k), Meaning(m, own, b, k));
        Regroup3(lit, value + Meaning(m, own, rest, k), Meaning(m, own, b, k));
    }
  }

  /** Full values have no '$' left. */
  lemma {:induction false} MeaningIsClean(m: Model, own: string, t: Template, k: nat)
    requires Sound(m) && Below(m, own, t, k) && Clean(t)
    ensures '$' !in Meaning(m, own, t, k)
    decreases k, t
  {
    if t.Refer? {
      MeaningIsClean(m, own, t.rest, k);
      if Target(m, own, t.name).Some? {
        var j := Target(m, own, t.name).value;
        MeaningIsClean(m, m.names[j], m.templates[j].value, m.rank[j]);
      }
      assert '$' !in Stands(m, own, t.name, k);
    }
  }

  // ---------------------------------------------------------------- the configuration under way

  /** A configuration in which some settings have their full value and the others are as they were. */
  ghost predicate UnderWay(m: Model, c: Config)
    requires Sound(m)
  {
    && c.Valid() && c.names == m.names && c.find == m.find && c.env == m.env && |c.values| == |m.templates|
    && forall i :: 0 <= i < |c.values| ==>
         if m.templates[i].None? then c.values[i].Other?
         else c.values[i].Str? && (c.values[i].text == Shown(m.templates[i].value) || c.values[i].text == Full(m, i))
  }

  /** The template of the text a name stands for at this moment. */
  ghost function Present(m: Model, c: Config, own: string, name: string): Template
    requires Sound(m) && UnderWay(m, c) && (Target(m, own, name).Some? ==> InModel(m, Target(m, own, name).value))
    requires Target(m, own, name).None? ==> m.env(name).Some?
  {
    match Target(m, own, name)
    case None => Plain(m.env(name).value)
    case Some(j) => if c.values[j].text == Shown(m.templates[j].value) then m.templates[j].value else Plain(Full(m, j))
  }

  lemma PresentFacts(m: Model, c: Config, own: string, t: Template)
    requires Sound(m) && UnderWay(m, c) && t.Refer? && Below(m, own, t, m.top) && Stable(m, own, t, m.top)
    ensures var p := Present(m, c, own, t.name);
            && Clean(p) && Below(m, own, p, m.top) && Stable(m, own, p, m.top)
            && Meaning(m, own, p, m.top) == Stands(m, own, t.name, m.top)
            && Weight(m, own, p, m.top) <=
               match Target(m, own, t.name) case Some(j) => FullWeight(m, j) case None => 0
  {
    if Target(m, own, t.name).Some? {
      var j := Target(m, own, t.name).value;
      var there := m.templates[j].value;
      SameMeaning(m, own, m.names[j], there, m.rank[j]);
      AnyBound(m, own, there, m.rank[j], m.top);
      MeaningIsClean(m, m.names[j], there, m.rank[j]);
    }
  }

  // ---------------------------------------------------------------- one rewriting

  lemma {:induction false} NoReference(s: string, start: nat)
    requires start <= |s| && '$' !in s
    ensures FindReference(s, start) == |s|
    decreases |s| - start
  {
    if start + 2 <= |s| {
      NoReference(s, start + 1);
    }
  }

  lemma {:induction false} FirstReference(s: string, n: nat, start: nat)
    requires start <= n && n + 2 <= |s| && s[n] == '$' && s[n + 1] == '(' && forall k :: 0 <= k < n ==> s[k] != '$'
    ensures FindReference(s, start) == n
    decreases n - start
  {
    if start < n {
      FirstReference(s, n, start + 1);
    }
  }

  lemma ReferenceParts(lit: string, name: string, rest: string)
    requires '$' !in lit && ')' !in name
    ensures var s := lit + ("$(" + name + ")" + rest);
            var p1, p2 := |lit|, |lit| + 2 + |name|;
            && FindReference(s, 0) == p1 < |s| && p2 < |s| && Find(s, ')', p1 + 1) == p2
            && s[..p1] == lit && s[p1 + 2..p2] == name && s[p2 + 1..] == rest
  {
    var s := lit + ("$(" + name + ")" + rest);
    var p1, p2 := |lit|, |lit| + 2 + |name|;
    assert s[p1] == '$' && s[p1 + 1] == '(' && s[p2] == ')';
    assert forall k :: 0 <= k < p1 ==> s[k] == lit[k];
    assert forall k :: p1 + 2 <= k < p2 ==> s[k] == name[k - p1 - 2];
    FirstReference(s, p1, 0);
    assert s[p2 + 1..] == rest;
  }

  lemma RewriteAt(c: Config, i: nat, lit: string, name: string, rest: string, value: string)
    requires c.Valid() && i < |c.values| && '$' !in lit && ')' !in name && Resolved(c, i, name) == Some(value)
    ensures Rewrite(c, i, lit + ("$(" + name + ")" + rest)) == Next(lit + value + rest)
  {
    ReferenceParts(lit, name, rest);
    SplitRewrite(c, i, lit + ("$(" + name + ")" + rest), |lit|, |lit| + 2 + |name|, name, value);
  }

  lemma SplitRewrite(c: Config, i: nat, s: string, p1: nat, p2: nat, name: string, value: string)
    requires c.Valid() && i < |c.values| && p1 + 2 <= p2 < |s|
    requires FindReference(s, 0) == p1 && Find(s, ')', p1 + 1) == p2 && s[p1 + 2..p2] == name
    requires Resolved(c, i, name) == Some(value)
    ensures Rewrite(c, i, s) == Next(s[..p1] + value + s[p2 + 1..])
  {
  }

  /** The template after one rewriting of the first reference. */
  ghost function Rewritten(m: Model, c: Config, own: string, t: Template): Template
    requires Sound(m) && UnderWay(m, c) && t.Refer? && Below(m, own, t, m.top)
  {
    Append(Plain(t.lit), Append(Present(m, c, own, t.name), t.rest))
  }

  lemma PresentResolves(m: Model, c: Config, i: nat, t: Template)
    requires Sound(m) && UnderWay(m, c) && i < |c.values| && t.Refer?
    requires Below(m, m.names[i], t, m.top) && Stable(m, m.names[i], t, m.top)
    ensures Resolved(c, i, t.name) == Some(Shown(Present(m, c, m.names[i], t.name)))
  {
  }

  lemma RewriteText(m: Model, c: Config, i: nat, t: Template)
    requires Sound(m) && UnderWay(m, c) && i < |c.values| && t.Refer? && Clean(t)
    requires Below(m, m.names[i], t, m.top) && Stable(m, m.names[i], t, m.top)
    ensures Rewrite(c, i, Shown(t)) == Next(Shown(Rewritten(m, c, m.names[i], t)))
  {
    var p := Present(m, c, m.names[i], t.name);
    PresentResolves(m, c, i, t);
    RewriteAt(c, i, t.lit, t.name, Shown(t.rest), Shown(p));
    AppendShown(p, t.rest);
    AppendShown(Plain(t.lit), Append(p, t.rest));
    Regroup3(t.lit, Shown(p), Shown(t.rest));
  }

  lemma RewriteMeaning(m: Model, c: Config, i: nat, t: Template)
    requires Sound(m) && UnderWay(m, c) && i < |c.values| && t.Refer? && Clean(t)
    requires Below(m, m.names[i], t, m.top) && Stable(m, m.names[i], t, m.top)
    ensures var r := Rewritten(m, c, m.names[i], t);
            && Clean(r) && Below(m, m.names[i], r, m.top) && Stable(m, m.names[i], r, m.top)
            && Meaning(m, m.names[i], r, m.top) == Meaning(m, m.names[i], t, m.top)
            && Weight(m, m.names[i], r, m.top) < Weight(m, m.names[i], t, m.top)
  {
    var p := Present(m, c, m.names[i], t.name);
    PresentFacts(m, c, m.names[i], t);
    AppendFacts(m, m.names[i], p, t.rest, m.top);
    AppendFacts(m, m.names[i], Plain(t.lit), Append(p, t.rest), m.top);
    AppendMeaning(m, m.names[i], p, t.rest, m.top);
    AppendMeaning(m, m.names[i], Plain(t.lit), Append(p, t.rest), m.top);
  }

  // ---------------------------------------------------------------- the loop

  lemma RunNext(c: Config, i: nat, val: string, next: string, n: nat)
    requires c.Valid() && i < |c.values| && n > 0 && Rewrite(c, i, val) == Next(next)
    ensures Run(c, i, val, n) == Run(c, i, next, n - 1)
  {
  }

  lemma RunDone(c: Config, i: nat, val: string, n: nat)
    requires c.Valid() && i < |c.values| && '$' !in val
    ensures Run(c, i, val, n) == Some(Success(val))
  {
    NoReference(val, 0);
  }

  lemma OneRewriting(m: Model, c: Config, i: nat, t: Template, n: nat) returns (next: Template)
    requires Sound(m) && UnderWay(m, c) && i < |c.values| && Clean(t) && t.Refer?
    requires Below(m, m.names[i], t, m.top) && Stable(m, m.names[i], t, m.top)
    requires Weight(m, m.names[i], t, m.top) <= n
    ensures Clean(next) && Below(m, m.names[i], next, m.top) && Stable(m, m.names[i], next, m.top)
    ensures Meaning(m, m.names[i], next, m.top) == Meaning(m, m.names[i], t, m.top)
    ensures Weight(m, m.names[i], next, m.top) < Weight(m, m.names[i], t, m.top)
    ensures Run(c, i, Shown(t), n) == Run(c, i, Shown(next), n - 1)
  {
    RewriteText(m, c, i, t);
    RewriteMeaning(m, c, i, t);
    next := Rewritten(m, c, m.names[i], t);
    RunNext(c, i, Shown(t), Shown(next), n);
  }

  /** The loop ends within the weight of the text, and what it ends with is the meaning of the text. */
  lemma {:induction false} LoopEnds(m: Model, c: Config, i: nat, t: Template, n: nat)
    requires Sound(m) && UnderWay(m, c) && i < |c.values| && Clean(t)
    requires Below(m, m.names[i], t, m.top) && Stable(m, m.names[i], t, m.top)
    requires Weight(m, m.names[i], t, m.top) <= n
    ensures Run(c, i, Shown(t), n) == Some(Success(Meaning(m, m.names[i], t, m.top)))
    decreases n
  {
    if t.Plain? {
      RunDone(c, i, t.lit, n);
    } else {
      var next := OneRewriting(m, c, i, t, n);
      LoopEnds(m, c, i, next, n - 1);
    }
  }

  /** One setting: from wherever the others are, it gets its full value. */
  lemma SettingExpands(m: Model, c: Config, i: nat, n: nat)
    requires Sound(m) && Undisturbed(m) && UnderWay(m, c) && InModel(m, i) && i < |c.values| && FullWeight(m, i) <= n
    ensures Run(c, i, c.values[i].text, n) == Some(Success(Full(m, i)))
    ensures UnderWay(m, c.(values := c.values[i := Str(Full(m, i))]))
  {
    var t := m.templates[i].value;
    if c.values[i].text == Shown(t) {
      AnyBound(m, m.names[i], t, m.rank[i], m.top);
      LoopEnds(m, c, i, t, n);
    } else {
      MeaningIsClean(m, m.names[i], t, m.rank[i]);
      RunDone(c, i, Full(m, i), n);
    }
  }

  // ---------------------------------------------------------------- the theorem

  /** The original configuration. */
  function Original(m: Model): Config
    requires |m.names| == |m.templates|
  {
    Config(m.names, seq(|m.templates|, i requires 0 <= i < |m.templates| =>
             if m.templates[i].None? then Other else Str(Shown(m.templates[i].value))), m.find, m.env)
  }

  predicate InOrder(m: Model, order: seq<nat>) {
    forall k :: 0 <= k < |order| ==> order[k] < |m.templates|
  }

  ghost predicate Enough(m: Model, n: nat)
    requires Sound(m)
  {
    forall i :: InModel(m, i) ==> FullWeight(m, i) <= n
  }

  /** Settings of the order end with their full value; the others are left as they are. */
  lemma {:induction false} ExpansionInOrder(m: Model, c: Config, order: seq<nat>, n: nat)
    requires Sound(m) && Undisturbed(m) && UnderWay(m, c) && InOrder(m, order) && Enough(m, n)
    ensures var r := RunIn(c, order, n);
            && r.Some? && r.value.Success? && UnderWay(m, r.value.value)
            && forall i :: 0 <= i < |c.values| ==>
                 r.value.value.values[i] == if i in order && m.templates[i].Some? then Str(Full(m, i)) else c.values[i]
    decreases |order|
  {
    if order != [] {
      var i := order[0];
      if m.templates[i].None? {
        ExpansionInOrder(m, c, order[1..], n);
      } else {
        assert InModel(m, i);
        SettingExpands(m, c, i, n);
        ExpansionInOrder(m, c.(values := c.values[i := Str(Full(m, i))]), order[1..], n);
      }
      assert forall k :: k in order <==> k == i || k in order[1..];
    }
  }

  /**
   Expansion terminates and means full substitution: in any order that visits every setting, each string setting
   ends with the value substituted from the original configuration, and no reference is left.
   */
  lemma ExpansionIsSubstitution(m: Model, order: seq<nat>, n: nat)
    requires Sound(m) && Undisturbed(m) && InOrder(m, order) && Enough(m, n)
    requires forall i :: 0 <= i < |m.templates| ==> i in order
    ensures var r := RunIn(Original(m), order, n);
            && r.Some? && r.value.Success? && |r.value.value.values| == |m.templates|
            && forall i :: 0 <= i < |m.templates| && m.templates[i].Some? ==>
                 r.value.value.values[i] == Str(Full(m, i)) && '$' !in Full(m, i)
                 && FindReference(Full(m, i), 0) == |Full(m, i)|
  {
    ExpansionInOrder(m, Original(m), order, n);
    forall i | 0 <= i < |m.templates| && m.templates[i].Some?
      ensures '$' !in Full(m, i) && FindReference(Full(m, i), 0) == |Full(m, i)|
    {
      MeaningIsClean(m, m.names[i], m.templates[i].value, m.rank[i]);
      NoReference(Full(m, i), 0);
    }
  }

  lemma {:induction false} TreeOrderVisits(n: nat, from_: nat)
    requires from_ <= n
    ensures forall i :: from_ <= i < n ==> i in TreeOrder(n, from_)
    decreases n - from_
  {
    if from_ < n {
      TreeOrderVisits(n, from_ + 1);
    }
  }

  /** A bound on the rewritings of any one setting. */
  lemma {:induction false} BoundExists(m: Model, k: nat) returns (n: nat)
    requires Sound(m) && k <= |m.templates|
    ensures forall i :: 0 <= i < k && InModel(m, i) ==> FullWeight(m, i) <= n
  {
    n := 0;
    if k > 0 {
      n := BoundExists(m, k - 1);
      if InModel(m, k - 1) && FullWeight(m, k - 1) > n {
        n := FullWeight(m, k - 1);
      }
    }
  }

  /** So the program's own order, the tree order, gives the same values as any other. */
  lemma TreeOrderIsAnyOrder(m: Model, order: seq<nat>) returns (n: nat)
    requires Sound(m) && Undisturbed(m) && InOrder(m, order) && forall i :: 0 <= i < |m.templates| ==> i in order
    ensures RunIn(Original(m), TreeOrder(|m.templates|, 0), n).Some?
    ensures RunIn(Original(m), order, n) == RunIn(Original(m), TreeOrder(|m.templates|, 0), n)
  {
    n := BoundExists(m, |m.templates|);
    var tree := TreeOrder(|m.templates|, 0);
    TreeOrderVisits(|m.templates|, 0);
    ExpansionInOrder(m, Original(m), order, n);
    ExpansionInOrder(m, Original(m), tree, n);
    var a, b := RunIn(Original(m), order, n).value.value, RunIn(Original(m), tree, n).value.value;
    assert a.values == b.values;
  }

  // ---------------------------------------------------------------- a setting that reaches its own name

  function Reference(name: string): string {
    "$(" + name + ")"
  }

  lemma RewritesToItself(c: Config, i: nat, name: string)
    requires c.Valid() && i < |c.values| && ')' !in name && Resolved(c, i, name) == Some(Reference(name))
    ensures Rewrite(c, i, Reference(name)) == Next(Reference(name))
  {
    var s := Reference(name);
    RewriteAt(c, i, "", name, "", s);
    assert "" + (s + "") == s && "" + s + "" == s;
  }

  lemma {:induction false} SelfRewriteLoops(c: Config, i: nat, val: string, n: nat)
    requires c.Valid() && i < |c.values| && Rewrite(c, i, val) == Next(val)
    ensures Run(c, i, val, n) == None
    decreases n
  {
    if n > 0 {
      SelfRewriteLoops(c, i, val, n - 1);
    }
  }

  /** The configuration with the one setting name = "$(name)", and an environment that holds the name. */
  function Alone(name: string, value: string): Model {
    Model([name], [Some(Refer("", name, Plain("")))], path => if path == name then Some(0) else None,
          path => if path == name then Some(value) else None, [0], 1)
  }

  /**
   A setting such as USER = "$(USER)" is meant for the environment, although its name is a setting. It meets all
   hypotheses, and one rewriting ends it with the environment's value.
   */
  lemma OwnNameIsEnvironment(name: string, value: string)
    requires '$' !in name && ')' !in name && '$' !in value
    ensures var m := Alone(name, value);
            && Sound(m) && Undisturbed(m) && m.find(name) == Some(0) && FullWeight(m, 0) == 1 && Full(m, 0) == value
            && Run(Original(m), 0, Reference(name), 1) == Some(Success(value))
  {
    var m := Alone(name, value);
    var t := Refer("", name, Plain(""));
    assert Below(m, name, t, 0) && Below(m, name, t.rest, 0);
    assert Stable(m, name, t, 0) && Stable(m, name, t.rest, 0);
    assert Stands(m, name, name, 0) == value;
    assert Meaning(m, name, t.rest, 0) == "";
    assert Full(m, 0) == "" + (value + "") == value;
    assert Weight(m, name, t, 0) == 1;
    assert Shown(t) == "" + ("$(" + name + ")" + "") == Reference(name);
    SettingExpands(m, Original(m), 0, 1);
  }

  /**
   Another setting that refers to such a setting, and comes first, rewrites its own text to itself for ever.
   */
  lemma OwnNameLoops(c: Config, i: nat, name: string, n: nat)
    requires c.Valid() && i < |c.values| && ')' !in name && c.names[i] != name && c.find(name).Some?
    requires c.values[c.find(name).value] == Str(Reference(name))
    ensures Run(c, i, Reference(name), n) == None
  {
    RewritesToItself(c, i, name);
    SelfRewriteLoops(c, i, Reference(name), n);
  }
}
