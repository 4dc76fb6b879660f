/**
 Expansion of $(name) in the string settings of a configuration: a loop that rewrites the first reference until
 none is left, run on one setting after the other, in place.
 */
module Variables {
  import opened Wrappers
  import opened Codecs

  /** A setting is a string, or something that is not: a number, a group, a list. */
  datatype Value = Str(text: string) | Other

  /**
   The settings in tree order, each with its leaf name. How a path is looked up and what the environment holds are
   parameters.
   */
  datatype Config = Config(names: seq<string>, values: seq<Value>, find: string -> Option<nat>, env: string -> Option<string>) {
    ghost predicate Valid() {
      |names| == |values| && forall path :: find(path).Some? ==> find(path).value < |values|
    }
  }

  // ---------------------------------------------------------------- one rewriting step

  datatype Step = Done | Next(text: string) | Error

  /** Position of the first "$(" at or after `start`, or the length when there is none. */
  function FindReference(s: string, start: nat): (i: nat)
    requires start <= |s|
    ensures start <= i <= |s|
    decreases |s| - start
  {
    if start + 2 > |s| then |s|
    else if s[start] == '$' && s[start + 1] == '(' then start
    else FindReference(s, start + 1)
  }

  /** The value of a name, seen from setting i: a name that is the leaf name of the setting is not looked up in it. */
  function Resolved(c: Config, i: nat, name: string): Option<string>
    requires c.Valid() && i < |c.values|
  {
    if name != c.names[i] && c.find(name).Some? then
      match c.values[c.find(name).value]
      case Str(text) => Some(text)
      case Other => None
    else c.env(name)
  }

  function Rewrite(c: Config, i: nat, val: string): Step
    requires c.Valid() && i < |c.values|
  {
    var p1 := FindReference(val, 0);
    if p1 == |val| then Done
    else
      var p2 := Find(val, ')', p1 + 1);
      if p2 == |val| || p2 < p1 + 2 then Error
      else
        match Resolved(c, i, val[p1 + 2..p2])
        case None => Error
        case Some(value) => Next(val[..p1] + value + val[p2 + 1..])
  }

  /** The loop, cut off after n rewritings. */
  function Run(c: Config, i: nat, val: string, n: nat): Option<Result<string>>
    requires c.Valid() && i < |c.values|
    decreases n
  {
    match Rewrite(c, i, val)
    case Done => Some(Success(val))
    case Error => Some(Thrown)
    case Next(text) => if n == 0 then None else Run(c, i, text, n - 1)
  }

  /** Settings expanded in place, in the given order; other settings are left alone. */
  function RunIn(c: Config, order: seq<nat>, n: nat): Option<Result<Config>>
    requires c.Valid() && forall k :: 0 <= k < |order| ==> order[k] < |c.values|
    decreases |order|
  {
    if order == [] then Some(Success(c))
    else if c.values[order[0]].Other? then RunIn(c, order[1..], n)
    else
      match Run(c, order[0], c.values[order[0]].text, n)
      case None => None
      case Some(Thrown) => Some(Thrown)
      case Some(Success(text)) => RunIn(c.(values := c.values[order[0] := Str(text)]), order[1..], n)
  }

  function TreeOrder(n: nat, from_: nat): (order: seq<nat>)
    requires from_ <= n
    ensures |order| == n - from_ && forall k :: 0 <= k < |order| ==> order[k] == from_ + k < n
    decreases n - from_
  {
    if from_ == n then [] else [from_] + TreeOrder(n, from_ + 1)
  }

  // ---------------------------------------------------------------- the object

  class Configuration {
    const names: seq<string>
    const find: string -> Option<nat>
    const env: string -> Option<string>
    var values: seq<Value>

    function View(): Config
      reads this
    {
      Config(names, values, find, env)
    }

    constructor (c: Config)
      ensures View() == c
    {
      names, find, env, values := c.names, c.find, c.env, c.values;
    }

    /** The body of the loop. */
    method RewriteOnce(i: nat, val: string) returns (step: Step)
      requires View().Valid() && i < |values|
      ensures step == Rewrite(View(), i, val)
    {
      var p1 := FindReference(val, 0);
      if p1 == |val| {
        return Done;
      }
      ReferenceAt(val, 0);
      var p2 := Find(val, ')', p1 + 1);
      if p2 == |val| {
        return Error;
      }
      var name := val[p1 + 2..p2];
      var value;
      if name != names[i] && find(name).Some? {
        var setting := values[find(name).value];
        if setting.Other? {
          return Error;
        }
        value := setting.text;
      } else {
        var found := env(name);
        if found.None? {
          return Error;
        }
        value := found.value;
      }
      return Next(val[..p1] + value + val[p2 + 1..]);
    }

    /** One string setting; the loop is known to stop within n rewritings. */
    method ExpandSetting(i: nat, ghost n: nat) returns (r: Result<()>)
      requires View().Valid() && i < |values| && values[i].Str? && Run(View(), i, values[i].text, n).Some?
      modifies this`values
      ensures var end := old(Run(View(), i, values[i].text, n)).value;
              && (r.Success? <==> end.Success?)
              && values == if end.Success? then old(values)[i := Str(end.value)] else old(values)
    {
      var val, busy := values[i].text, true;
      ghost var fuel := n;
      while busy
        invariant View() == old(View())
        invariant Run(View(), i, values[i].text, n) == Run(View(), i, val, fuel)
        invariant !busy ==> Rewrite(View(), i, val).Done?
        decreases fuel, busy
      {
        var step := RewriteOnce(i, val);
        match step {
          case Done =>
            busy := false;
          case Error =>
            return Thrown;
          case Next(text) =>
            val := text;
            fuel := fuel - 1;
        }
      }
      values := values[i := Str(val)];
      return Success(());
    }

    /** All settings in tree order. */
    method ExpandVariables(ghost n: nat) returns (r: Result<()>)
      requires View().Valid() && RunIn(View(), TreeOrder(|values|, 0), n).Some?
      modifies this`values
      ensures r.Success? <==> old(RunIn(View(), TreeOrder(|values|, 0), n)).value.Success?
      ensures r.Success? ==> View() == old(RunIn(View(), TreeOrder(|values|, 0), n)).value.value
    {
      ghost var whole := RunIn(View(), TreeOrder(|values|, 0), n);
      ghost var size := |values|;
      var i := 0;
      while i < |values|
        invariant |values| == size && i <= size && View().Valid() && RunIn(View(), TreeOrder(size, i), n) == whole
      {
        assert TreeOrder(size, i)[1..] == TreeOrder(size, i + 1);
        if values[i].Str? {
          var expanded := ExpandSetting(i, n);
          if expanded.Thrown? {
            return Thrown;
          }
        }
        i := i + 1;
      }
      return Success(());
    }
  }

  lemma {:induction false} ReferenceAt(s: string, start: nat)
    requires start <= |s| && FindReference(s, start) < |s|
    ensures var i := FindReference(s, start);
            i + 2 <= |s| && s[i] == '$' && s[i + 1] == '('
    decreases |s| - start
  {
    if start + 2 <= |s| && !(s[start] == '$' && s[start + 1] == '(') {
      ReferenceAt(s, start + 1);
    }
  }

  // ---------------------------------------------------------------- one rewriting, on any text

  /** The text has no reference, not even one that does not end. */
  predicate NoneIn(s: string) {
    forall k :: 0 <= k < |s| - 1 ==> !(s[k] == '$' && s[k + 1] == '(')
  }

  /** The text, split at the start of its first reference. */
  predicate StartsAfter(s: string, before: string, after: string) {
    s == before + "$(" + after && NoneIn(before + "$")
  }

  /** What a name stands for: the string setting it leads to, unless it is the setting's own, or the environment. */
  predicate StandsFor(c: Config, own: string, name: string, value: string)
    requires c.Valid()
  {
    if name == own || c.find(name).None? then c.env(name) == Some(value)
    else c.values[c.find(name).value] == Str(value)
  }

  lemma {:induction false} NoneFound(s: string, start: nat)
    requires start <= |s| && NoneIn(s)
    ensures FindReference(s, start) == |s|
    decreases |s| - start
  {
    if start + 2 <= |s| {
      NoneFound(s, start + 1);
    }
  }

  lemma {:induction false} FoundAt(s: string, n: nat, start: nat)
    requires start <= n && n + 2 <= |s| && s[n] == '$' && s[n + 1] == '('
    requires forall k :: start <= k < n ==> !(s[k] == '$' && s[k + 1] == '(')
    ensures FindReference(s, start) == n
    decreases n - start
  {
    if start < n {
      FoundAt(s, n, start + 1);
    }
  }

  lemma FoundAfter(s: string, before: string, after: string)
    requires StartsAfter(s, before, after)
    ensures FindReference(s, 0) == |before| < |s| && s[..|before|] == before && s[|before| + 2..] == after
  {
    var b := before + "$";
    assert forall k :: 0 <= k < |before| ==> s[k] == b[k];
    forall k | 0 <= k < |before| ensures !(s[k] == '$' && s[k + 1] == '(') {
      assert s[k] == b[k] && s[k + 1] == b[k + 1];
    }
    FoundAt(s, |before|, 0);
  }

  lemma FirstClosing(s: string, p: nat, after: string)
    requires p + 2 <= |s| && s[p + 1] == '(' && s[p + 2..] == after
    ensures ')' !in after <==> Find(s, ')', p + 1) == |s|
    ensures ')' in after ==> var q := Find(s, ')', p + 1);
              p + 2 <= q < |s| && after == s[p + 2..q] + ")" + s[q + 1..] && ')' !in s[p + 2..q]
  {
    var q := Find(s, ')', p + 1);
    assert forall k :: 0 <= k < |after| ==> after[k] == s[p + 2 + k];
    if q < |s| {
      assert after[q - p - 2] == ')';
    }
  }

  /**
   One pass of the loop body, on any text: done when there is no reference; an error when the first one does not end,
   or its name stands for nothing; otherwise that reference is replaced, and nothing else.
   */
  lemma RewriteExactly(c: Config, i: nat, s: string)
    requires c.Valid() && i < |c.values|
    ensures NoneIn(s) ==> Rewrite(c, i, s) == Done
    ensures forall before, after :: StartsAfter(s, before, after) && ')' !in after ==> Rewrite(c, i, s) == Error
    ensures forall before, name, rest, value ::
              StartsAfter(s, before, name + ")" + rest) && ')' !in name && StandsFor(c, c.names[i], name, value)
              ==> Rewrite(c, i, s) == Next(before + value + rest)
    ensures forall before, name, rest ::
              StartsAfter(s, before, name + ")" + rest) && ')' !in name
              && (forall value :: !StandsFor(c, c.names[i], name, value))
              ==> Rewrite(c, i, s) == Error
  {
    if NoneIn(s) {
      NoneFound(s, 0);
    }
    forall before, after | StartsAfter(s, before, after) && ')' !in after ensures Rewrite(c, i, s) == Error {
      FoundAfter(s, before, after);
      FirstClosing(s, |before|, after);
    }
    forall before, name, rest | StartsAfter(s, before, name + ")" + rest) && ')' !in name
      ensures match Resolved(c, i, name)
              case None => Rewrite(c, i, s) == Error
              case Some(value) => Rewrite(c, i, s) == Next(before + value + rest)
    {
      RewriteFirst(c, i, s, before, name, rest);
    }
    forall name, value ensures StandsFor(c, c.names[i], name, value) <==> Resolved(c, i, name) == Some(value) {
    }
  }

  lemma FirstNameAt(s: string, before: string, name: string, rest: string)
    requires StartsAfter(s, before, name + ")" + rest) && ')' !in name
    ensures var p, q := |before|, |before| + 2 + |name|;
            && FindReference(s, 0) == p && q < |s| && s[..p] == before && s[p + 2..q] == name && s[q + 1..] == rest
            && s[q] == ')' && forall k :: p + 1 <= k < q ==> s[k] != ')'
  {
    var after := name + ")" + rest;
    var q := |before| + 2 + |name|;
    FoundAfter(s, before, after);
    assert forall k :: 0 <= k < |after| ==> s[|before| + 2 + k] == after[k];
    assert after[|name|] == ')' && after[..|name|] == name && after[|name| + 1..] == rest;
    assert s[|before| + 2..q] == after[..|name|] && s[q + 1..] == after[|name| + 1..];
    forall k | |before| + 1 <= k < q ensures s[k] != ')' {
      assert k > |before| + 1 ==> s[k] == name[k - |before| - 2];
      assert s[|before| + 1] == '(';
    }
  }

  lemma RewriteFirst(c: Config, i: nat, s: string, before: string, name: string, rest: string)
    requires c.Valid() && i < |c.values| && StartsAfter(s, before, name + ")" + rest) && ')' !in name
    ensures match Resolved(c, i, name)
            case None => Rewrite(c, i, s) == Error
            case Some(value) => Rewrite(c, i, s) == Next(before + value + rest)
  {
    var p, q := |before|, |before| + 2 + |name|;
    FirstNameAt(s, before, name, rest);
    ClosingAt(s, p, q);
    RewriteParts(c, i, s, p, q, before, name, rest);
  }

  lemma ClosingAt(s: string, p: nat, q: nat)
    requires p < q < |s| && s[q] == ')' && forall k :: p + 1 <= k < q ==> s[k] != ')'
    ensures Find(s, ')', p + 1) == q
  {
  }

  lemma RewriteParts(c: Config, i: nat, s: string, p: nat, q: nat, before: string, name: string, rest: string)
    requires c.Valid() && i < |c.values| && p + 2 <= q < |s| && FindReference(s, 0) == p && Find(s, ')', p + 1) == q
    requires s[..p] == before && s[p + 2..q] == name && s[q + 1..] == rest
    ensures match Resolved(c, i, name)
            case None => Rewrite(c, i, s) == Error
            case Some(value) => Rewrite(c, i, s) == Next(before + value + rest)
  {
  }

  /** An error ends the loop with an exception, and a text without a reference ends it with itself. */
  lemma RunEnds(c: Config, i: nat, s: string, n: nat)
    requires c.Valid() && i < |c.values|
    ensures Rewrite(c, i, s) == Error ==> Run(c, i, s, n) == Some(Thrown)
    ensures Run(c, i, s, n).Some? && Run(c, i, s, n).value.Success? ==> NoneIn(Run(c, i, s, n).value.value)
    decreases n
  {
    if Rewrite(c, i, s).Next? && n > 0 {
      RunEnds(c, i, Rewrite(c, i, s).text, n - 1);
    } else if Rewrite(c, i, s).Done? {
      NothingLeft(s, 0);
    }
  }

  lemma {:induction false} NothingLeft(s: string, start: nat)
    requires start <= |s| && FindReference(s, start) == |s|
    ensures forall k :: start <= k < |s| - 1 ==> !(s[k] == '$' && s[k + 1] == '(')
    decreases |s| - start
  {
    if start + 2 <= |s| {
      NothingLeft(s, start + 1);
    }
  }
}
