/**
 Engine teardown: engines are shared objects that may hold one another. Up to twenty passes erase those whose
 only reference is the registry's own; erasing an engine drops the references it holds.
 */
module Engines {
  type Name = string

  /** Who holds whom and how many times, and how many references come from outside the registry. */
  datatype References = References(holds: map<Name, multiset<Name>>, outside: map<Name, nat>)

  function Held(refs: References, holder: Name, e: Name): nat {
    if holder in refs.holds then refs.holds[holder][e] else 0
  }

  function HeldByAll(refs: References, live: seq<Name>, e: Name): nat {
    if live == [] then 0 else Held(refs, live[0], e) + HeldByAll(refs, live[1..], e)
  }

  /** use_count of a registered engine while exactly the engines in `live` exist. */
  function UseCount(refs: References, live: seq<Name>, e: Name): nat {
    1 + (if e in refs.outside then refs.outside[e] else 0) + HeldByAll(refs, live, e)
  }

  function Without(live: seq<Name>, i: nat): seq<Name>
    requires i < |live|
  {
    live[..i] + live[i + 1..]
  }

  /** One pass over the registry from position i on. */
  function Pass(refs: References, live: seq<Name>, i: nat): (rest: seq<Name>)
    requires i <= |live|
    ensures |rest| <= |live|
    decreases |live| - i
  {
    if i == |live| then live
    else if UseCount(refs, live, live[i]) > 1 then Pass(refs, live, i + 1)
    else Pass(refs, Without(live, i), i)
  }

  /** What the loop of n passes leaves; it gives up after a pass that erases nothing. */
  function Teardown(refs: References, live: seq<Name>, n: nat): seq<Name>
    decreases n
  {
    if n == 0 then live
    else
      var rest := Pass(refs, live, 0);
      if rest != [] && |rest| == |live| then rest else Teardown(refs, rest, n - 1)
  }

  const MAX_PASSES: nat := 20

  class Reactor {
    const refs: References
    var itsSingletons: seq<Name>

    constructor (r: References, engines: seq<Name>)
      ensures refs == r && itsSingletons == engines
    {
      refs := r;
      itsSingletons := engines;
    }

    method DestroyPass() returns (deleted: nat)
      modifies this`itsSingletons
      ensures itsSingletons == Pass(refs, old(itsSingletons), 0)
      ensures deleted == |old(itsSingletons)| - |itsSingletons|
    {
      deleted := 0;
      var i := 0;
      while i < |itsSingletons|
        invariant i <= |itsSingletons|
        invariant Pass(refs, itsSingletons, i) == Pass(refs, old(itsSingletons), 0)
        invariant deleted == |old(itsSingletons)| - |itsSingletons|
        decreases |itsSingletons| - i
      {
        if UseCount(refs, itsSingletons, itsSingletons[i]) > 1 {
          i := i + 1;
        } else {
          itsSingletons := Without(itsSingletons, i);
          deleted := deleted + 1;
        }
      }
    }

    /** `forced` are the engines that only the final clear of the registry releases. */
    method DestroyEngines() returns (forced: seq<Name>)
      modifies this`itsSingletons
      ensures itsSingletons == []
      ensures forced == Teardown(refs, old(itsSingletons), MAX_PASSES)
    {
      var cnt := 0;
      while cnt < MAX_PASSES
        invariant cnt <= MAX_PASSES
        invariant Teardown(refs, itsSingletons, MAX_PASSES - cnt) == Teardown(refs, old(itsSingletons), MAX_PASSES)
      {
        ghost var before := itsSingletons;
        var deleted := DestroyPass();
        if itsSingletons != [] && deleted == 0 {
          assert Teardown(refs, before, MAX_PASSES - cnt) == itsSingletons;
          forced := itsSingletons;
          itsSingletons := [];
          return;
        }
        cnt := cnt + 1;
      }
      forced := itsSingletons;
      itsSingletons := [];
    }
  }

  // ---------------------------------------------------------------- order of erasure

  /** One engine has a reference to the other. */
  predicate Holds(refs: References, holder: Name, e: Name) {
    holder in refs.holds && refs.holds[holder][e] > 0
  }

  /** The engines erased by a pass, in order. */
  function Erased(refs: References, live: seq<Name>, i: nat): seq<Name>
    requires i <= |live|
    decreases |live| - i
  {
    if i == |live| then []
    else if UseCount(refs, live, live[i]) > 1 then Erased(refs, live, i + 1)
    else [live[i]] + Erased(refs, Without(live, i), i)
  }

  function ErasedInAll(refs: References, live: seq<Name>, n: nat): seq<Name>
    decreases n
  {
    if n == 0 then []
    else
      var rest := Pass(refs, live, 0);
      if rest != [] && |rest| == |live| then [] else Erased(refs, live, 0) + ErasedInAll(refs, rest, n - 1)
  }

  /** No engine goes while one that still exists holds it: holders always go first. */
  ghost predicate HoldersFirst(refs: References, live: seq<Name>, erased: seq<Name>) {
    forall k, h :: 0 <= k < |erased| && h in live && Holds(refs, h, erased[k]) ==> h in erased[..k]
  }

  lemma {:induction false} HolderCounts(refs: References, live: seq<Name>, h: Name, e: Name)
    requires h in live && Holds(refs, h, e)
    ensures HeldByAll(refs, live, e) > 0
  {
    if live[0] != h {
      HolderCounts(refs, live[1..], h, e);
    }
  }

  lemma {:induction false} CountHasHolder(refs: References, live: seq<Name>, e: Name) returns (h: Name)
    requires HeldByAll(refs, live, e) > 0
    ensures h in live && Holds(refs, h, e)
  {
    if Holds(refs, live[0], e) {
      h := live[0];
    } else {
      h := CountHasHolder(refs, live[1..], e);
    }
  }

  lemma FirstErased(refs: References, live: seq<Name>, i: nat, later: seq<Name>)
    requires i < |live| && UseCount(refs, live, live[i]) <= 1
    requires HoldersFirst(refs, Without(live, i), later)
    ensures HoldersFirst(refs, live, [live[i]] + later)
  {
    var erased := [live[i]] + later;
    forall k, h | 0 <= k < |erased| && h in live && Holds(refs, h, erased[k]) ensures h in erased[..k] {
      if k == 0 {
        HolderCounts(refs, live, h, live[i]);
      } else {
        assert erased[k] == later[k - 1] && erased[..k] == [live[i]] + later[..k - 1];
        if h != live[i] {
          assert h in Without(live, i);
        }
      }
    }
  }

  lemma {:induction false} PassErasesHoldersFirst(refs: References, live: seq<Name>, i: nat)
    requires i <= |live|
    ensures HoldersFirst(refs, live, Erased(refs, live, i))
    ensures forall h :: h in live ==> h in Pass(refs, live, i) || h in Erased(refs, live, i)
    decreases |live| - i
  {
    if i < |live| {
      if UseCount(refs, live, live[i]) > 1 {
        PassErasesHoldersFirst(refs, live, i + 1);
      } else {
        PassErasesHoldersFirst(refs, Without(live, i), i);
        FirstErased(refs, live, i, Erased(refs, Without(live, i), i));
      }
    }
  }

  lemma JoinErased(refs: References, live: seq<Name>, rest: seq<Name>, a: seq<Name>, b: seq<Name>)
    requires HoldersFirst(refs, live, a) && HoldersFirst(refs, rest, b)
    requires forall h :: h in live ==> h in rest || h in a
    ensures HoldersFirst(refs, live, a + b)
  {
    forall k, h | 0 <= k < |a + b| && h in live && Holds(refs, h, (a + b)[k]) ensures h in (a + b)[..k] {
      if k < |a| {
        assert (a + b)[..k] == a[..k];
      } else {
        assert (a + b)[..k] == a + b[..k - |a|];
      }
    }
  }

  /** Over all passes, with or without cycles and outside references, every holder is erased before what it holds. */
  lemma {:induction false} TeardownErasesHoldersFirst(refs: References, live: seq<Name>, n: nat)
    ensures HoldersFirst(refs, live, ErasedInAll(refs, live, n))
    decreases n
  {
    if n > 0 {
      var rest := Pass(refs, live, 0);
      if !(rest != [] && |rest| == |live|) {
        PassErasesHoldersFirst(refs, live, 0);
        TeardownErasesHoldersFirst(refs, rest, n - 1);
        JoinErased(refs, live, rest, Erased(refs, live, 0), ErasedInAll(refs, rest, n - 1));
      }
    }
  }

  // ---------------------------------------------------------------- progress of a pass

  predicate Distinct(s: seq<Name>) {
    forall i, j :: 0 <= i < j < |s| ==> s[i] != s[j]
  }

  /** Somebody outside the registry refers to the engine. */
  predicate Referenced(refs: References, e: Name) {
    e in refs.outside && refs.outside[e] > 0
  }

  predicate NoOutsiders(refs: References, live: seq<Name>) {
    forall e :: e in live ==> !Referenced(refs, e)
  }

  /**
   A survivor of a pass is referenced from outside, or was held, when it was looked at, by an engine alive at the
   start of the pass.
   */
  lemma {:induction false} SurvivorIsHeld(refs: References, live: seq<Name>, i: nat, e: Name) returns (h: Name)
    requires i <= |live| && Distinct(live)
    requires e in Pass(refs, live, i) && e in live[i..]
    ensures Referenced(refs, e) || (h in live && Holds(refs, h, e))
    decreases |live| - i
  {
    if UseCount(refs, live, live[i]) > 1 {
      if live[i] == e {
        if HeldByAll(refs, live, e) > 0 {
          h := CountHasHolder(refs, live, e);
        } else {
          h := e;
        }
      } else {
        h := SurvivorIsHeld(refs, live, i + 1, e);
      }
    } else {
      var less := Without(live, i);
      if live[i] == e {
        PassSubset(refs, less, i);
        h := e;
      } else {
        assert less[i..] == live[i + 1..];
        h := SurvivorIsHeld(refs, less, i, e);
      }
    }
  }

  lemma {:induction false} PassSubset(refs: References, live: seq<Name>, i: nat)
    requires i <= |live|
    ensures forall e :: e in Pass(refs, live, i) ==> e in live
    ensures Distinct(live) ==> Distinct(Pass(refs, live, i))
    ensures |Pass(refs, live, i)| == |live| ==> Pass(refs, live, i) == live
    decreases |live| - i
  {
    if i < |live| {
      if UseCount(refs, live, live[i]) > 1 {
        PassSubset(refs, live, i + 1);
      } else {
        PassSubset(refs, Without(live, i), i);
      }
    }
  }

  /** Each pass erases at least every engine that nobody refers to when it starts. */
  lemma PassErasesUnheld(refs: References, live: seq<Name>, e: Name)
    requires Distinct(live) && e in live && !Referenced(refs, e) && forall h :: h in live ==> !Holds(refs, h, e)
    ensures e !in Pass(refs, live, 0)
  {
    if e in Pass(refs, live, 0) {
      assert live[0..] == live;
      var h := SurvivorIsHeld(refs, live, 0, e);
    }
  }

  // ---------------------------------------------------------------- chains of holders

  /** c[0] holds c[1], which holds c[2], and so on. */
  ghost predicate Chain(refs: References, live: seq<Name>, c: seq<Name>) {
    && (forall i :: 0 <= i < |c| ==> c[i] in live)
    && (forall i :: 0 < i < |c| ==> Holds(refs, c[i - 1], c[i]))
  }

  ghost predicate Cycle(refs: References, live: seq<Name>, c: seq<Name>) {
    c != [] && Chain(refs, live, c) && Holds(refs, c[|c| - 1], c[0])
  }

  function Passes(refs: References, live: seq<Name>, n: nat): seq<Name> {
    if n == 0 then live else Pass(refs, Passes(refs, live, n - 1), 0)
  }

  lemma {:induction false} PassesSubset(refs: References, live: seq<Name>, n: nat)
    requires Distinct(live)
    ensures Distinct(Passes(refs, live, n)) && forall e :: e in Passes(refs, live, n) ==> e in live
  {
    if n > 0 {
      PassesSubset(refs, live, n - 1);
      PassSubset(refs, Passes(refs, live, n - 1), 0);
    }
  }

  /** Whoever survives n passes ends a chain of n + 1 engines, or one from an engine referenced from outside. */
  lemma {:induction false} SurvivorEndsChain(refs: References, live: seq<Name>, n: nat, e: Name) returns (c: seq<Name>)
    requires Distinct(live) && e in Passes(refs, live, n)
    ensures c != [] && |c| <= n + 1 && c[|c| - 1] == e && Chain(refs, live, c)
    ensures |c| == n + 1 || Referenced(refs, c[0])
  {
    c := [e];
    PassesSubset(refs, live, n);
    if n > 0 && !Referenced(refs, e) {
      var before := Passes(refs, live, n - 1);
      PassesSubset(refs, live, n - 1);
      PassSubset(refs, before, 0);
      assert before[0..] == before;
      var h := SurvivorIsHeld(refs, before, 0, e);
      c := SurvivorEndsChain(refs, live, n - 1, h);
      c := c + [e];
    }
  }

  /** The registry is empty after as many passes as the longest chain of holders is long. */
  lemma ChainLengthBoundsPasses(refs: References, live: seq<Name>, longest: nat)
    requires Distinct(live) && NoOutsiders(refs, live)
    requires forall c :: Chain(refs, live, c) ==> |c| <= longest
    ensures Passes(refs, live, longest) == []
  {
    if Passes(refs, live, longest) != [] {
      var c := SurvivorEndsChain(refs, live, longest, Passes(refs, live, longest)[0]);
    }
  }

  /** The bounded loop agrees with the unbounded passes until it is empty or stuck. */
  lemma {:induction false} TeardownIsPasses(refs: References, live: seq<Name>, done: nat, n: nat)
    requires Distinct(live)
    ensures Teardown(refs, Passes(refs, live, done), n) == Passes(refs, live, done + n)
    decreases n
  {
    var l := Passes(refs, live, done);
    if n > 0 {
      var rest := Pass(refs, l, 0);
      PassSubset(refs, l, 0);
      if rest != [] && |rest| == |l| {
        Stuck(refs, live, done, n);
      } else {
        TeardownIsPasses(refs, live, done + 1, n - 1);
      }
    }
  }

  lemma {:induction false} Stuck(refs: References, live: seq<Name>, done: nat, n: nat)
    requires Pass(refs, Passes(refs, live, done), 0) == Passes(refs, live, done)
    ensures Passes(refs, live, done + n) == Passes(refs, live, done)
    decreases n
  {
    if n > 0 {
      Stuck(refs, live, done, n - 1);
      assert Passes(refs, live, done + n) == Pass(refs, Passes(refs, live, done + n - 1), 0);
    }
  }

  /** With no chain of more than twenty holders the loop empties the registry and the final clear is a no-op. */
  lemma ClearIsNoOp(refs: References, live: seq<Name>)
    requires Distinct(live) && NoOutsiders(refs, live)
    requires forall c :: Chain(refs, live, c) ==> |c| <= 20
    ensures Teardown(refs, live, MAX_PASSES) == []
  {
    ChainLengthBoundsPasses(refs, live, MAX_PASSES);
    TeardownIsPasses(refs, live, 0, MAX_PASSES);
  }

  // ---------------------------------------------------------------- the bound is tight

  /** The k-th engine of a chain, each holding the next. */
  function Link(k: nat): Name {
    seq(k, _ => 'x')
  }

  function Holdings(n: nat): map<Name, multiset<Name>> {
    if n == 0 then map[] else Holdings(n - 1)[Link(n - 1) := multiset{Link(n)}]
  }

  function ChainOf(n: nat): References {
    References(Holdings(n), map[])
  }

  lemma {:induction false} HoldingsAt(n: nat, k: nat)
    ensures Link(k) in Holdings(n) <==> k < n
    ensures k < n ==> Holdings(n)[Link(k)] == multiset{Link(k + 1)}
  {
    if n > 0 {
      LinksDiffer(k, n - 1);
      HoldingsAt(n - 1, k);
    }
  }

  /** The engines from `last` down to `first`: in the registry every engine comes before its holder. */
  function Backwards(first: nat, last: nat): (live: seq<Name>)
    requires first <= last + 1
    ensures |live| == last + 1 - first
    decreases last + 1 - first
  {
    if first == last + 1 then [] else Backwards(first + 1, last) + [Link(first)]
  }

  lemma LinksDiffer(k: nat, l: nat)
    ensures Link(k) == Link(l) <==> k == l
  {
    assert |Link(k)| == k && |Link(l)| == l;
  }

  lemma {:induction false} BackwardsAt(first: nat, last: nat)
    requires first <= last + 1
    ensures forall i :: 0 <= i < last + 1 - first ==> Backwards(first, last)[i] == Link(last - i)
    decreases last + 1 - first
  {
    if first <= last {
      BackwardsAt(first + 1, last);
    }
  }

  lemma ChainHolds(n: nat, k: nat, l: nat)
    ensures Holds(ChainOf(n), Link(k), Link(l)) <==> k < n && l == k + 1
  {
    HoldingsAt(n, k);
    LinksDiffer(k + 1, l);
  }

  /** All but the last engine of the list have their holder behind them. */
  lemma {:induction false} PassOverHeld(n: nat, first: nat, last: nat, i: nat)
    requires first <= last <= n && i <= last - first
    ensures Pass(ChainOf(n), Backwards(first, last), i) == Backwards(first + 1, last)
    decreases last - first - i
  {
    var refs, live := ChainOf(n), Backwards(first, last);
    BackwardsAt(first, last);
    BackwardsAt(first + 1, last);
    if i < last - first {
      ChainHolds(n, last - i - 1, last - i);
      assert live[i + 1] == Link(last - i - 1);
      HolderCounts(refs, live, Link(last - i - 1), Link(last - i));
      PassOverHeld(n, first, last, i + 1);
    } else {
      NobodyHoldsFirst(n, first, last);
      assert Without(live, i) == Backwards(first + 1, last);
    }
  }

  lemma NobodyHoldsFirst(n: nat, first: nat, last: nat)
    requires first <= last <= n
    ensures HeldByAll(ChainOf(n), Backwards(first, last), Link(first)) == 0
  {
    var refs, live := ChainOf(n), Backwards(first, last);
    if HeldByAll(refs, live, Link(first)) > 0 {
      var h := CountHasHolder(refs, live, Link(first));
      BackwardsAt(first, last);
      var i :| 0 <= i < |live| && live[i] == h;
      ChainHolds(n, last - i, first);
    }
  }

  lemma {:induction false} OneEachPass(n: nat, first: nat, passes: nat)
    requires first <= n + 1
    ensures Teardown(ChainOf(n), Backwards(first, n), passes)
            == Backwards(if first + passes <= n then first + passes else n + 1, n)
    decreases passes
  {
    BackwardsAt(first, n);
    if passes > 0 {
      if first <= n {
        PassOverHeld(n, first, n, 0);
        BackwardsAt(first + 1, n);
        OneEachPass(n, first + 1, passes - 1);
      } else {
        OneEachPass(n, first, passes - 1);
      }
    }
  }

  /** A chain of twenty engines, however they are ordered, is taken down by the passes; one of 21 need not be. */
  lemma TwentyIsTheLimit()
    ensures Teardown(ChainOf(20), Backwards(0, 20), MAX_PASSES) == [Link(20)]
    ensures Teardown(ChainOf(19), Backwards(0, 19), MAX_PASSES) == []
  {
    OneEachPass(20, 0, MAX_PASSES);
    OneEachPass(19, 0, MAX_PASSES);
    assert Backwards(21, 20) == [];
  }

  // ---------------------------------------------------------------- cycles

  lemma {:induction false} Pigeonhole(c: seq<Name>, s: seq<Name>) returns (i: nat, j: nat)
    requires |c| > |s| && forall k :: 0 <= k < |c| ==> c[k] in s
    ensures i < j < |c| && c[i] == c[j]
  {
    assert c[0] in s;
    if exists k :: 0 < k < |c| && c[k] == c[0] {
      var k :| 0 < k < |c| && c[k] == c[0];
      i, j := 0, k;
    } else {
      var p :| 0 <= p < |s| && s[p] == c[0];
      var rest := s[..p] + s[p + 1..];
      forall k | 0 <= k < |c[1..]| ensures c[1..][k] in rest {
        assert c[k + 1] in s && c[k + 1] != s[p];
      }
      i, j := Pigeonhole(c[1..], rest);
      i, j := i + 1, j + 1;
    }
  }

  lemma LongChainHasCycle(refs: References, live: seq<Name>, c: seq<Name>) returns (cycle: seq<Name>)
    requires Chain(refs, live, c) && |c| > |live|
    ensures Cycle(refs, live, cycle)
  {
    var i, j := Pigeonhole(c, live);
    cycle := c[i..j];
    assert Holds(refs, c[j - 1], c[j]);
  }

  /** A pass that erases nothing, the early break, means that some engines hold each other in a circle. */
  lemma EarlyBreakMeansCycle(refs: References, live: seq<Name>) returns (cycle: seq<Name>)
    requires Distinct(live) && NoOutsiders(refs, live) && live != [] && |Pass(refs, live, 0)| == |live|
    ensures Cycle(refs, live, cycle)
  {
    PassSubset(refs, live, 0);
    Stuck(refs, live, 0, |live|);
    var c := SurvivorEndsChain(refs, live, |live|, live[0]);
    cycle := LongChainHasCycle(refs, live, c);
  }

  lemma {:induction false} CycleSurvivesPass(refs: References, live: seq<Name>, i: nat, cycle: seq<Name>)
    requires i <= |live| && Cycle(refs, live, cycle)
    ensures Cycle(refs, Pass(refs, live, i), cycle)
    decreases |live| - i
  {
    if i < |live| {
      if UseCount(refs, live, live[i]) > 1 {
        CycleSurvivesPass(refs, live, i + 1, cycle);
      } else {
        forall k | 0 <= k < |cycle| ensures cycle[k] in Without(live, i) {
          var h := cycle[if k == 0 then |cycle| - 1 else k - 1];
          if cycle[k] == live[i] {
            HolderCounts(refs, live, h, live[i]);
          }
        }
        CycleSurvivesPass(refs, Without(live, i), i, cycle);
      }
    }
  }

  lemma {:induction false} CycleSurvives(refs: References, live: seq<Name>, n: nat, cycle: seq<Name>)
    requires Cycle(refs, live, cycle)
    ensures Cycle(refs, Passes(refs, live, n), cycle)
  {
    if n > 0 {
      CycleSurvives(refs, live, n - 1, cycle);
      CycleSurvivesPass(refs, Passes(refs, live, n - 1), 0, cycle);
    }
  }

  // ---------------------------------------------------------------- who is kept

  /**
   At the end of a chain of holders that starts at an engine referenced from outside, or at one on a circle. The
   chain may be the engine alone.
   */
  ghost predicate KeptBy(refs: References, live: seq<Name>, e: Name, c: seq<Name>) {
    && c != [] && c[|c| - 1] == e && Chain(refs, live, c)
    && (Referenced(refs, c[0]) || exists k :: 0 <= k < |c| && Holds(refs, c[k], c[0]))
  }

  ghost predicate Kept(refs: References, live: seq<Name>, e: Name) {
    exists c :: KeptBy(refs, live, e, c)
  }

  /** The first of such a chain stays, and so does everyone whose holder stays. */
  lemma {:induction false} KeptPass(refs: References, live: seq<Name>, i: nat, e: Name, c: seq<Name>)
    requires i <= |live| && KeptBy(refs, live, e, c)
    ensures KeptBy(refs, Pass(refs, live, i), e, c) && e in Pass(refs, live, i)
    decreases |live| - i
  {
    if i == |live| {
      assert c[|c| - 1] in live;
    } else if UseCount(refs, live, live[i]) > 1 {
      KeptPass(refs, live, i + 1, e, c);
    } else {
      forall k | 0 <= k < |c| ensures c[k] in Without(live, i) {
        if c[k] == live[i] {
          NotErased(refs, live, c, k);
        }
      }
      KeptPass(refs, Without(live, i), i, e, c);
    }
  }

  /** Everyone on the chain has more than one reference. */
  lemma NotErased(refs: References, live: seq<Name>, c: seq<Name>, k: nat)
    requires k < |c| && Chain(refs, live, c)
    requires Referenced(refs, c[0]) || exists j :: 0 <= j < |c| && Holds(refs, c[j], c[0])
    ensures UseCount(refs, live, c[k]) > 1
  {
    if k > 0 {
      HolderCounts(refs, live, c[k - 1], c[k]);
    } else if !Referenced(refs, c[0]) {
      var j :| 0 <= j < |c| && Holds(refs, c[j], c[0]);
      HolderCounts(refs, live, c[j], c[0]);
    }
  }

  lemma {:induction false} KeptPasses(refs: References, live: seq<Name>, n: nat, e: Name, c: seq<Name>)
    requires KeptBy(refs, live, e, c)
    ensures KeptBy(refs, Passes(refs, live, n), e, c) && e in Passes(refs, live, n)
  {
    if n > 0 {
      KeptPasses(refs, live, n - 1, e, c);
      KeptPass(refs, Passes(refs, live, n - 1), 0, e, c);
    } else {
      assert c[|c| - 1] in live;
    }
  }

  /** A long chain goes round a circle before it comes to its end. */
  lemma LongChainKeeps(refs: References, live: seq<Name>, c: seq<Name>)
    requires Chain(refs, live, c) && |c| > |live|
    ensures Kept(refs, live, c[|c| - 1])
  {
    var i, j := Pigeonhole(c, live);
    var d := c[i..];
    assert Holds(refs, c[j - 1], c[j]) && d[j - 1 - i] == c[j - 1];
    assert KeptBy(refs, live, c[|c| - 1], d);
  }

  /**
   An engine outlives all passes exactly when it is referenced from outside or lies on a circle of holders, or is
   held, directly or through others, by such an engine. It then outlives any number of passes.
   */
  lemma KeptExactly(refs: References, live: seq<Name>, e: Name)
    requires Distinct(live)
    ensures e in Passes(refs, live, |live|) <==> Kept(refs, live, e)
    ensures Kept(refs, live, e) ==> forall n: nat :: e in Passes(refs, live, n)
  {
    if Kept(refs, live, e) {
      var c :| KeptBy(refs, live, e, c);
      forall n: nat ensures e in Passes(refs, live, n) {
        KeptPasses(refs, live, n, e, c);
      }
    }
    if e in Passes(refs, live, |live|) {
      var c := SurvivorEndsChain(refs, live, |live|, e);
      if Referenced(refs, c[0]) {
        assert KeptBy(refs, live, e, c);
      } else {
        LongChainKeeps(refs, live, c);
      }
    }
  }

  lemma {:induction false} ErasedIsGone(refs: References, live: seq<Name>, i: nat)
    requires i <= |live| && Distinct(live)
    ensures forall e :: e in Erased(refs, live, i) ==> e in live && e !in Pass(refs, live, i)
    decreases |live| - i
  {
    if i < |live| {
      if UseCount(refs, live, live[i]) > 1 {
        ErasedIsGone(refs, live, i + 1);
      } else {
        ErasedIsGone(refs, Without(live, i), i);
        PassSubset(refs, Without(live, i), i);
      }
    }
  }

  ghost predicate LeavesAfter(refs: References, live: seq<Name>, e: Name, done: nat) {
    exists k: nat :: k > done && e !in Passes(refs, live, k)
  }

  lemma {:induction false} ErasedInAllIsGone(refs: References, live: seq<Name>, done: nat, n: nat)
    requires Distinct(live)
    ensures forall e :: e in ErasedInAll(refs, Passes(refs, live, done), n) ==> LeavesAfter(refs, live, e, done)
    decreases n
  {
    var l := Passes(refs, live, done);
    PassesSubset(refs, live, done);
    if n > 0 {
      var rest := Pass(refs, l, 0);
      if !(rest != [] && |rest| == |l|) {
        ErasedIsGone(refs, l, 0);
        ErasedInAllIsGone(refs, live, done + 1, n - 1);
        assert rest == Passes(refs, live, done + 1);
        forall e | e in ErasedInAll(refs, l, n) ensures LeavesAfter(refs, live, e, done) {
          assert e in Erased(refs, l, 0) || e in ErasedInAll(refs, rest, n - 1);
          if e in Erased(refs, l, 0) {
            assert e !in Passes(refs, live, done + 1);
          }
        }
      }
    }
  }

  /**
   Such an engine is never deleted by the loop, however often it goes round: it is among those that only the final
   clear of the registry releases.
   */
  lemma KeptIsLeftToClear(refs: References, live: seq<Name>, e: Name, n: nat)
    requires Distinct(live) && Kept(refs, live, e)
    ensures e in Teardown(refs, live, n) && e !in ErasedInAll(refs, live, n)
  {
    KeptExactly(refs, live, e);
    TeardownIsPasses(refs, live, 0, n);
    ErasedInAllIsGone(refs, live, 0, n);
  }

  /**
   The registry is empty after as many passes as there are engines exactly when no engines hold each other in
   a circle and none is referenced from outside; otherwise no number of passes empties it.
   */
  lemma PassesEmptyExactlyWithoutCycles(refs: References, live: seq<Name>)
    requires Distinct(live)
    ensures Passes(refs, live, |live|) == [] <==> NoOutsiders(refs, live) && !(exists c :: Cycle(refs, live, c))
    ensures forall n: nat :: Passes(refs, live, n) == [] ==> Passes(refs, live, |live|) == []
  {
    forall c, n: nat | Cycle(refs, live, c) ensures Passes(refs, live, n) != [] {
      CycleSurvives(refs, live, n, c);
      assert c[0] in Passes(refs, live, n);
    }
    forall e, n: nat | e in live && Referenced(refs, e) ensures Passes(refs, live, n) != [] {
      assert KeptBy(refs, live, e, [e]);
      KeptPasses(refs, live, n, e, [e]);
    }
    if Passes(refs, live, |live|) != [] {
      var c := SurvivorEndsChain(refs, live, |live|, Passes(refs, live, |live|)[0]);
      if NoOutsiders(refs, live) {
        var cycle := LongChainHasCycle(refs, live, c);
      }
    }
  }
}
