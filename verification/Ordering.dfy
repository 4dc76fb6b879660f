/** Lexicographic order, and the sorted sets of strings that std::set<std::string> keeps. */
module Ordering {
  predicate LexLess(a: seq<int>, b: seq<int>) {
    b != [] && (a == [] || a[0] < b[0] || (a[0] == b[0] && LexLess(a[1..], b[1..])))
  }

  lemma {:induction false} LexIrreflexive(a: seq<int>)
    ensures !LexLess(a, a)
  {
    if a != [] {
      LexIrreflexive(a[1..]);
    }
  }

  lemma {:induction false} LexTransitive(a: seq<int>, b: seq<int>, c: seq<int>)
    requires LexLess(a, b) && LexLess(b, c)
    ensures LexLess(a, c)
  {
    if a != [] && a[0] == b[0] == c[0] {
      LexTransitive(a[1..], b[1..], c[1..]);
    }
  }

  lemma {:induction false} LexTotal(a: seq<int>, b: seq<int>)
    ensures LexLess(a, b) || a == b || LexLess(b, a)
  {
    if a != [] && b != [] && a[0] == b[0] {
      LexTotal(a[1..], b[1..]);
      assert a == [a[0]] + a[1..] && b == [b[0]] + b[1..];
    }
  }

  lemma {:induction false} LexPrefix(a: seq<int>, b: seq<int>)
    requires |a| < |b| && a == b[..|a|]
    ensures LexLess(a, b)
  {
    if a != [] {
      assert a[0] == b[0] && a[1..] == b[1..][..|a[1..]|];
      LexPrefix(a[1..], b[1..]);
    }
  }

  function Codes(s: string): seq<int> {
    seq(|s|, i requires 0 <= i < |s| => s[i] as int)
  }

  lemma CodesInjective(a: string, b: string)
    requires Codes(a) == Codes(b)
    ensures a == b
  {
    assert |a| == |Codes(a)| == |b|;
    forall i | 0 <= i < |a| ensures a[i] == b[i] {
      assert Codes(a)[i] == Codes(b)[i];
    }
  }

  /** The order of std::string. */
  predicate StringLess(a: string, b: string) {
    LexLess(Codes(a), Codes(b))
  }

  predicate StrictlySorted(s: seq<string>) {
    forall i, j :: 0 <= i < j < |s| ==> StringLess(s[i], s[j])
  }

  /** Insertion into a sorted set; an element already there is kept. */
  function SetInsert(s: seq<string>, x: string): seq<string> {
    if s == [] || StringLess(x, s[0]) then [x] + s
    else if StringLess(s[0], x) then [s[0]] + SetInsert(s[1..], x)
    else s
  }

  function SetErase(s: seq<string>, x: string): seq<string> {
    if s == [] then [] else if s[0] == x then s[1..] else [s[0]] + SetErase(s[1..], x)
  }

  lemma {:induction false} SetInsertMembers(s: seq<string>, x: string)
    ensures forall y :: y in SetInsert(s, x) <==> y in s || y == x
  {
    if s != [] && !StringLess(x, s[0]) {
      if StringLess(s[0], x) {
        SetInsertMembers(s[1..], x);
      } else {
        LexTotal(Codes(s[0]), Codes(x));
        CodesInjective(s[0], x);
      }
    }
  }

  lemma SortedCons(x: string, s: seq<string>)
    requires StrictlySorted(s) && forall y :: y in s ==> StringLess(x, y)
    ensures StrictlySorted([x] + s)
  {
  }

  lemma {:induction false} SetInsertSorted(s: seq<string>, x: string)
    requires StrictlySorted(s)
    ensures StrictlySorted(SetInsert(s, x))
  {
    if s == [] {
    } else if StringLess(x, s[0]) {
      forall y | y in s ensures StringLess(x, y) {
        if y != s[0] {
          LexTransitive(Codes(x), Codes(s[0]), Codes(y));
        }
      }
      SortedCons(x, s);
    } else if StringLess(s[0], x) {
      SetInsertSorted(s[1..], x);
      SetInsertMembers(s[1..], x);
      SortedCons(s[0], SetInsert(s[1..], x));
    }
  }

  lemma {:induction false} SetEraseMembers(s: seq<string>, x: string)
    requires StrictlySorted(s)
    ensures StrictlySorted(SetErase(s, x))
    ensures forall y :: y in SetErase(s, x) <==> y in s && y != x
  {
    if s != [] {
      LexIrreflexive(Codes(s[0]));
      if s[0] != x {
        SetEraseMembers(s[1..], x);
        SortedCons(s[0], SetErase(s[1..], x));
      }
    }
  }
}
