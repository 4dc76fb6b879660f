/**
 The order of names and the maps built on it, against what they are for: case does not matter for letters, bytes are
 compared as signed characters, a header map keeps the first value of a name, and a multimap all of them in order.
 */
module NameOrder {
  import opened Wrappers
  import opened HeaderMaps

  // ---------------------------------------------------------------- letters

  /** A capital letter and its small form: the letters at the same place of the two alphabets. */
  predicate Cases(capital: char, small: char) {
    'A' <= capital <= 'Z' && small as int - 'a' as int == capital as int - 'A' as int
  }

  /** The same character, or the two cases of one letter. */
  predicate SameLetter(c: char, d: char) {
    c == d || Cases(c, d) || Cases(d, c)
  }

  lemma LowerExactly(c: char, d: char)
    ensures Lower(c) == Lower(d) <==> SameLetter(c, d)
  {
  }

  /** Two names are the same when they agree letter by letter, whatever the case. */
  lemma SameNameExactly(a: string, b: string)
    ensures SameName(a, b) <==> |a| == |b| && forall i :: 0 <= i < |a| ==> SameLetter(a[i], b[i])
  {
    forall i | 0 <= i < |a| && i < |b| ensures Lower(a[i]) == Lower(b[i]) <==> SameLetter(a[i], b[i]) {
      LowerExactly(a[i], b[i]);
    }
  }

  // ---------------------------------------------------------------- order

  /** A byte as a signed character: the upper half of the range comes first. */
  function ByteRank(c: char): int {
    (c as int + 128) % 256
  }

  /** The first letters that differ decide, by the rank of the small letter; a name comes before a longer one. */
  ghost predicate Before(a: string, b: string, k: nat) {
    && k <= |a| && k < |b| && SameName(a[..k], b[..k])
    && (k < |a| ==> ByteRank(Lower(a[k])) < ByteRank(Lower(b[k])))
  }

  lemma KeyRest(s: string)
    requires s != ""
    ensures Key(s)[1..] == Key(s[1..]) && Key(s)[0] == Signed(Lower(s[0]))
  {
  }

  predicate IsByteText(s: string) {
    forall i :: 0 <= i < |s| ==> s[i] as int < 256
  }

  lemma {:induction false} LessExactly(a: string, b: string)
    requires IsByteText(a) && IsByteText(b)
    ensures Less(a, b) <==> exists k: nat :: Before(a, b, k)
  {
    if a == "" || b == "" || Lower(a[0]) != Lower(b[0]) {
      FirstDiffers(a, b);
    } else {
      KeyRest(a);
      KeyRest(b);
      LessExactly(a[1..], b[1..]);
      forall k: nat ensures Before(a, b, k + 1) <==> Before(a[1..], b[1..], k) {
        OneFurther(a, b, k);
      }
      assert !Before(a, b, 0);
      if k: nat :| Before(a, b, k) {
        assert Before(a[1..], b[1..], k - 1);
      }
    }
  }

  lemma SameStart(a: string, b: string, k: nat)
    requires 0 < k <= |a| && k <= |b| && SameName(a[..k], b[..k])
    ensures Lower(a[0]) == Lower(b[0])
  {
    assert a[..k][0] == a[0] && b[..k][0] == b[0];
  }

  lemma FirstDiffers(a: string, b: string)
    requires IsByteText(a) && IsByteText(b) && (a == "" || b == "" || Lower(a[0]) != Lower(b[0]))
    ensures Less(a, b) <==> exists k: nat :: Before(a, b, k)
  {
    forall k: nat | Before(a, b, k) ensures k == 0 {
      if k > 0 {
        SameStart(a, b, k);
      }
    }
    assert a[..0] == b[..0] == "";
    if Less(a, b) {
      assert Before(a, b, 0);
    }
  }

  lemma OneFurther(a: string, b: string, k: nat)
    requires a != "" && b != "" && Lower(a[0]) == Lower(b[0])
    ensures Before(a, b, k + 1) <==> Before(a[1..], b[1..], k)
  {
    if k < |a| && k + 1 < |b| {
      assert a[..k + 1] == [a[0]] + a[1..][..k] && b[..k + 1] == [b[0]] + b[1..][..k];
      SameNameCons(a[0], a[1..][..k], b[0], b[1..][..k]);
    }
  }

  lemma SameNameCons(c: char, s: string, d: char, t: string)
    requires Lower(c) == Lower(d)
    ensures SameName([c] + s, [d] + t) <==> SameName(s, t)
  {
    if SameName([c] + s, [d] + t) {
      assert forall i :: 0 <= i < |s| ==> ([c] + s)[i + 1] == s[i] && ([d] + t)[i + 1] == t[i];
    }
  }

  // ---------------------------------------------------------------- the header map

  /** The value of the first entry of the name. */
  function FirstNamed(es: seq<Entry>, name: string): Option<string> {
    if es == [] then None else if SameName(es[0].0, name) then Some(es[0].1) else FirstNamed(es[1..], name)
  }

  lemma {:induction false} FirstStays(m: seq<Entry>, es: seq<Entry>, name: string)
    requires MapSorted(m)
    ensures Lookup(InsertAll(m, es), name) == if Lookup(m, name).Some? then Lookup(m, name) else FirstNamed(es, name)
    decreases |es|
  {
    if es != [] {
      InsertSorted(m, es[0]);
      FirstStays(Insert(m, es[0]), es[1..], name);
      if Lookup(m, name).Some? {
        LookupKept(m, es[0], name);
      } else if SameName(es[0].0, name) {
        SameNames(es[0].0, name, name);
        LookupSameName(m, es[0].0, name);
        LookupInserted(m, es[0]);
        LookupSameName(Insert(m, es[0]), es[0].0, name);
      } else {
        InsertedExcept(m, es[0], name);
      }
    }
  }

  /** A header that is sent several times has the first of its values. */
  lemma FirstHeaderWins(es: seq<Entry>, name: string)
    ensures Lookup(InsertAll([], es), name) == FirstNamed(es, name)
  {
    FirstStays([], es, name);
  }

  // ---------------------------------------------------------------- the parameter multimap

  /** Parameters in the order given, sorted by name. */
  function SortedByName(params: seq<Entry>, more: seq<Entry>): seq<Entry>
    decreases |more|
  {
    if more == [] then params else SortedByName(MultiInsert(params, more[0]), more[1..])
  }

  /** The entries of one name, in order. */
  function Under(m: seq<Entry>, name: string): seq<Entry> {
    if m == [] then [] else (if SameName(m[0].0, name) then [m[0]] else []) + Under(m[1..], name)
  }

  lemma {:induction false} NothingUnder(m: seq<Entry>, name: string)
    requires forall i :: 0 <= i < |m| ==> !SameName(m[i].0, name)
    ensures Under(m, name) == []
  {
    if m != [] {
      NothingUnder(m[1..], name);
    }
  }

  lemma {:induction false} UnderInserted(m: seq<Entry>, e: Entry, name: string)
    requires MultiSorted(m)
    ensures Under(MultiInsert(m, e), name) == Under(m, name) + if SameName(e.0, name) then [e] else []
  {
    if m == [] {
      assert [e][1..] == [] && MultiInsert(m, e) == [e] + m == [e];
    } else if Less(e.0, m[0].0) {
      assert ([e] + m)[1..] == m;
      if SameName(e.0, name) {
        forall i | 0 <= i < |m| ensures !SameName(m[i].0, name) {
          if SameName(m[i].0, name) {
            StrictWeakOrder(m[i].0, e.0, m[0].0);
            SameNames(m[i].0, name, e.0);
            SameNames(e.0, name, name);
            SameKeys(m[i].0, e.0);
          }
        }
        NothingUnder(m, name);
      }
    } else {
      UnderInserted(m[1..], e, name);
      assert ([m[0]] + MultiInsert(m[1..], e))[1..] == MultiInsert(m[1..], e);
      var head := if SameName(m[0].0, name) then [m[0]] else [];
      assert head + (Under(m[1..], name) + (if SameName(e.0, name) then [e] else []))
          == head + Under(m[1..], name) + if SameName(e.0, name) then [e] else [];
    }
  }

  lemma SameKeys(a: string, b: string)
    requires SameName(a, b)
    ensures Key(a) == Key(b)
  {
  }

  /** Sorting keeps, for every name, its entries in the order in which they came, and adds and drops none. */
  lemma {:induction false} SortedByNameIsStable(done: seq<Entry>, more: seq<Entry>, name: string)
    requires MultiSorted(done)
    ensures MultiSorted(SortedByName(done, more))
    ensures Under(SortedByName(done, more), name) == Under(done, name) + Under(more, name)
    decreases |more|
  {
    if more != [] {
      var e := more[0];
      MultiInsertSorted(done, e);
      SortedByNameIsStable(MultiInsert(done, e), more[1..], name);
      UnderInserted(done, e, name);
      var one := if SameName(e.0, name) then [e] else [];
      assert Under(done, name) + one + Under(more[1..], name) == Under(done, name) + (one + Under(more[1..], name));
    }
  }

  /** Parameters that come in the order of their names keep it. */
  lemma {:induction false} SortedStays(done: seq<Entry>, params: seq<Entry>)
    requires MultiSorted(done + params)
    ensures SortedByName(done, params) == done + params
    decreases |params|
  {
    if params == [] {
      assert done + params == done;
    } else {
      MultiInsertNext(done, params);
      SortedStays(done + [params[0]], params[1..]);
    }
  }
}
