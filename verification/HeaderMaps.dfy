/**
 The order of header names and parameter names, and the maps built on it: a header map with one entry for a
 name, and a parameter multimap that keeps equal names in the order of insertion.
 */
module HeaderMaps {
  import opened Wrappers
  import opened Ordering

  function Lower(c: char): char {
    if 'A' <= c <= 'Z' then (c as int + 32) as char else c
  }

  /** Bytes are compared as signed characters. */
  function Signed(c: char): int {
    var n := c as int;
    if 128 <= n < 256 then n - 256 else n
  }

  function Key(s: string): seq<int> {
    seq(|s|, i requires 0 <= i < |s| => Signed(Lower(s[i])))
  }

  predicate Less(a: string, b: string) {
    LexLess(Key(a), Key(b))
  }

  /** Names that differ at most in the case of ASCII letters. */
  predicate SameName(a: string, b: string) {
    |a| == |b| && forall i :: 0 <= i < |a| ==> Lower(a[i]) == Lower(b[i])
  }

  lemma KeyTail(s: string, i: nat)
    requires i < |s|
    ensures Key(s)[i..] == [Signed(Lower(s[i]))] + Key(s)[i + 1..]
  {
  }

  /** The comparison loop of CaseInsensitiveComp. */
  method CaseInsensitiveComp(first: string, second: string) returns (less: bool)
    ensures less == Less(first, second)
  {
    var n := if |first| < |second| then |first| else |second|;
    var i := 0;
    assert Key(first)[0..] == Key(first) && Key(second)[0..] == Key(second);
    while i < n
      invariant i <= n
      invariant Less(first, second) == LexLess(Key(first)[i..], Key(second)[i..])
    {
      var ch1, ch2 := Signed(Lower(first[i])), Signed(Lower(second[i]));
      KeyTail(first, i);
      KeyTail(second, i);
      if ch1 != ch2 {
        return ch1 < ch2;
      }
      i := i + 1;
    }
    return |first| < |second|;
  }

  /** It is a strict weak order whose equivalence is equality up to case. */
  lemma StrictWeakOrder(a: string, b: string, c: string)
    ensures !Less(a, a)
    ensures Less(a, b) && Less(b, c) ==> Less(a, c)
    ensures !Less(a, b) && !Less(b, a) <==> SameName(a, b)
  {
    LexIrreflexive(Key(a));
    if Less(a, b) && Less(b, c) {
      LexTransitive(Key(a), Key(b), Key(c));
    }
    LexTotal(Key(a), Key(b));
    if SameName(a, b) {
      assert Key(a) == Key(b);
    }
    if Key(a) == Key(b) {
      assert |a| == |Key(a)| == |b|;
      forall i | 0 <= i < |a| ensures Lower(a[i]) == Lower(b[i]) {
        assert Key(a)[i] == Key(b)[i];
      }
    }
  }

  type Entry = (string, string)

  // ---------------------------------------------------------------- the header map

  predicate MapSorted(m: seq<Entry>) {
    forall i, j :: 0 <= i < j < |m| ==> Less(m[i].0, m[j].0)
  }

  /** std::map::insert: an entry whose name is there already changes nothing. */
  function Insert(m: seq<Entry>, e: Entry): seq<Entry> {
    if m == [] || Less(e.0, m[0].0) then [e] + m
    else if Less(m[0].0, e.0) then [m[0]] + Insert(m[1..], e)
    else m
  }

  function InsertAll(m: seq<Entry>, es: seq<Entry>): seq<Entry>
    decreases |es|
  {
    if es == [] then m else InsertAll(Insert(m, es[0]), es[1..])
  }

  /** std::map::find */
  function Lookup(m: seq<Entry>, name: string): Option<string> {
    if m == [] then None
    else if SameName(m[0].0, name) then Some(m[0].1)
    else Lookup(m[1..], name)
  }

  /** All entries but those of one name. */
  function Except(m: seq<Entry>, name: string): seq<Entry> {
    if m == [] then []
    else (if SameName(m[0].0, name) then [] else [m[0]]) + Except(m[1..], name)
  }

  lemma {:induction false} InsertLast(m: seq<Entry>, e: Entry)
    requires forall i :: 0 <= i < |m| ==> Less(m[i].0, e.0)
    ensures Insert(m, e) == m + [e]
  {
    if m != [] {
      if Less(e.0, m[0].0) {
        LexTransitive(Key(e.0), Key(m[0].0), Key(e.0));
        LexIrreflexive(Key(e.0));
      }
      InsertLast(m[1..], e);
      assert m == [m[0]] + m[1..];
    }
  }

  /** Entries that arrive in order are kept as they arrive. */
  lemma {:induction false} InsertSortedAll(m: seq<Entry>, es: seq<Entry>)
    requires MapSorted(m + es)
    ensures InsertAll(m, es) == m + es
    decreases |es|
  {
    if es == [] {
      assert m + es == m;
    } else {
      forall i | 0 <= i < |m| ensures Less(m[i].0, es[0].0) {
        assert (m + es)[i] == m[i] && (m + es)[|m|] == es[0];
      }
      InsertLast(m, es[0]);
      assert m + [es[0]] + es[1..] == m + es;
      InsertSortedAll(m + [es[0]], es[1..]);
    }
  }

  lemma {:induction false} InsertedExcept(m: seq<Entry>, e: Entry, name: string)
    requires !SameName(e.0, name)
    ensures Lookup(Insert(m, e), name) == Lookup(m, name)
  {
    if m != [] && !Less(e.0, m[0].0) && Less(m[0].0, e.0) {
      InsertedExcept(m[1..], e, name);
    }
  }

  // ---------------------------------------------------------------- the parameter multimap

  predicate MultiSorted(m: seq<Entry>) {
    forall i, j :: 0 <= i < j < |m| ==> !Less(m[j].0, m[i].0)
  }

  /** std::multimap::insert: after all entries of an equal name. */
  function MultiInsert(m: seq<Entry>, e: Entry): seq<Entry> {
    if m == [] || Less(e.0, m[0].0) then [e] + m else [m[0]] + MultiInsert(m[1..], e)
  }

  lemma {:induction false} MultiInsertLast(m: seq<Entry>, e: Entry)
    requires forall i :: 0 <= i < |m| ==> !Less(e.0, m[i].0)
    ensures MultiInsert(m, e) == m + [e]
  {
    if m != [] {
      MultiInsertLast(m[1..], e);
      assert m == [m[0]] + m[1..];
    }
  }

  /** The next of entries that come in order goes to the end. */
  lemma MultiInsertNext(done: seq<Entry>, more: seq<Entry>)
    requires MultiSorted(done + more) && more != []
    ensures MultiInsert(done, more[0]) == done + [more[0]]
    ensures done + [more[0]] + more[1..] == done + more
  {
    forall i | 0 <= i < |done| ensures !Less(more[0].0, done[i].0) {
      assert (done + more)[i] == done[i] && (done + more)[|done|] == more[0];
    }
    MultiInsertLast(done, more[0]);
  }

  lemma MultiCons(e: Entry, m: seq<Entry>)
    requires MultiSorted(m) && forall i :: 0 <= i < |m| ==> !Less(m[i].0, e.0)
    ensures MultiSorted([e] + m)
  {
  }

  lemma {:induction false} MultiInsertSorted(m: seq<Entry>, e: Entry)
    requires MultiSorted(m)
    ensures MultiSorted(MultiInsert(m, e))
    ensures forall x :: x in MultiInsert(m, e) <==> x in m || x == e
  {
    if m == [] {
    } else if Less(e.0, m[0].0) {
      forall i | 0 <= i < |m| ensures !Less(m[i].0, e.0) {
        if Less(m[i].0, e.0) {
          LexTransitive(Key(m[i].0), Key(e.0), Key(m[0].0));
          LexIrreflexive(Key(m[0].0));
        }
      }
      MultiCons(e, m);
    } else {
      MultiInsertSorted(m[1..], e);
      forall i | 0 <= i < |MultiInsert(m[1..], e)| ensures !Less(MultiInsert(m[1..], e)[i].0, m[0].0) {
        assert MultiInsert(m[1..], e)[i] in MultiInsert(m[1..], e);
      }
      MultiCons(m[0], MultiInsert(m[1..], e));
    }
  }

  lemma MapCons(e: Entry, m: seq<Entry>)
    requires MapSorted(m) && forall i :: 0 <= i < |m| ==> Less(e.0, m[i].0)
    ensures MapSorted([e] + m)
  {
  }

  lemma {:induction false} InsertSorted(m: seq<Entry>, e: Entry)
    requires MapSorted(m)
    ensures MapSorted(Insert(m, e))
    ensures forall x :: x in Insert(m, e) ==> x in m || x == e
  {
    if m == [] {
    } else if Less(e.0, m[0].0) {
      forall i | 0 <= i < |m| ensures Less(e.0, m[i].0) {
        if i > 0 {
          LexTransitive(Key(e.0), Key(m[0].0), Key(m[i].0));
        }
      }
      MapCons(e, m);
    } else if Less(m[0].0, e.0) {
      InsertSorted(m[1..], e);
      forall i | 0 <= i < |Insert(m[1..], e)| ensures Less(m[0].0, Insert(m[1..], e)[i].0) {
        assert Insert(m[1..], e)[i] in Insert(m[1..], e);
      }
      MapCons(m[0], Insert(m[1..], e));
    }
  }

  // ---------------------------------------------------------------- changing one name

  /** The value under a name is overwritten, or inserted when the name is new. */
  function SetEntry(m: seq<Entry>, name: string, value: string): seq<Entry> {
    if Lookup(m, name).None? then Insert(m, (name, value)) else Overwrite(m, name, value)
  }

  function Overwrite(m: seq<Entry>, name: string, value: string): seq<Entry> {
    if m == [] then []
    else if SameName(m[0].0, name) then [(m[0].0, value)] + m[1..]
    else [m[0]] + Overwrite(m[1..], name, value)
  }

  lemma {:induction false} LookupInserted(m: seq<Entry>, e: Entry)
    requires Lookup(m, e.0).None?
    ensures Lookup(Insert(m, e), e.0) == Some(e.1)
  {
    if m != [] && !Less(e.0, m[0].0) {
      StrictWeakOrder(m[0].0, e.0, e.0);
      LookupInserted(m[1..], e);
    }
  }

  lemma {:induction false} OverwriteFacts(m: seq<Entry>, name: string, value: string)
    requires MapSorted(m)
    ensures MapSorted(Overwrite(m, name, value)) && |Overwrite(m, name, value)| == |m|
    ensures forall i :: 0 <= i < |m| ==> Overwrite(m, name, value)[i].0 == m[i].0
    ensures Lookup(m, name).Some? ==> Lookup(Overwrite(m, name, value), name) == Some(value)
    ensures forall other :: !SameName(other, name) ==> Lookup(Overwrite(m, name, value), other) == Lookup(m, other)
  {
    if m != [] && !SameName(m[0].0, name) {
      OverwriteFacts(m[1..], name, value);
    }
  }

  /** Setting a header is seen under every spelling of its name and under no other name. */
  lemma SetThenLookup(m: seq<Entry>, name: string, value: string, other: string)
    requires MapSorted(m)
    ensures MapSorted(SetEntry(m, name, value))
    ensures Lookup(SetEntry(m, name, value), other) == if SameName(other, name) then Some(value) else Lookup(m, other)
  {
    if Lookup(m, name).None? {
      InsertSorted(m, (name, value));
      LookupInserted(m, (name, value));
      if !SameName(other, name) {
        InsertedExcept(m, (name, value), other);
      }
    } else {
      OverwriteFacts(m, name, value);
    }
    LookupSameName(SetEntry(m, name, value), name, other);
  }

  lemma {:induction false} LookupSameName(m: seq<Entry>, a: string, b: string)
    ensures SameName(b, a) ==> Lookup(m, a) == Lookup(m, b)
  {
    if m != [] {
      LookupSameName(m[1..], a, b);
    }
  }

  lemma SameNames(a: string, b: string, c: string)
    ensures SameName(a, b) <==> SameName(b, a)
    ensures SameName(a, b) && SameName(b, c) ==> SameName(a, c)
  {
  }

  lemma {:induction false} ExceptFacts(m: seq<Entry>, name: string, other: string)
    requires MapSorted(m)
    ensures MapSorted(Except(m, name)) && forall x :: x in Except(m, name) ==> x in m
    ensures Lookup(Except(m, name), other) == if SameName(other, name) then None else Lookup(m, other)
  {
    if m != [] {
      ExceptFacts(m[1..], name, other);
      SameNames(m[0].0, other, name);
      SameNames(other, m[0].0, name);
      assert ([m[0]] + Except(m[1..], name))[1..] == Except(m[1..], name);
      assert [] + Except(m[1..], name) == Except(m[1..], name);
      if !SameName(m[0].0, name) {
        forall i | 0 <= i < |Except(m[1..], name)| ensures Less(m[0].0, Except(m[1..], name)[i].0) {
            assert Except(m[1..], name)[i] in Except(m[1..], name);
        }
        MapCons(m[0], Except(m[1..], name));
      }
    }
  }

  lemma {:induction false} ExceptInsert(m: seq<Entry>, e: Entry, name: string)
    requires MapSorted(m)
    ensures Except(Insert(m, e), name) == if SameName(e.0, name) then Except(m, name) else Insert(Except(m, name), e)
  {
    if m == [] {
      assert [e][1..] == [] && [e] + Except([], name) == [e];
    } else if Less(e.0, m[0].0) {
      ExceptFacts(m, name, name);
      assert ([e] + m)[1..] == m;
      assert [] + Except(m, name) == Except(m, name);
      if !SameName(e.0, name) {
        InsertFirst(m, e, name);
      }
    } else if Less(m[0].0, e.0) {
      ExceptInsert(m[1..], e, name);
      assert ([m[0]] + Insert(m[1..], e))[1..] == Insert(m[1..], e);
      ExceptHead(m, e, name);
      assert [] + Except(m[1..], name) == Except(m[1..], name);
      assert [] + Except(Insert(m[1..], e), name) == Except(Insert(m[1..], e), name);
    } else {
      StrictWeakOrder(e.0, m[0].0, name);
      SameNames(e.0, m[0].0, name);
      SameNames(m[0].0, e.0, name);
      if !SameName(e.0, name) {
        assert ([m[0]] + Except(m[1..], name))[0] == m[0];
      }
    }
  }

  lemma InsertFirst(m: seq<Entry>, e: Entry, name: string)
    requires MapSorted(m) && m != [] && Less(e.0, m[0].0)
    ensures Insert(Except(m, name), e) == [e] + Except(m, name)
  {
    ExceptFacts(m, name, name);
    if Except(m, name) != [] {
      var first := Except(m, name)[0];
      assert first in m;
      var i :| 0 <= i < |m| && m[i] == first;
      if i > 0 {
        StrictWeakOrder(e.0, m[0].0, m[i].0);
      }
    }
  }

  lemma ExceptHead(m: seq<Entry>, e: Entry, name: string)
    requires m != [] && Less(m[0].0, e.0)
    ensures !SameName(m[0].0, name) ==> Insert([m[0]] + Except(m[1..], name), e) == [m[0]] + Insert(Except(m[1..], name), e)
  {
    var t := [m[0]] + Except(m[1..], name);
    assert t[1..] == Except(m[1..], name);
    if Less(e.0, m[0].0) {
      StrictWeakOrder(e.0, m[0].0, e.0);
    }
  }

  /** Leaving out a name commutes with insertion. */
  lemma {:induction false} ExceptInsertAll(m: seq<Entry>, es: seq<Entry>, name: string)
    requires MapSorted(m)
    ensures Except(InsertAll(m, es), name) == InsertAll(Except(m, name), Except(es, name))
    decreases |es|
  {
    if es != [] {
      InsertSorted(m, es[0]);
      ExceptInsert(m, es[0], name);
      ExceptInsertAll(Insert(m, es[0]), es[1..], name);
      var rest := Except(es[1..], name);
      assert ([es[0]] + rest)[1..] == rest && [] + rest == rest;
    }
  }

  /** The first value of a name stays. */
  lemma {:induction false} LookupInsertAll(m: seq<Entry>, es: seq<Entry>, name: string)
    requires MapSorted(m) && Lookup(m, name).Some?
    ensures Lookup(InsertAll(m, es), name) == Lookup(m, name)
    decreases |es|
  {
    if es != [] {
      LookupKept(m, es[0], name);
      InsertSorted(m, es[0]);
      LookupInsertAll(Insert(m, es[0]), es[1..], name);
    }
  }

  lemma {:induction false} LookupAt(m: seq<Entry>, name: string) returns (i: nat)
    requires Lookup(m, name).Some?
    ensures i < |m| && SameName(m[i].0, name)
  {
    if SameName(m[0].0, name) {
      i := 0;
    } else {
      i := LookupAt(m[1..], name);
      i := i + 1;
    }
  }

  lemma {:induction false} LookupKept(m: seq<Entry>, e: Entry, name: string)
    requires MapSorted(m) && Lookup(m, name).Some?
    ensures Lookup(Insert(m, e), name) == Lookup(m, name)
  {
    if !SameName(e.0, name) {
      InsertedExcept(m, e, name);
    } else {
      var i := LookupAt(m, name);
      SameNames(name, e.0, m[i].0);
      SameNames(m[i].0, name, e.0);
      StrictWeakOrder(e.0, m[i].0, name);
      StrictWeakOrder(e.0, m[0].0, m[i].0);
      if Less(m[0].0, e.0) && !SameName(m[0].0, name) {
        LookupKept(m[1..], e, name);
      }
    }
  }

  lemma {:induction false} InsertAllFacts(m: seq<Entry>, es: seq<Entry>)
    requires MapSorted(m)
    ensures MapSorted(InsertAll(m, es))
    ensures forall x :: x in InsertAll(m, es) ==> x in m || x in es
    decreases |es|
  {
    if es != [] {
      InsertSorted(m, es[0]);
      InsertAllFacts(Insert(m, es[0]), es[1..]);
    }
  }
}
