/** What the recursion leaves in the two lists it changes in place: the columns and the attributes. */
module SerialLists {
  import opened Wrappers
  import opened Codecs
  import opened Tables
  import opened PhpArrays
  import opened SerialFormatters

  // ---------------------------------------------------------------- which repeats are left

  function Count(atts: seq<string>, a: string): nat {
    if atts == [] then 0 else (if atts[0] == a then 1 else 0) + Count(atts[1..], a)
  }

  lemma {:induction false} CountWithout(atts: seq<string>, a: string, x: string)
    requires x != a
    ensures Count(Without(atts, a), x) == Count(atts, x)
  {
    if atts != [] {
      CountWithout(atts[1..], a, x);
      var rest := Without(atts[1..], a);
      assert ([atts[0]] + rest)[1..] == rest && [] + rest == rest;
    }
  }

  lemma {:induction false} CountPositive(atts: seq<string>, a: string)
    ensures Count(atts, a) > 0 <==> a in atts
  {
    if atts != [] {
      CountPositive(atts[1..], a);
    }
  }

  predicate OnceOrIn(atts: seq<string>, first: seq<string>, a: string) {
    Count(atts, a) > 1 ==> a in first
  }

  ghost predicate RepeatsAmong(atts: seq<string>, first: seq<string>) {
    forall a {:trigger OnceOrIn(atts, first, a)} :: a in atts ==> OnceOrIn(atts, first, a)
  }

  lemma {:induction false} DistinctLength(atts: seq<string>)
    ensures |Distinct(atts)| <= |atts|
    decreases |atts|
  {
    if atts != [] {
      DistinctLength(Without(atts[1..], atts[0]));
    }
  }

  lemma {:induction false} DistinctOfDistinct(atts: seq<string>)
    ensures Distinct(atts) == atts <==> RepeatsAmong(atts, [])
    decreases |atts|
  {
    if atts != [] {
      var a, rest := atts[0], atts[1..];
      CountPositive(rest, a);
      if a in rest {
        WithoutShorter(rest, a);
        DistinctLength(Without(rest, a));
        assert !OnceOrIn(atts, [], a);
      } else {
        WithoutAbsent(rest, a);
        DistinctOfDistinct(rest);
        assert atts == [a] + rest && Distinct(atts)[1..] == Distinct(rest);
        forall x | x in atts ensures OnceOrIn(atts, [], x) <==> x == a || OnceOrIn(rest, [], x) {
        }
        assert forall x :: x in rest ==> x in atts;
      }
    }
  }

  lemma {:induction false} WithoutShorter(atts: seq<string>, a: string)
    requires a in atts
    ensures |Without(atts, a)| < |atts|
  {
    if atts[0] != a {
      WithoutShorter(atts[1..], a);
    }
  }

  function FirstOf(s: seq<string>, k: nat): seq<string>
    decreases k
  {
    if k == 0 || s == [] then [] else [s[0]] + FirstOf(s[1..], k - 1)
  }

  lemma CountsOfRest(atts: seq<string>)
    requires atts != []
    ensures var rest := Without(atts[1..], atts[0]);
            && (forall x :: x in rest ==> Count(rest, x) == Count(atts, x) && x != atts[0])
            && forall x :: x in atts <==> x == atts[0] || x in rest
  {
    var a, rest := atts[0], Without(atts[1..], atts[0]);
    WithoutMembers(atts[1..], a);
    forall x | x in rest ensures Count(rest, x) == Count(atts, x) {
      CountWithout(atts[1..], a, x);
    }
  }

  lemma RepeatsStep(atts: seq<string>, first: seq<string>)
    requires atts != []
    ensures RepeatsAmong(atts, [atts[0]] + first) <==> RepeatsAmong(Without(atts[1..], atts[0]), first)
  {
    var a, rest := atts[0], Without(atts[1..], atts[0]);
    CountsOfRest(atts);
    forall x | x in atts ensures OnceOrIn(atts, [a] + first, x) <==> x == a || OnceOrIn(rest, first, x) {
    }
    assert forall x :: x in rest ==> x in atts && x != a;
  }

  lemma NoLevels(atts: seq<string>, k: nat)
    requires k == 0 || atts == []
    ensures Dedup(atts, k) == Distinct(atts) <==> RepeatsAmong(atts, FirstOf(Distinct(atts), k))
  {
    if atts != [] {
      DistinctOfDistinct(atts);
    }
  }

  /** One level, from what is left below it. */
  lemma OneLevel(atts: seq<string>, k: nat, d: seq<string>, t: seq<string>)
    requires atts != [] && k > 0
    requires d == Dedup(Without(atts[1..], atts[0]), k - 1) && t == Distinct(Without(atts[1..], atts[0]))
    requires d == t <==> RepeatsAmong(Without(atts[1..], atts[0]), FirstOf(t, k - 1))
    ensures Dedup(atts, k) == Distinct(atts) <==> RepeatsAmong(atts, FirstOf(Distinct(atts), k))
  {
    assert Dedup(atts, k) == [atts[0]] + d && Distinct(atts) == [atts[0]] + t;
    SameTails(atts[0], d, t);
    RepeatsStep(atts, FirstOf(t, k - 1));
    assert ([atts[0]] + t)[1..] == t;
  }

  /** Dropping the repeats of k levels drops them all exactly when only the first k distinct attributes repeat. */
  lemma {:induction false} DedupIsDistinct(atts: seq<string>, k: nat)
    ensures Dedup(atts, k) == Distinct(atts) <==> RepeatsAmong(atts, FirstOf(Distinct(atts), k))
    decreases k
  {
    if k == 0 || atts == [] {
      NoLevels(atts, k);
    } else {
      var rest := Without(atts[1..], atts[0]);
      DedupIsDistinct(rest, k - 1);
      OneLevel(atts, k, Dedup(rest, k - 1), Distinct(rest));
    }
  }

  lemma SameTails(a: string, s: seq<string>, t: seq<string>)
    ensures [a] + s == [a] + t <==> s == t
  {
    assert ([a] + s)[1..] == s && ([a] + t)[1..] == t;
  }

  /** A row with all its grouping values is enough to have all levels entered. */
  lemma {:induction false} AllLevels(c: Context, rows: seq<nat>, atts: seq<string>, j: nat)
    requires j in rows && forall a :: a in atts ==> Cell(c, ColumnOf(c, a), j) != ""
    ensures Levels(c, rows, atts) >= |Distinct(atts)|
    decreases |atts|
  {
    if atts != [] {
      var nam, rest := ColumnOf(c, atts[0]), Without(atts[1..], atts[0]);
      WithoutMembers(atts[1..], atts[0]);
      assert atts[0] in atts;
      var v := Cell(c, nam, j);
      ValuesMembers(c, nam, rows);
      HavingMembers(c, nam, v, rows);
      AllLevels(c, Having(c, nam, v, rows), rest, j);
      LevelsOfValue(c, rows, nam, Values(c, nam, rows), rest, v);
    }
  }

  lemma {:induction false} LevelsOfValue(c: Context, rows: seq<nat>, nam: nat, values: seq<string>, atts: seq<string>, v: string)
    requires v in values
    ensures LevelsBelow(c, rows, nam, values, atts) >= Levels(c, Having(c, nam, v, rows), atts)
    decreases |values|
  {
    var n := |values| - 1;
    if v != values[n] {
      assert v in values[..n];
      LevelsOfValue(c, rows, nam, values[..n], atts, v);
    }
  }

  // ---------------------------------------------------------------- the levels, from the rows

  /** How many of the attributes, from the first one, have a value in the row. */
  function Lead(c: Context, atts: seq<string>, j: nat): (n: nat)
    ensures n <= |atts|
  {
    if atts == [] || Cell(c, ColumnOf(c, atts[0]), j) == "" then 0 else 1 + Lead(c, atts[1..], j)
  }

  /** The levels a row leads through: those it has values for, and one more if there is one. */
  function Through(c: Context, atts: seq<string>, j: nat): nat {
    if Lead(c, atts, j) == |atts| then |atts| else Lead(c, atts, j) + 1
  }

  lemma ThroughStep(c: Context, atts: seq<string>, j: nat)
    requires atts != []
    ensures Through(c, atts, j) == if Cell(c, ColumnOf(c, atts[0]), j) == "" then 1 else 1 + Through(c, atts[1..], j)
  {
  }

  /** No row leads further than the levels entered. */
  lemma {:induction false} LevelsAtLeast(c: Context, rows: seq<nat>, atts: seq<string>, j: nat)
    requires j in rows
    ensures Through(c, Distinct(atts), j) <= Levels(c, rows, atts)
    decreases |atts|
  {
    if atts != [] {
      var nam, rest := ColumnOf(c, atts[0]), Without(atts[1..], atts[0]);
      var v := Cell(c, nam, j);
      ThroughStep(c, Distinct(atts), j);
      assert Distinct(atts)[1..] == Distinct(rest);
      if v != "" {
        ValuesMembers(c, nam, rows);
        HavingMembers(c, nam, v, rows);
        LevelsAtLeast(c, Having(c, nam, v, rows), rest, j);
        LevelsOfValue(c, rows, nam, Values(c, nam, rows), rest, v);
      }
    }
  }

  lemma {:induction false} DeepestValue(c: Context, rows: seq<nat>, nam: nat, values: seq<string>, atts: seq<string>) returns (v: string)
    requires values != []
    ensures v in values && LevelsBelow(c, rows, nam, values, atts) == Levels(c, Having(c, nam, v, rows), atts)
    decreases |values|
  {
    var n := |values| - 1;
    v := values[n];
    if n > 0 {
      var w := DeepestValue(c, rows, nam, values[..n], atts);
      if LevelsBelow(c, rows, nam, values[..n], atts) > Levels(c, Having(c, nam, v, rows), atts) {
        v := w;
      }
    }
  }

  /** Some row leads through all of them. */
  lemma {:induction false} DeepestRow(c: Context, rows: seq<nat>, atts: seq<string>) returns (j: nat)
    requires rows != []
    ensures j in rows && Levels(c, rows, atts) == Through(c, Distinct(atts), j)
    decreases |atts|
  {
    j := rows[0];
    if atts != [] {
      var nam, rest := ColumnOf(c, atts[0]), Without(atts[1..], atts[0]);
      var values := Values(c, nam, rows);
      ValuesMembers(c, nam, rows);
      assert Distinct(atts)[1..] == Distinct(rest);
      if values == [] {
        assert Cell(c, nam, j) !in values;
      } else {
        var v := DeepestValue(c, rows, nam, values, rest);
        ValueHasRows(c, nam, v, rows);
        HavingMembers(c, nam, v, rows);
        j := DeepestRow(c, Having(c, nam, v, rows), rest);
      }
      ThroughStep(c, Distinct(atts), j);
    }
  }

  /** The levels entered: the most that any row leads through, and one when there are no rows. */
  lemma LevelsAreLongestLead(c: Context, rows: seq<nat>, atts: seq<string>)
    ensures forall j :: j in rows ==> Through(c, Distinct(atts), j) <= Levels(c, rows, atts)
    ensures rows != [] ==> exists j :: j in rows && Through(c, Distinct(atts), j) == Levels(c, rows, atts)
    ensures rows == [] ==> Levels(c, rows, atts) == if atts == [] then 0 else 1
  {
    forall j | j in rows ensures Through(c, Distinct(atts), j) <= Levels(c, rows, atts) {
      LevelsAtLeast(c, rows, atts, j);
    }
    if rows != [] {
      var j := DeepestRow(c, rows, atts);
    }
  }

  lemma {:induction false} FirstOfGrows(s: seq<string>, k: nat, l: nat, x: string)
    requires k <= l && x in FirstOf(s, k)
    ensures x in FirstOf(s, l)
    decreases k
  {
    if x != s[0] {
      FirstOfGrows(s[1..], k - 1, l - 1, x);
    }
  }

  lemma RepeatsGrow(atts: seq<string>, k: nat, l: nat)
    requires k <= l && RepeatsAmong(atts, FirstOf(Distinct(atts), k))
    ensures RepeatsAmong(atts, FirstOf(Distinct(atts), l))
  {
    forall a | a in atts ensures OnceOrIn(atts, FirstOf(Distinct(atts), l), a) {
      assert OnceOrIn(atts, FirstOf(Distinct(atts), k), a);
      if Count(atts, a) > 1 {
        FirstOfGrows(Distinct(atts), k, l, a);
      }
    }
  }

  /** Every repeated attribute is one of the levels the row leads through. */
  ghost predicate ReachesRepeats(c: Context, atts: seq<string>, j: nat) {
    RepeatsAmong(atts, FirstOf(Distinct(atts), Through(c, Distinct(atts), j)))
  }

  /**
   So, for a page with rows, the attribute list comes back as its distinct attributes exactly when some row has
   values for all distinct attributes before the last one that is repeated.
   */
  lemma RestoredByRows(c: Context, rows: seq<nat>, atts: seq<string>)
    requires rows != []
    ensures Dedup(atts, Levels(c, rows, atts)) == Distinct(atts) <==> exists j :: j in rows && ReachesRepeats(c, atts, j)
  {
    AttributesRestored(c, rows, atts);
    LevelsAreLongestLead(c, rows, atts);
    if exists j :: j in rows && ReachesRepeats(c, atts, j) {
      var j :| j in rows && ReachesRepeats(c, atts, j);
      RepeatsGrow(atts, Through(c, Distinct(atts), j), Levels(c, rows, atts));
    }
    if Dedup(atts, Levels(c, rows, atts)) == Distinct(atts) {
      var j := DeepestRow(c, rows, atts);
      assert ReachesRepeats(c, atts, j);
    }
  }

  // ---------------------------------------------------------------- the attributes

  /**
   The attribute list comes back as its distinct attributes exactly when every repeated one belongs to a level
   that was entered; in particular when nothing repeats, or when some row has all its grouping values.
   */
  lemma AttributesRestored(c: Context, rows: seq<nat>, atts: seq<string>)
    ensures Dedup(atts, Levels(c, rows, atts)) == Distinct(atts)
            <==> RepeatsAmong(atts, FirstOf(Distinct(atts), Levels(c, rows, atts)))
    ensures (exists j :: j in rows && forall a :: a in atts ==> Cell(c, ColumnOf(c, a), j) != "")
            ==> Dedup(atts, Levels(c, rows, atts)) == Distinct(atts)
    ensures NoRepeats(atts) ==> Dedup(atts, Levels(c, rows, atts)) == atts
    ensures Distinct(Dedup(atts, Levels(c, rows, atts))) == Distinct(atts)
  {
    var k := Levels(c, rows, atts);
    DedupIsDistinct(atts, k);
    DistinctOfDedup(atts, k);
    if NoRepeats(atts) {
      DedupNothing(atts, k);
    }
    if exists j :: j in rows && forall a :: a in atts ==> Cell(c, ColumnOf(c, a), j) != "" {
      var j :| j in rows && forall a :: a in atts ==> Cell(c, ColumnOf(c, a), j) != "";
      AllLevels(c, rows, atts, j);
      DedupAll(atts, k);
    }
  }

  /** Repeats stay behind when no row gets past the first attribute. */
  lemma RepeatsStay(c: Context, j: nat, a: string, b: string)
    requires a != b && Cell(c, ColumnOf(c, a), j) == ""
    ensures Dedup([a, b, b], Levels(c, [j], [a, b, b])) == [a, b, b] != Distinct([a, b, b])
  {
    var atts := [a, b, b];
    assert atts[1..] == [b, b];
    WithoutAbsent([b, b], a);
    assert [j][..0] == [] && Values(c, ColumnOf(c, a), [j]) == [];
    assert Levels(c, [j], atts) == 1;
    assert Dedup(atts, 1) == [a] + [b, b] == atts;
    DistinctOfDistinct(atts);
    assert Count(atts, b) == Count(atts[1..], b) == 1 + Count([b, b][1..], b) && [b, b][1..] == [b];
    assert atts[1] in atts && !OnceOrIn(atts, [], b);
  }

  // ---------------------------------------------------------------- when grouping throws

  /** The attribute is a name, and its column lies in the table. */
  predicate Usable(c: Context, a: string) {
    FirstName(a, c.names, 0).Some? && c.grid.HasColumn(ColumnOf(c, a))
  }

  /** The row has values for the first k attributes, and the next one cannot be used. */
  predicate Fails(c: Context, atts: seq<string>, j: nat, k: nat) {
    k < |atts| && k <= Lead(c, atts, j) && !Usable(c, atts[k])
  }

  predicate BranchThrows(c: Context, cols: seq<nat>, rows: seq<nat>, nam: nat, v: string, atts: seq<string>) {
    Tree(c, cols, Having(c, nam, v, rows), atts).Thrown?
  }

  lemma {:induction false} BranchesThrow(c: Context, cols: seq<nat>, rows: seq<nat>, nam: nat, values: seq<string>,
                                         atts: seq<string>)
    ensures Branches(c, cols, rows, nam, values, atts).Thrown?
            <==> exists v :: v in values && BranchThrows(c, cols, rows, nam, v, atts)
    decreases |values|
  {
    if values != [] {
      BranchesThrow(c, cols, rows, nam, values[1..], atts);
      assert forall v :: v in values <==> v == values[0] || v in values[1..];
      assert BranchThrows(c, cols, rows, nam, values[0], atts)
        <==> Tree(c, cols, Having(c, nam, values[0], rows), atts).Thrown?;
    }
  }

  lemma FailsFurther(c: Context, a: string, rest: seq<string>, j: nat, k: nat)
    ensures Fails(c, [a] + rest, j, k + 1) <==> Cell(c, ColumnOf(c, a), j) != "" && Fails(c, rest, j, k)
    ensures Fails(c, [a] + rest, j, 0) <==> !Usable(c, a)
  {
    assert ([a] + rest)[1..] == rest;
  }

  ghost predicate SomeFails(c: Context, atts: seq<string>, rows: seq<nat>) {
    exists j: nat, k: nat :: j in rows && Fails(c, atts, j, k)
  }

  lemma FailsBelow(c: Context, rows: seq<nat>, a: string, rest: seq<string>, j: nat, k: nat)
    requires Usable(c, a) && j in rows && Fails(c, [a] + rest, j, k)
    ensures var v := Cell(c, ColumnOf(c, a), j);
            && k > 0 && v in Values(c, ColumnOf(c, a), rows) && j in Having(c, ColumnOf(c, a), v, rows)
            && Fails(c, rest, j, k - 1)
  {
    FailsFurther(c, a, rest, j, if k > 0 then k - 1 else 0);
    ValuesMembers(c, ColumnOf(c, a), rows);
    HavingMembers(c, ColumnOf(c, a), Cell(c, ColumnOf(c, a), j), rows);
  }

  lemma FailsAbove(c: Context, rows: seq<nat>, a: string, rest: seq<string>, v: string, j: nat, k: nat)
    requires v in Values(c, ColumnOf(c, a), rows) && j in Having(c, ColumnOf(c, a), v, rows) && Fails(c, rest, j, k)
    ensures j in rows && Fails(c, [a] + rest, j, k + 1)
  {
    ValuesMembers(c, ColumnOf(c, a), rows);
    HavingMembers(c, ColumnOf(c, a), v, rows);
    FailsFurther(c, a, rest, j, k);
  }

  /** A group fails exactly when the rows of one of its values do. */
  lemma FailsInGroup(c: Context, rows: seq<nat>, a: string, rest: seq<string>)
    requires Usable(c, a)
    ensures SomeFails(c, [a] + rest, rows)
            <==> exists v :: v in Values(c, ColumnOf(c, a), rows)
                             && SomeFails(c, rest, Having(c, ColumnOf(c, a), v, rows))
  {
    var nam := ColumnOf(c, a);
    if SomeFails(c, [a] + rest, rows) {
      var j: nat, k: nat :| j in rows && Fails(c, [a] + rest, j, k);
      FailsBelow(c, rows, a, rest, j, k);
      assert SomeFails(c, rest, Having(c, nam, Cell(c, nam, j), rows));
    }
    if v :| v in Values(c, nam, rows) && SomeFails(c, rest, Having(c, nam, v, rows)) {
      var j: nat, k: nat :| j in Having(c, nam, v, rows) && Fails(c, rest, j, k);
      FailsAbove(c, rows, a, rest, v, j, k);
    }
  }

  /** Every value's rows throw when they fail. */
  ghost predicate ThrowWhenTheyFail(c: Context, cols: seq<nat>, rows: seq<nat>, nam: nat, rest: seq<string>) {
    forall v :: v in Values(c, nam, rows) ==>
      (BranchThrows(c, cols, rows, nam, v, rest) <==> SomeFails(c, Distinct(rest), Having(c, nam, v, rows)))
  }

  lemma GroupThrows(c: Context, cols: seq<nat>, rows: seq<nat>, a: string, rest: seq<string>)
    requires Usable(c, a) && ThrowWhenTheyFail(c, cols, rows, ColumnOf(c, a), rest)
    ensures Branches(c, cols, rows, ColumnOf(c, a), Values(c, ColumnOf(c, a), rows), rest).Thrown?
            <==> SomeFails(c, [a] + Distinct(rest), rows)
  {
    var nam, values := ColumnOf(c, a), Values(c, ColumnOf(c, a), rows);
    BranchesThrow(c, cols, rows, nam, values, rest);
    FailsInGroup(c, rows, a, Distinct(rest));
    if v :| v in values && BranchThrows(c, cols, rows, nam, v, rest) {
      assert SomeFails(c, Distinct(rest), Having(c, nam, v, rows));
    }
  }

  /**
   Grouping rows throws exactly when some row has values down to an attribute that is not a name, or whose column is
   not in the table.
   */
  lemma {:induction false} GroupingThrows(c: Context, cols: seq<nat>, rows: seq<nat>, atts: seq<string>)
    requires rows != []
    ensures Tree(c, cols, rows, atts).Thrown? <==> SomeFails(c, Distinct(atts), rows)
    decreases |atts|
  {
    if atts != [] {
      var a, rest := atts[0], Without(atts[1..], atts[0]);
      var nam, left := ColumnOf(c, a), EraseIndex(cols, ColumnOf(c, a));
      assert Distinct(atts) == [a] + Distinct(rest);
      TreeOfGroup(c, cols, rows, atts);
      if Usable(c, a) {
        forall v | v in Values(c, nam, rows)
          ensures BranchThrows(c, left, rows, nam, v, rest)
                  <==> SomeFails(c, Distinct(rest), Having(c, nam, v, rows))
        {
          ValueHasRows(c, nam, v, rows);
          GroupingThrows(c, left, Having(c, nam, v, rows), rest);
        }
        GroupThrows(c, left, rows, a, rest);
      } else {
        FailsFurther(c, a, Distinct(rest), rows[0], 0);
        assert rows[0] in rows && Fails(c, Distinct(atts), rows[0], 0);
      }
    }
  }

  // ---------------------------------------------------------------- the columns

  lemma {:induction false} InsertMembers(s: seq<nat>, n: nat)
    ensures n in InsertIndex(s, n)
  {
    if s != [] && n > s[0] {
      InsertMembers(s[1..], n);
    }
  }

  /**
   The columns come back exactly when there are rows, or no attributes, or the column of the first attribute was
   there. Otherwise that column is there afterwards.
   */
  lemma ColumnsRestored(c: Context, cols: seq<nat>, rows: seq<nat>, atts: seq<string>)
    requires Ascending(cols)
    ensures ColumnsAfter(c, cols, rows, atts) == cols <==> rows != [] || atts == [] || ColumnOf(c, atts[0]) in cols
    ensures rows == [] && atts != [] ==> ColumnOf(c, atts[0]) in ColumnsAfter(c, cols, rows, atts)
  {
    if rows == [] && atts != [] {
      var n := ColumnOf(c, atts[0]);
      InsertMembers(EraseIndex(cols, n), n);
      if n in cols {
        EraseThenInsert(cols, n);
      }
    }
  }

  /** An empty table gains the column of the first attribute. */
  lemma ColumnGained(names: seq<string>, miss: string, a: string)
    requires a in names
    ensures var c := Context(Grid(0, 0, 0, 0, []), names, miss);
            && Tree(c, ColumnsOf(c.grid), [], [a]) == Success(Arr([]))
            && ColumnsAfter(c, ColumnsOf(c.grid), [], [a]) == [ColumnOf(c, a)] != ColumnsOf(c.grid)
  {
    var k :| 0 <= k < |names| && names[k] == a;
    NameIsFound(a, names, 0, k);
  }

  lemma {:induction false} NameIsFound(name: string, names: seq<string>, from_: nat, k: nat)
    requires from_ <= k < |names| && names[k] == name
    ensures FirstName(name, names, from_).Some?
    decreases k - from_
  {
    if names[from_] != name {
      NameIsFound(name, names, from_ + 1, k);
    }
  }

  // ---------------------------------------------------------------- the list of attributes

  function JoinedByCommas(atts: seq<string>): string {
    if atts == [] then "" else atts[0] + if |atts| == 1 then "" else "," + JoinedByCommas(atts[1..])
  }

  lemma CommasCons(a: string, rest: string)
    requires ',' !in a
    ensures Commas(a) == [a] && Commas(a + "," + rest) == [a] + Commas(rest)
  {
    var s := a + "," + rest;
    assert s[|a|] == ',' && forall k :: 0 <= k < |a| ==> s[k] == a[k];
    assert Find(s, ',', 0) == |a| && s[..|a|] == a && s[|a| + 1..] == rest;
  }

  lemma JoinedParts(atts: seq<string>)
    requires atts != []
    ensures JoinedByCommas(atts) == if |atts| == 1 then atts[0] else atts[0] + "," + JoinedByCommas(atts[1..])
  {
    if |atts| > 1 {
      var rest := JoinedByCommas(atts[1..]);
      assert atts[0] + ("," + rest) == atts[0] + "," + rest;
    } else {
      assert atts[0] + "" == atts[0];
    }
  }

  lemma {:induction false} CommasOfJoined(atts: seq<string>)
    requires atts != [] && forall k :: 0 <= k < |atts| ==> ',' !in atts[k]
    ensures Commas(JoinedByCommas(atts)) == atts
    decreases |atts|
  {
    JoinedParts(atts);
    if |atts| == 1 {
      CommasCons(atts[0], "");
    } else {
      CommasCons(atts[0], JoinedByCommas(atts[1..]));
      CommasOfJoined(atts[1..]);
      assert atts == [atts[0]] + atts[1..];
    }
  }

  /** Attributes joined by commas come back, also empty ones; but a single empty one is no attribute at all. */
  lemma AttributesComeBack(atts: seq<string>)
    requires forall k :: 0 <= k < |atts| ==> ',' !in atts[k]
    ensures ParseAttributes(JoinedByCommas(atts)) == if atts == [""] then [] else atts
  {
    if atts != [] {
      CommasOfJoined(atts);
      JoinedParts(atts);
    }
  }
}
