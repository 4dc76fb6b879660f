/** The grouping printer: rows of a table as nested PHP arrays, one level for each grouping attribute. */
module SerialFormatters {
  import opened Wrappers
  import opened Text
  import opened Codecs
  import opened Ordering
  import opened Tables
  import opened PhpArrays

  // ---------------------------------------------------------------- index sets

  predicate Ascending(s: seq<nat>) {
    forall i, j :: 0 <= i < j < |s| ==> s[i] < s[j]
  }

  function EraseIndex(s: seq<nat>, n: nat): seq<nat> {
    if s == [] then [] else (if s[0] == n then [] else [s[0]]) + EraseIndex(s[1..], n)
  }

  function InsertIndex(s: seq<nat>, n: nat): seq<nat> {
    if s == [] || n < s[0] then [n] + s else if n == s[0] then s else [s[0]] + InsertIndex(s[1..], n)
  }

  lemma {:induction false} EraseMembers(s: seq<nat>, n: nat)
    ensures forall x :: x in EraseIndex(s, n) <==> x in s && x != n
  {
    if s != [] {
      EraseMembers(s[1..], n);
    }
  }

  lemma {:induction false} EraseAscending(s: seq<nat>, n: nat)
    requires Ascending(s)
    ensures Ascending(EraseIndex(s, n))
  {
    if s != [] {
      EraseAscending(s[1..], n);
      EraseMembers(s[1..], n);
      AscendingCons(s[0], EraseIndex(s[1..], n));
      assert [] + EraseIndex(s[1..], n) == EraseIndex(s[1..], n);
    }
  }

  lemma AscendingCons(n: nat, s: seq<nat>)
    requires Ascending(s) && forall x :: x in s ==> n < x
    ensures Ascending([n] + s)
  {
    assert forall k :: 0 <= k < |s| ==> s[k] in s;
  }

  /** Taking a column out and putting it back. */
  lemma {:induction false} EraseThenInsert(s: seq<nat>, n: nat)
    requires Ascending(s) && n in s
    ensures InsertIndex(EraseIndex(s, n), n) == s
  {
    var rest := EraseIndex(s[1..], n);
    if s[0] == n {
      EraseAbsent(s[1..], n);
      assert [] + rest == rest == s[1..] && [n] + s[1..] == s;
    } else {
      EraseThenInsert(s[1..], n);
      assert ([s[0]] + rest)[1..] == rest && [s[0]] + s[1..] == s;
    }
  }

  lemma {:induction false} EraseAbsent(s: seq<nat>, n: nat)
    requires n !in s
    ensures EraseIndex(s, n) == s
  {
    if s != [] {
      EraseAbsent(s[1..], n);
      assert [s[0]] + s[1..] == s;
    }
  }

  lemma {:induction false} InsertLast(s: seq<nat>, n: nat)
    requires forall k :: 0 <= k < |s| ==> s[k] < n
    ensures InsertIndex(s, n) == s + [n]
  {
    if s != [] {
      InsertLast(s[1..], n);
      assert s == [s[0]] + s[1..];
    }
  }

  // ---------------------------------------------------------------- attributes

  function Without(atts: seq<string>, a: string): (r: seq<string>)
    ensures |r| <= |atts|
  {
    if atts == [] then [] else (if atts[0] == a then [] else [atts[0]]) + Without(atts[1..], a)
  }

  lemma {:induction false} WithoutMembers(atts: seq<string>, a: string)
    ensures forall x :: x in Without(atts, a) <==> x in atts && x != a
  {
    if atts != [] {
      WithoutMembers(atts[1..], a);
    }
  }

  /** The attributes with the repeats of the first k of them left out. */
  function Dedup(atts: seq<string>, k: nat): (r: seq<string>)
    ensures |r| <= |atts|
    decreases k
  {
    if k == 0 || atts == [] then atts else [atts[0]] + Dedup(Without(atts[1..], atts[0]), k - 1)
  }

  lemma {:induction false} DedupMembers(atts: seq<string>, k: nat)
    ensures forall x :: x in Dedup(atts, k) <==> x in atts
    decreases k
  {
    if k > 0 && atts != [] {
      WithoutMembers(atts[1..], atts[0]);
      DedupMembers(Without(atts[1..], atts[0]), k - 1);
    }
  }

  /** After the first attribute, what is left does not have it any more. */
  lemma DedupTail(atts: seq<string>, k: nat)
    requires atts != [] && k > 0
    ensures var d := Dedup(Without(atts[1..], atts[0]), k - 1);
            Dedup(atts, k)[0] == atts[0] && Without(Dedup(atts, k)[1..], atts[0]) == d && Dedup(atts, k)[1..] == d
  {
    var rest := Without(atts[1..], atts[0]);
    WithoutMembers(atts[1..], atts[0]);
    DedupMembers(rest, k - 1);
    WithoutAbsent(Dedup(rest, k - 1), atts[0]);
  }

  function Distinct(atts: seq<string>): seq<string>
    decreases |atts|
  {
    if atts == [] then [] else [atts[0]] + Distinct(Without(atts[1..], atts[0]))
  }

  predicate NoRepeats(atts: seq<string>) {
    forall i, j :: 0 <= i < j < |atts| ==> atts[i] != atts[j]
  }

  lemma {:induction false} WithoutAbsent(atts: seq<string>, a: string)
    requires a !in atts
    ensures Without(atts, a) == atts
  {
    if atts != [] {
      WithoutAbsent(atts[1..], a);
      assert [atts[0]] + atts[1..] == atts;
    }
  }

  lemma {:induction false} DedupTwice(atts: seq<string>, k: nat, l: nat)
    ensures Dedup(Dedup(atts, k), l) == Dedup(atts, if k < l then l else k)
    decreases k
  {
    if atts != [] && k > 0 && l > 0 {
      var rest := Without(atts[1..], atts[0]);
      DedupTail(atts, k);
      DedupTwice(rest, k - 1, l - 1);
    }
  }

  lemma {:induction false} DedupAll(atts: seq<string>, k: nat)
    requires |Distinct(atts)| <= k
    ensures Dedup(atts, k) == Distinct(atts)
    decreases |atts|
  {
    if atts != [] {
      DedupAll(Without(atts[1..], atts[0]), k - 1);
    }
  }

  lemma {:induction false} DistinctOfDedup(atts: seq<string>, k: nat)
    ensures Distinct(Dedup(atts, k)) == Distinct(atts)
    decreases k
  {
    if k > 0 && atts != [] {
      var rest := Without(atts[1..], atts[0]);
      DedupTail(atts, k);
      DistinctOfDedup(rest, k - 1);
    }
  }

  lemma {:induction false} DedupNothing(atts: seq<string>, k: nat)
    requires NoRepeats(atts)
    ensures Dedup(atts, k) == atts
    decreases k
  {
    if k > 0 && atts != [] {
      WithoutAbsent(atts[1..], atts[0]);
      DedupNothing(atts[1..], k - 1);
      assert [atts[0]] + atts[1..] == atts;
    }
  }

  // ---------------------------------------------------------------- the tree that is printed

  datatype Context = Context(grid: Grid, names: seq<string>, miss: string)

  function Cell(c: Context, i: nat, j: nat): string {
    LastWrite(c.grid.elements, i, j)
  }

  /** An empty cell is shown as the missing text. */
  function Shown(c: Context, i: nat, j: nat): string {
    if Cell(c, i, j) == "" then c.miss else Cell(c, i, j)
  }

  function Name(c: Context, i: nat): string {
    if i < |c.names| then c.names[i] else ""
  }

  function RowEntries(c: Context, cols: seq<nat>, j: nat): seq<Entry> {
    seq(|cols|, k requires 0 <= k < |cols| => Entry(Str(Name(c, cols[k])), Str(Shown(c, cols[k], j))))
  }

  function RowNode(c: Context, cols: seq<nat>, j: nat): Node {
    Arr(RowEntries(c, cols, j))
  }

  function NumberedRows(c: Context, cols: seq<nat>, rows: seq<nat>): seq<Entry> {
    seq(|rows|, k requires 0 <= k < |rows| => Entry(Num(k), RowNode(c, cols, rows[k])))
  }

  function PlainTree(c: Context, cols: seq<nat>, rows: seq<nat>): Node {
    Arr(NumberedRows(c, cols, rows))
  }

  /** A single row is printed without a number. */
  function Leaf(c: Context, cols: seq<nat>, rows: seq<nat>): Node {
    if |rows| == 1 then RowNode(c, cols, rows[0]) else Arr(NumberedRows(c, cols, rows))
  }

  function FirstName(name: string, names: seq<string>, from_: nat): Option<nat>
    requires from_ <= |names|
    decreases |names| - from_
  {
    if from_ == |names| then None
    else if names[from_] == name then Some(from_)
    else FirstName(name, names, from_ + 1)
  }

  /** The values of a column but the empty one, sorted. */
  function Values(c: Context, nam: nat, rows: seq<nat>): seq<string> {
    if rows == [] then []
    else
      var before, value := Values(c, nam, rows[..|rows| - 1]), Cell(c, nam, rows[|rows| - 1]);
      if value == "" then before else SetInsert(before, value)
  }

  function Having(c: Context, nam: nat, value: string, rows: seq<nat>): seq<nat> {
    if rows == [] then []
    else
      Having(c, nam, value, rows[..|rows| - 1])
      + if Cell(c, nam, rows[|rows| - 1]) == value then [rows[|rows| - 1]] else []
  }

  /** An unknown attribute and a column outside the table throw. */
  function Tree(c: Context, cols: seq<nat>, rows: seq<nat>, atts: seq<string>): Result<Node>
    decreases |atts|, 0
  {
    if atts == [] then Success(Leaf(c, cols, rows))
    else
      match FirstName(atts[0], c.names, 0)
      case None => Thrown
      case Some(nam) =>
        if rows != [] && !c.grid.HasColumn(nam) then Thrown
        else
          match Branches(c, EraseIndex(cols, nam), rows, nam, Values(c, nam, rows), Without(atts[1..], atts[0]))
          case Thrown => Thrown
          case Success(entries) => Success(Arr(entries))
  }

  function Branches(c: Context, cols: seq<nat>, rows: seq<nat>, nam: nat, values: seq<string>, atts: seq<string>): Result<seq<Entry>>
    decreases |atts|, |values| + 1
  {
    if values == [] then Success([])
    else
      match Tree(c, cols, Having(c, nam, values[0], rows), atts)
      case Thrown => Thrown
      case Success(tree) =>
        match Branches(c, cols, rows, nam, values[1..], atts)
        case Thrown => Thrown
        case Success(entries) => Success([Entry(Str(values[0]), tree)] + entries)
  }

  // ---------------------------------------------------------------- the tree does not see repeats

  lemma {:induction false} TreeDedup(c: Context, cols: seq<nat>, rows: seq<nat>, atts: seq<string>, k: nat)
    ensures Tree(c, cols, rows, Dedup(atts, k)) == Tree(c, cols, rows, atts)
    decreases |atts|, 0
  {
    if k > 0 && atts != [] {
      var rest := Without(atts[1..], atts[0]);
      DedupTail(atts, k);
      var found := FirstName(atts[0], c.names, 0);
      if found.Some? {
        BranchesDedup(c, EraseIndex(cols, found.value), rows, found.value, Values(c, found.value, rows), rest, k - 1);
      }
    }
  }

  lemma {:induction false} BranchesDedup(c: Context, cols: seq<nat>, rows: seq<nat>, nam: nat, values: seq<string>, atts: seq<string>, k: nat)
    ensures Branches(c, cols, rows, nam, values, Dedup(atts, k)) == Branches(c, cols, rows, nam, values, atts)
    decreases |atts|, |values| + 1
  {
    if values != [] {
      TreeDedup(c, cols, Having(c, nam, values[0], rows), atts, k);
      BranchesDedup(c, cols, rows, nam, values[1..], atts, k);
    }
  }

  // ---------------------------------------------------------------- values and rows

  lemma {:induction false} HavingMembers(c: Context, nam: nat, value: string, rows: seq<nat>)
    ensures forall j :: j in Having(c, nam, value, rows) <==> j in rows && Cell(c, nam, j) == value
    ensures Ascending(rows) ==> Ascending(Having(c, nam, value, rows))
  {
    if rows != [] {
      HavingMembers(c, nam, value, rows[..|rows| - 1]);
      assert rows == rows[..|rows| - 1] + [rows[|rows| - 1]];
      var h := Having(c, nam, value, rows[..|rows| - 1]);
      assert Ascending(rows) ==> forall k :: 0 <= k < |h| ==> h[k] in h && h[k] < rows[|rows| - 1];
    }
  }

  lemma {:induction false} ValuesMembers(c: Context, nam: nat, rows: seq<nat>)
    ensures forall v :: v in Values(c, nam, rows) <==> v != "" && exists j :: j in rows && Cell(c, nam, j) == v
    ensures StrictlySorted(Values(c, nam, rows))
  {
    if rows != [] {
      var before, last := rows[..|rows| - 1], rows[|rows| - 1];
      ValuesMembers(c, nam, before);
      SetInsertMembers(Values(c, nam, before), Cell(c, nam, last));
      SetInsertSorted(Values(c, nam, before), Cell(c, nam, last));
      assert rows == before + [last];
      assert forall j :: j in rows <==> j in before || j == last;
    }
  }

  lemma ValueHasRows(c: Context, nam: nat, v: string, rows: seq<nat>)
    ensures v in Values(c, nam, rows) <==> v != "" && Having(c, nam, v, rows) != []
  {
    ValuesMembers(c, nam, rows);
    HavingMembers(c, nam, v, rows);
    var h := Having(c, nam, v, rows);
    if h != [] {
      assert h[0] in h;
    }
  }

  // ---------------------------------------------------------------- the tree can be decoded

  lemma {:induction false} WellKeyedConcat(a: seq<Entry>, n: nat)
    requires n <= |a| && forall k :: n <= k < |a| ==> WellKeyedEntry(a[k])
    ensures WellKeyedEntries(a[n..])
    decreases |a| - n
  {
    if n < |a| {
      WellKeyedConcat(a, n + 1);
      assert a[n..][1..] == a[n + 1..] && a[n..][0] == a[n];
    }
  }

  lemma RowWellKeyed(c: Context, cols: seq<nat>, j: nat)
    ensures WellKeyed(RowNode(c, cols, j))
  {
    var es := RowEntries(c, cols, j);
    assert es[0..] == es;
    WellKeyedConcat(es, 0);
  }

  lemma RowsWellKeyed(c: Context, cols: seq<nat>, rows: seq<nat>)
    ensures WellKeyed(PlainTree(c, cols, rows)) && WellKeyed(Leaf(c, cols, rows))
  {
    var es := NumberedRows(c, cols, rows);
    forall k | 0 <= k < |rows| ensures WellKeyedEntry(es[k]) {
      RowWellKeyed(c, cols, rows[k]);
    }
    assert es[0..] == es;
    WellKeyedConcat(es, 0);
    if |rows| == 1 {
      RowWellKeyed(c, cols, rows[0]);
    }
  }

  lemma {:induction false} TreeWellKeyed(c: Context, cols: seq<nat>, rows: seq<nat>, atts: seq<string>)
    requires Tree(c, cols, rows, atts).Success?
    ensures WellKeyed(Tree(c, cols, rows, atts).value)
    decreases |atts|, 0
  {
    if atts == [] {
      RowsWellKeyed(c, cols, rows);
    } else {
      var nam := FirstName(atts[0], c.names, 0).value;
      BranchesWellKeyed(c, EraseIndex(cols, nam), rows, nam, Values(c, nam, rows), Without(atts[1..], atts[0]));
    }
  }

  lemma {:induction false} BranchesWellKeyed(c: Context, cols: seq<nat>, rows: seq<nat>, nam: nat, values: seq<string>, atts: seq<string>)
    requires Branches(c, cols, rows, nam, values, atts).Success?
    ensures WellKeyedEntries(Branches(c, cols, rows, nam, values, atts).value)
    decreases |atts|, |values| + 1
  {
    if values != [] {
      TreeWellKeyed(c, cols, Having(c, nam, values[0], rows), atts);
      BranchesWellKeyed(c, cols, rows, nam, values[1..], atts);
      var entries := Branches(c, cols, rows, nam, values, atts).value;
      assert entries[1..] == Branches(c, cols, rows, nam, values[1..], atts).value;
    }
  }

  /** A decoder of PHP arrays takes all of the text and finds the tree. */
  lemma GroupedTextDecodes(c: Context, cols: seq<nat>, rows: seq<nat>, atts: seq<string>)
    requires Tree(c, cols, rows, atts).Success?
    ensures var tree := Tree(c, cols, rows, atts).value;
            Decoded(Encoded(tree)) == Some((tree, ""))
  {
    var tree := Tree(c, cols, rows, atts).value;
    TreeWellKeyed(c, cols, rows, atts);
    RoundTrip(tree, "");
    assert Encoded(tree) + "" == Encoded(tree);
  }

  lemma PlainTextDecodes(c: Context, cols: seq<nat>, rows: seq<nat>)
    ensures var tree := PlainTree(c, cols, rows);
            Decoded(Encoded(tree)) == Some((tree, ""))
  {
    var tree := PlainTree(c, cols, rows);
    RowsWellKeyed(c, cols, rows);
    RoundTrip(tree, "");
    assert Encoded(tree) + "" == Encoded(tree);
  }

  // ---------------------------------------------------------------- printing

  /** The two lists the recursion changes in place. */
  class Grouping {
    var theCols: seq<nat>
    var theAttributes: seq<string>

    constructor (cols: seq<nat>, attributes: seq<string>)
      ensures theCols == cols && theAttributes == attributes
    {
      theCols, theAttributes := cols, attributes;
    }
  }

  /** Rows and columns lie in the table. */
  predicate Fits(c: Context, cols: seq<nat>, rows: seq<nat>) {
    && (rows != [] ==> c.grid.elements != []) && (forall j :: j in rows ==> c.grid.HasRow(j))
    && (forall i :: i in cols ==> c.grid.HasColumn(i))
  }

  /** Every column has a name. */
  predicate Labelled(c: Context, cols: seq<nat>) {
    forall i :: i in cols ==> i < |c.names|
  }

  method AppendString(out: string, s: string) returns (r: string)
    ensures r == out + Encoded(Str(s))
  {
    Regroup6(out, "s:", Decimal(|s|), ":\"", s, "\";");
    Regroup5("s:", Decimal(|s|), ":\"", s, "\";");
    r := out + "s:";
    r := r + Decimal(|s|);
    r := r + ":\"";
    r := r + s;
    r := r + "\";";
  }

  lemma RowStep(c: Context, cols: seq<nat>, j: nat, k: nat)
    requires k < |cols|
    ensures EncodedEntries(RowEntries(c, cols[..k + 1], j))
            == EncodedEntries(RowEntries(c, cols[..k], j)) + Encoded(Str(Name(c, cols[k]))) + Encoded(Str(Shown(c, cols[k], j)))
  {
    var e := Entry(Str(Name(c, cols[k])), Str(Shown(c, cols[k], j)));
    assert RowEntries(c, cols[..k + 1], j) == RowEntries(c, cols[..k], j) + [e];
    EncodedAppend(RowEntries(c, cols[..k], j), [e]);
    assert EncodedEntries([e]) == EncodedEntry(e) + "" == EncodedEntry(e);
    Regroup3(EncodedEntries(RowEntries(c, cols[..k], j)), Encoded(e.key), Encoded(e.value));
  }

  method FormatRow(t: Table, c: Context, cols: seq<nat>, j: nat) returns (out: string)
    requires Backed(t, c) && Fits(c, cols, [j]) && Labelled(c, cols)
    ensures out == Encoded(RowNode(c, cols, j))
  {
    var head := "a:" + Decimal(|cols|) + ":{";
    assert j in [j];
    out := head;
    assert head == head + EncodedEntries(RowEntries(c, cols[..0], j));
    for k := 0 to |cols|
      invariant out == head + EncodedEntries(RowEntries(c, cols[..k], j))
    {
      assert cols[k] in cols;
      RowStep(c, cols, j, k);
      Regroup4(head, EncodedEntries(RowEntries(c, cols[..k], j)), Encoded(Str(Name(c, cols[k]))),
               Encoded(Str(Shown(c, cols[k], j))));
      Regroup3(EncodedEntries(RowEntries(c, cols[..k], j)), Encoded(Str(Name(c, cols[k]))),
               Encoded(Str(Shown(c, cols[k], j))));
      out := AppendString(out, c.names[cols[k]]);
      var value := t.Get(cols[k], j);
      out := AppendString(out, if value.value == "" then c.miss else value.value);
    }
    assert cols[..|cols|] == cols && |RowEntries(c, cols, j)| == |cols|;
    out := out + "}";
  }

  lemma NumberedStep(c: Context, cols: seq<nat>, rows: seq<nat>, k: nat)
    requires k < |rows|
    ensures EncodedEntries(NumberedRows(c, cols, rows[..k + 1]))
            == EncodedEntries(NumberedRows(c, cols, rows[..k])) + Encoded(Num(k)) + Encoded(RowNode(c, cols, rows[k]))
  {
    var e := Entry(Num(k), RowNode(c, cols, rows[k]));
    assert NumberedRows(c, cols, rows[..k + 1]) == NumberedRows(c, cols, rows[..k]) + [e];
    EncodedAppend(NumberedRows(c, cols, rows[..k]), [e]);
    assert EncodedEntries([e]) == EncodedEntry(e) + "" == EncodedEntry(e);
    Regroup3(EncodedEntries(NumberedRows(c, cols, rows[..k])), Encoded(e.key), Encoded(e.value));
  }

  /** One more numbered row after the text of the first k. */
  lemma NumberedText(c: Context, cols: seq<nat>, rows: seq<nat>, k: nat, head: string, row: string)
    requires k < |rows| && row == Encoded(RowNode(c, cols, rows[k]))
    ensures head + EncodedEntries(NumberedRows(c, cols, rows[..k])) + ("i:" + Decimal(k) + ";") + row
            == head + EncodedEntries(NumberedRows(c, cols, rows[..k + 1]))
  {
    var before := EncodedEntries(NumberedRows(c, cols, rows[..k]));
    NumberedStep(c, cols, rows, k);
    Regroup4(head, before, Encoded(Num(k)), row);
    Regroup3(before, Encoded(Num(k)), row);
  }

  /** Without grouping, every row is numbered, and a single row is too. */
  method FormatPlain(t: Table, c: Context, cols: seq<nat>, rows: seq<nat>) returns (out: string)
    requires Backed(t, c) && Fits(c, cols, rows) && Labelled(c, cols)
    ensures out == Encoded(PlainTree(c, cols, rows))
  {
    var head := "a:" + Decimal(|rows|) + ":{";
    out := head;
    assert head == head + EncodedEntries(NumberedRows(c, cols, rows[..0]));
    for k := 0 to |rows|
      invariant out == head + EncodedEntries(NumberedRows(c, cols, rows[..k]))
    {
      assert rows[k] in rows;
      out := out + ("i:" + Decimal(k) + ";");
      var row := FormatRow(t, c, cols, rows[k]);
      NumberedText(c, cols, rows, k, head, row);
      out := out + row;
    }
    assert rows[..|rows|] == rows && |NumberedRows(c, cols, rows)| == |rows|;
    out := out + "}";
  }

  /** The rows of a leaf; only several rows are counted and numbered. */
  method FormatLeaf(t: Table, c: Context, cols: seq<nat>, rows: seq<nat>) returns (out: string)
    requires Backed(t, c) && Fits(c, cols, rows) && Labelled(c, cols) && rows != []
    ensures out == Encoded(Leaf(c, cols, rows))
  {
    var head := if |rows| > 1 then "a:" + Decimal(|rows|) + ":{" else "";
    out := head;
    assert head == head + EncodedEntries(NumberedRows(c, cols, rows[..0]));
    for k := 0 to |rows|
      invariant |rows| > 1 ==> out == head + EncodedEntries(NumberedRows(c, cols, rows[..k]))
      invariant |rows| == 1 ==> out == if k == 0 then "" else Encoded(RowNode(c, cols, rows[0]))
    {
      assert rows[k] in rows;
      if |rows| > 1 {
        out := out + ("i:" + Decimal(k) + ";");
      }
      var row := FormatRow(t, c, cols, rows[k]);
      NumberedText(c, cols, rows, k, head, row);
      assert "" + row == row;
      out := out + row;
    }
    if |rows| > 1 {
      assert rows[..|rows|] == rows && |NumberedRows(c, cols, rows)| == |rows|;
      out := out + "}";
    }
  }

  method FindName(name: string, names: seq<string>) returns (r: Result<nat>)
    ensures r == match FirstName(name, names, 0) case None => Thrown case Some(nam) => Success(nam)
  {
    var nam := 0;
    while nam < |names|
      invariant nam <= |names| && FirstName(name, names, 0) == FirstName(name, names, nam)
    {
      if names[nam] == name {
        break;
      }
      nam := nam + 1;
    }
    if nam >= |names| {
      return Thrown;
    }
    return Success(nam);
  }

  lemma {:induction false} FirstNameFacts(name: string, names: seq<string>, from_: nat)
    requires from_ <= |names|
    ensures FirstName(name, names, from_).Some? ==>
              var nam := FirstName(name, names, from_).value; nam < |names| && names[nam] == name
    decreases |names| - from_
  {
    if from_ < |names| && names[from_] != name {
      FirstNameFacts(name, names, from_ + 1);
    }
  }

  /** The loop that collects the values of the grouping column; a column outside the table throws. */
  method CollectValues(t: Table, c: Context, nam: nat, rows: seq<nat>) returns (r: Result<seq<string>>)
    requires Backed(t, c) && Fits(c, [], rows)
    ensures r == if rows != [] && !c.grid.HasColumn(nam) then Thrown else Success(Values(c, nam, rows))
  {
    var values: seq<string> := [];
    for k := 0 to |rows|
      invariant values == Values(c, nam, rows[..k]) && (k > 0 ==> c.grid.HasColumn(nam))
    {
      assert rows[k] in rows;
      assert rows[..k + 1][..k] == rows[..k];
      var value := t.Get(nam, rows[k]);
      if value.Thrown? {
        return Thrown;
      }
      if value.value != "" {
        values := SetInsert(values, value.value);
      }
    }
    assert rows[..|rows|] == rows;
    return Success(values);
  }

  /** The loop that picks the rows of one value. */
  method RowsWith(t: Table, c: Context, nam: nat, value: string, theRows: seq<nat>) returns (rows: seq<nat>)
    requires Backed(t, c) && Fits(c, [], theRows) && Ascending(theRows)
    requires theRows != [] ==> c.grid.HasColumn(nam)
    ensures rows == Having(c, nam, value, theRows)
  {
    rows := [];
    for k := 0 to |theRows|
      invariant rows == Having(c, nam, value, theRows[..k])
    {
      assert theRows[k] in theRows;
      assert theRows[..k + 1][..k] == theRows[..k];
      HavingMembers(c, nam, value, theRows[..k]);
      var cell := t.Get(nam, theRows[k]);
      if cell.value == value {
        forall i | 0 <= i < |rows| ensures rows[i] < theRows[k] {
          assert rows[i] in rows;
        }
        InsertLast(rows, theRows[k]);
        rows := InsertIndex(rows, theRows[k]);
      }
    }
    assert theRows[..|theRows|] == theRows;
  }

  /** The column of an attribute; past the last one when the attribute is unknown. */
  function ColumnOf(c: Context, a: string): nat {
    match FirstName(a, c.names, 0)
    case None => |c.names|
    case Some(nam) => nam
  }

  predicate Present(c: Context, a: string) {
    FirstName(a, c.names, 0).Some? && c.grid.elements != [] && c.grid.HasColumn(ColumnOf(c, a))
  }

  /** The columns of the attributes still to come are among the columns. */
  predicate ColumnsThere(c: Context, cols: seq<nat>, atts: seq<string>) {
    forall a :: a in atts && Present(c, a) ==> ColumnOf(c, a) in cols
  }

  lemma ColumnsStayThere(c: Context, cols: seq<nat>, atts: seq<string>)
    requires ColumnsThere(c, cols, atts) && atts != []
    ensures ColumnsThere(c, EraseIndex(cols, ColumnOf(c, atts[0])), Without(atts[1..], atts[0]))
  {
    var rest := Without(atts[1..], atts[0]);
    WithoutMembers(atts[1..], atts[0]);
    EraseMembers(cols, ColumnOf(c, atts[0]));
    FirstNameFacts(atts[0], c.names, 0);
    forall a | a in rest && Present(c, a)
      ensures ColumnOf(c, a) in EraseIndex(cols, ColumnOf(c, atts[0]))
    {
      FirstNameFacts(a, c.names, 0);
    }
  }

  function Longer(k: nat, l: nat): nat {
    if k < l then l else k
  }

  /** How many levels of grouping are entered: a level without values has none below it. */
  function Levels(c: Context, rows: seq<nat>, atts: seq<string>): nat
    decreases |atts|, 0
  {
    if atts == [] then 0
    else
      var nam := ColumnOf(c, atts[0]);
      1 + LevelsBelow(c, rows, nam, Values(c, nam, rows), Without(atts[1..], atts[0]))
  }

  function LevelsBelow(c: Context, rows: seq<nat>, nam: nat, values: seq<string>, atts: seq<string>): nat
    decreases |atts|, |values| + 1
  {
    if values == [] then 0
    else
      Longer(LevelsBelow(c, rows, nam, values[..|values| - 1], atts),
             Levels(c, Having(c, nam, values[|values| - 1], rows), atts))
  }

  lemma {:induction false} LevelsDedup(c: Context, rows: seq<nat>, atts: seq<string>, k: nat)
    ensures Levels(c, rows, Dedup(atts, k)) == Levels(c, rows, atts)
    decreases |atts|, 0
  {
    if k > 0 && atts != [] {
      var rest := Without(atts[1..], atts[0]);
      DedupTail(atts, k);
      var nam := ColumnOf(c, atts[0]);
      LevelsBelowDedup(c, rows, nam, Values(c, nam, rows), rest, k - 1);
    }
  }

  lemma {:induction false} LevelsBelowDedup(c: Context, rows: seq<nat>, nam: nat, values: seq<string>, atts: seq<string>, k: nat)
    ensures LevelsBelow(c, rows, nam, values, Dedup(atts, k)) == LevelsBelow(c, rows, nam, values, atts)
    decreases |atts|, |values| + 1
  {
    if values != [] {
      LevelsDedup(c, Having(c, nam, values[|values| - 1], rows), atts, k);
      LevelsBelowDedup(c, rows, nam, values[..|values| - 1], atts, k);
    }
  }

  lemma SameMembers(c: Context, cols: seq<nat>, atts: seq<string>, k: nat)
    requires ColumnsThere(c, cols, atts)
    ensures ColumnsThere(c, cols, Dedup(atts, k))
  {
    DedupMembers(atts, k);
  }

  lemma BranchesStep(c: Context, cols: seq<nat>, rows: seq<nat>, nam: nat, values: seq<string>, atts: seq<string>, k: nat)
    requires k < |values|
    ensures var all := Branches(c, cols, rows, nam, values[k..], atts);
            var tree := Tree(c, cols, Having(c, nam, values[k], rows), atts);
            var more := Branches(c, cols, rows, nam, values[k + 1..], atts);
            && (all.Thrown? <==> tree.Thrown? || more.Thrown?)
            && (all.Success? ==> all.value == [Entry(Str(values[k]), tree.value)] + more.value)
  {
    assert values[k..][1..] == values[k + 1..];
  }

  /** The table is built and holds the cells. */
  ghost predicate Backed(t: Table, c: Context)
    reads t
  {
    t.Valid() && t.itsBuildingDone && t.Content() == c.grid
  }

  /** Without any names the first attribute is already unknown, so the columns need none. */
  predicate Groupable(c: Context, cols: seq<nat>, rows: seq<nat>, atts: seq<string>) {
    && Fits(c, cols, rows) && Ascending(cols) && Ascending(rows) && ColumnsThere(c, cols, atts)
    && (c.names != [] ==> Labelled(c, cols))
  }

  /** The rows of a value are printed next, under a column that is there. */
  predicate Branching(c: Context, cols: seq<nat>, rows: seq<nat>, nam: nat, values: seq<string>, atts: seq<string>) {
    && Groupable(c, cols, rows, atts) && (rows != [] ==> c.grid.HasColumn(nam)) && c.names != []
    && forall v :: v in values ==> Having(c, nam, v, rows) != []
  }

  lemma OfOneValue(c: Context, cols: seq<nat>, rows: seq<nat>, nam: nat, values: seq<string>, atts: seq<string>, v: string, k: nat)
    requires Branching(c, cols, rows, nam, values, atts) && v in values
    ensures var h := Having(c, nam, v, rows);
            && h != [] && Groupable(c, cols, h, Dedup(atts, k)) && c.grid.HasColumn(nam) && Fits(c, [], rows)
            && Tree(c, cols, h, Dedup(atts, k)) == Tree(c, cols, h, atts)
            && Levels(c, h, Dedup(atts, k)) == Levels(c, h, atts)
  {
    HavingMembers(c, nam, v, rows);
    var h := Having(c, nam, v, rows);
    SameMembers(c, cols, atts, k);
    TreeDedup(c, cols, h, atts, k);
    LevelsDedup(c, h, atts, k);
  }

  /** The body of the loop over the values: the value, and the tree of its rows. */
  method FormatBranch(t: Table, c: Context, g: Grouping, rows: seq<nat>, nam: nat, value: string, ghost values: seq<string>,
                      ghost cols: seq<nat>, ghost atts: seq<string>, ghost levels: nat)
    returns (r: Result<string>)
    requires Backed(t, c) && Branching(c, cols, rows, nam, values, atts) && value in values
    requires g.theCols == cols && g.theAttributes == Dedup(atts, levels)
    modifies g
    ensures var tree := Tree(c, cols, Having(c, nam, value, rows), atts);
            (r.Thrown? <==> tree.Thrown?) && (r.Success? ==> r.value == EncodedEntry(Entry(Str(value), tree.value)))
    ensures r.Success? ==> g.theCols == cols
    ensures r.Success? ==> g.theAttributes == Dedup(atts, Longer(levels, Levels(c, Having(c, nam, value, rows), atts)))
    decreases |atts|, 1
  {
    OfOneValue(c, cols, rows, nam, values, atts, value, levels);
    var rowsOfValue := RowsWith(t, c, nam, value, rows);
    r := FormatAttributes(t, c, g, rowsOfValue);
    if r.Success? {
      DedupTwice(atts, levels, Levels(c, rowsOfValue, atts));
      var key := AppendString("", value);
      assert key == Encoded(Str(value));
      r := Success(key + r.value);
    }
  }

  /** After k values: what is printed and what is still to come make up the whole. */
  predicate Progress(c: Context, cols: seq<nat>, rows: seq<nat>, nam: nat, values: seq<string>, atts: seq<string>, k: nat, text: string)
    requires k <= |values|
  {
    var whole, rest := Branches(c, cols, rows, nam, values, atts), Branches(c, cols, rows, nam, values[k..], atts);
    && (whole.Thrown? <==> rest.Thrown?)
    && (whole.Success? ==> text + EncodedEntries(rest.value) == EncodedEntries(whole.value))
  }

  lemma ProgressStep(c: Context, cols: seq<nat>, rows: seq<nat>, nam: nat, values: seq<string>, atts: seq<string>, k: nat, text: string)
    requires k < |values| && Progress(c, cols, rows, nam, values, atts, k, text)
    ensures var tree := Tree(c, cols, Having(c, nam, values[k], rows), atts);
            if tree.Thrown? then Branches(c, cols, rows, nam, values, atts).Thrown?
            else Progress(c, cols, rows, nam, values, atts, k + 1, text + EncodedEntry(Entry(Str(values[k]), tree.value)))
  {
    BranchesStep(c, cols, rows, nam, values, atts, k);
    var tree, more := Tree(c, cols, Having(c, nam, values[k], rows), atts), Branches(c, cols, rows, nam, values[k + 1..], atts);
    if tree.Success? && more.Success? {
      var e := Entry(Str(values[k]), tree.value);
      assert ([e] + more.value)[1..] == more.value;
      Regroup3(text, EncodedEntry(e), EncodedEntries(more.value));
    }
  }

  lemma ProgressEnds(c: Context, cols: seq<nat>, rows: seq<nat>, nam: nat, values: seq<string>, atts: seq<string>, text: string)
    ensures Progress(c, cols, rows, nam, values, atts, 0, "")
    ensures Progress(c, cols, rows, nam, values, atts, |values|, text)
            ==> var whole := Branches(c, cols, rows, nam, values, atts);
                whole.Success? && text == EncodedEntries(whole.value)
  {
    assert values[0..] == values && values[|values|..] == [];
    assert text + "" == text;
    var whole := Branches(c, cols, rows, nam, values, atts);
    assert whole.Success? ==> "" + EncodedEntries(whole.value) == EncodedEntries(whole.value);
  }

  lemma LevelsStep(c: Context, rows: seq<nat>, nam: nat, values: seq<string>, atts: seq<string>, k: nat)
    requires k < |values|
    ensures LevelsBelow(c, rows, nam, values[..k + 1], atts)
            == Longer(LevelsBelow(c, rows, nam, values[..k], atts), Levels(c, Having(c, nam, values[k], rows), atts))
  {
    assert values[..k + 1][..k] == values[..k];
  }

  /** The loop over the values. */
  method FormatBranches(t: Table, c: Context, g: Grouping, rows: seq<nat>, nam: nat, values: seq<string>)
    returns (r: Result<string>)
    requires Backed(t, c) && Branching(c, g.theCols, rows, nam, values, g.theAttributes)
    modifies g
    ensures var branches := Branches(c, old(g.theCols), rows, nam, values, old(g.theAttributes));
            (r.Thrown? <==> branches.Thrown?) && (r.Success? ==> r.value == EncodedEntries(branches.value))
    ensures r.Success? ==> g.theCols == old(g.theCols)
    ensures r.Success? ==>
              g.theAttributes
              == Dedup(old(g.theAttributes), LevelsBelow(c, rows, nam, values, old(g.theAttributes)))
    decreases |g.theAttributes|, 2
  {
    ghost var cols, atts := g.theCols, g.theAttributes;
    var text := "";
    ProgressEnds(c, cols, rows, nam, values, atts, text);
    for k := 0 to |values|
      invariant g.theCols == cols && g.theAttributes == Dedup(atts, LevelsBelow(c, rows, nam, values[..k], atts))
      invariant Progress(c, cols, rows, nam, values, atts, k, text)
    {
      ProgressStep(c, cols, rows, nam, values, atts, k, text);
      LevelsStep(c, rows, nam, values, atts, k);
      var branch := FormatBranch(t, c, g, rows, nam, values[k], values, cols, atts,
                                 LevelsBelow(c, rows, nam, values[..k], atts));
      if branch.Thrown? {
        return Thrown;
      }
      text := text + branch.value;
    }
    ProgressEnds(c, cols, rows, nam, values, atts, text);
    assert values[..|values|] == values;
    return Success(text);
  }

  /**
   The recursion: the columns are restored, and the attributes too, but for repeats further down, which are left
   out as far down as some row got.
   */
  method FormatAttributes(t: Table, c: Context, g: Grouping, rows: seq<nat>) returns (r: Result<string>)
    requires Backed(t, c) && Groupable(c, g.theCols, rows, g.theAttributes)
    requires g.theAttributes != [] || (rows != [] && Labelled(c, g.theCols))
    modifies g
    ensures var tree := Tree(c, old(g.theCols), rows, old(g.theAttributes));
            (r.Thrown? <==> tree.Thrown?) && (r.Success? ==> r.value == Encoded(tree.value))
    ensures r.Success? ==> g.theCols == ColumnsAfter(c, old(g.theCols), rows, old(g.theAttributes))
    ensures r.Success? ==> g.theAttributes == Dedup(old(g.theAttributes), Levels(c, rows, old(g.theAttributes)))
    decreases |g.theAttributes|, 0
  {
    if g.theAttributes == [] {
      var leaf := FormatLeaf(t, c, g.theCols, rows);
      return Success(leaf);
    }
    r := FormatGroup(t, c, g, rows);
  }

  /** The columns are restored; when there are no rows, the first grouping column is put in even if it was not there. */
  function ColumnsAfter(c: Context, cols: seq<nat>, rows: seq<nat>, atts: seq<string>): seq<nat> {
    if atts == [] || rows != [] then cols else InsertIndex(EraseIndex(cols, ColumnOf(c, atts[0])), ColumnOf(c, atts[0]))
  }

  /** The column of an attribute and its values. */
  function Group(c: Context, rows: seq<nat>, attribute: string): Result<(nat, seq<string>)> {
    match FirstName(attribute, c.names, 0)
    case None => Thrown
    case Some(nam) =>
      if rows != [] && !c.grid.HasColumn(nam) then Thrown else Success((nam, Values(c, nam, rows)))
  }

  method FindGroup(t: Table, c: Context, rows: seq<nat>, attribute: string) returns (r: Result<(nat, seq<string>)>)
    requires Backed(t, c) && Fits(c, [], rows)
    ensures r == Group(c, rows, attribute)
  {
    var nam := FindName(attribute, c.names);
    if nam.Thrown? {
      return Thrown;
    }
    var values := CollectValues(t, c, nam.value, rows);
    if values.Thrown? {
      return Thrown;
    }
    return Success((nam.value, values.value));
  }

  /** The tree of a group from those of its branches. */
  lemma TreeOfGroup(c: Context, cols: seq<nat>, rows: seq<nat>, atts: seq<string>)
    requires atts != []
    ensures var tree, group := Tree(c, cols, rows, atts), Group(c, rows, atts[0]);
            if group.Thrown? then tree.Thrown?
            else
              var (nam, values) := group.value;
              var branches := Branches(c, EraseIndex(cols, nam), rows, nam, values, Without(atts[1..], atts[0]));
              && (tree.Thrown? <==> branches.Thrown?)
              && (tree.Success? ==> tree.value == Arr(branches.value) && |branches.value| == |values|)
  {
    var group := Group(c, rows, atts[0]);
    if group.Success? {
      var (nam, values) := group.value;
      BranchCount(c, EraseIndex(cols, nam), rows, nam, values, Without(atts[1..], atts[0]));
    }
  }

  lemma LevelsOfGroup(c: Context, rows: seq<nat>, atts: seq<string>)
    requires atts != [] && Group(c, rows, atts[0]).Success?
    ensures var (nam, values) := Group(c, rows, atts[0]).value;
            var rest := Without(atts[1..], atts[0]);
            Dedup(atts, Levels(c, rows, atts)) == [atts[0]] + Dedup(rest, LevelsBelow(c, rows, nam, values, rest))
  {
  }

  method FormatGroup(t: Table, c: Context, g: Grouping, rows: seq<nat>) returns (r: Result<string>)
    requires Backed(t, c) && Groupable(c, g.theCols, rows, g.theAttributes) && g.theAttributes != []
    modifies g
    ensures var tree := Tree(c, old(g.theCols), rows, old(g.theAttributes));
            (r.Thrown? <==> tree.Thrown?) && (r.Success? ==> r.value == Encoded(tree.value))
    ensures r.Success? ==> g.theCols == ColumnsAfter(c, old(g.theCols), rows, old(g.theAttributes))
    ensures r.Success? ==> g.theAttributes == Dedup(old(g.theAttributes), Levels(c, rows, old(g.theAttributes)))
    decreases |g.theAttributes| - 1, 3
  {
    ghost var cols, atts := g.theCols, g.theAttributes;
    TreeOfGroup(c, cols, rows, atts);
    var attribute := g.theAttributes[0];
    g.theAttributes := g.theAttributes[1..];
    var group := FindGroup(t, c, rows, attribute);
    if group.Thrown? {
      return Thrown;
    }
    var (nam, values) := group.value;
    GroupFacts(c, cols, rows, atts, nam);
    LevelsOfGroup(c, rows, atts);
    g.theCols := EraseIndex(g.theCols, nam);
    g.theAttributes := Without(g.theAttributes, attribute);
    var branches := FormatBranches(t, c, g, rows, nam, values);
    if branches.Thrown? {
      return Thrown;
    }
    g.theCols := InsertIndex(g.theCols, nam);
    g.theAttributes := [attribute] + g.theAttributes;
    return Success("a:" + Decimal(|values|) + ":{" + branches.value + "}");
  }

  /** What the first attribute leaves for the others. */
  lemma GroupFacts(c: Context, cols: seq<nat>, rows: seq<nat>, atts: seq<string>, nam: nat)
    requires atts != [] && FirstName(atts[0], c.names, 0) == Some(nam)
    requires Groupable(c, cols, rows, atts) && (rows != [] ==> c.grid.HasColumn(nam))
    ensures var rest, left := Without(atts[1..], atts[0]), EraseIndex(cols, nam);
            && Branching(c, left, rows, nam, Values(c, nam, rows), rest)
            && (rows != [] ==> InsertIndex(left, nam) == cols)
  {
    FirstNameFacts(atts[0], c.names, 0);
    ColumnsStayThere(c, cols, atts);
    EraseMembers(cols, nam);
    EraseAscending(cols, nam);
    forall v | v in Values(c, nam, rows) ensures Having(c, nam, v, rows) != [] {
      ValueHasRows(c, nam, v, rows);
    }
    if rows != [] {
      assert atts[0] in atts;
      EraseThenInsert(cols, nam);
    }
  }

  lemma {:induction false} BranchCount(c: Context, cols: seq<nat>, rows: seq<nat>, nam: nat, values: seq<string>, atts: seq<string>)
    ensures Branches(c, cols, rows, nam, values, atts).Success?
            ==> |Branches(c, cols, rows, nam, values, atts).value| == |values|
    decreases |values|
  {
    if values != [] {
      BranchCount(c, cols, rows, nam, values[1..], atts);
    }
  }

  // ---------------------------------------------------------------- the formatter

  function GetOr(o: Option<string>, default_: string): string {
    if o.None? then default_ else o.value
  }

  function Commas(s: string): seq<string>
    decreases |s|
  {
    var n := Find(s, ',', 0);
    if n == |s| then [s] else [s[..n]] + Commas(s[n + 1..])
  }

  function ParseAttributes(s: string): seq<string> {
    if s == "" then [] else Commas(s)
  }

  /** The names that are printed: only a table without groups has names of its own to fall back on. */
  function NamesUsed(tableNames: seq<string>, names: seq<string>, atts: seq<string>): seq<string> {
    if atts == [] && names == [] then tableNames else names
  }

  /** What is printed: all rows when no attribute is given, the groups otherwise. */
  function Printed(grid: Grid, tableNames: seq<string>, names: seq<string>, missing: Option<string>, atts: seq<string>,
                   cols: seq<nat>, rows: seq<nat>): Result<Node>
  {
    var miss := GetOr(missing, "nan");
    if atts == [] then Success(PlainTree(Context(grid, NamesUsed(tableNames, names, atts), miss), cols, rows))
    else Tree(Context(grid, names, miss), cols, rows, atts)
  }

  predicate Named(grid: Grid, names: seq<string>) {
    grid.elements != [] ==> grid.maxI < |names|
  }

  lemma IndicesFit(c: Context, startRow: nat, maxResults: nat, atts: seq<string>)
    requires Tight(c.grid) && (c.names != [] ==> Named(c.grid, c.names))
    ensures Named(c.grid, c.names) ==> Labelled(c, ColumnsOf(c.grid))
    ensures Groupable(c, ColumnsOf(c.grid), RowsOf(c.grid, startRow, maxResults), atts)
  {
    var g := c.grid;
    var cols := ColumnsOf(g);
    if g.elements != [] {
      forall i: nat | g.HasColumn(i) ensures i in cols {
        assert cols[i - g.minI] == i;
      }
    }
  }

  /** Grouping, with the lists the recursion works on. */
  method FormatGrouped(t: Table, c: Context, startRow: nat, maxResults: nat, atts: seq<string>) returns (r: Result<string>)
    requires Backed(t, c) && (c.names != [] ==> Named(c.grid, c.names)) && atts != []
    ensures var tree := Tree(c, ColumnsOf(c.grid), RowsOf(c.grid, startRow, maxResults), atts);
            (r.Thrown? <==> tree.Thrown?) && (r.Success? ==> r.value == Encoded(tree.value))
  {
    IndicesFit(c, startRow, maxResults, atts);
    var g := new Grouping(ColumnsOf(c.grid), atts);
    r := FormatAttributes(t, c, g, RowsOf(c.grid, startRow, maxResults));
  }

  /** The caller sees to it that every column has a name, unless grouping has no names to find an attribute in. */
  method Format(t: Table, tableNames: seq<string>, names: seq<string>, missing: Option<string>, attributes: Option<string>)
    returns (r: Result<string>)
    requires t.Valid()
    requires var atts := ParseAttributes(GetOr(attributes, ""));
             (atts == [] || names != []) ==> Named(t.Content(), NamesUsed(tableNames, names, atts))
    modifies t
    ensures t.Valid() && t.Content() == old(t.Content())
    ensures var g := t.Content();
            var tree := Printed(g, tableNames, names, missing, ParseAttributes(GetOr(attributes, "")), ColumnsOf(g),
                                RowsOf(g, t.itsStartRow, t.itsMaxResults));
            (r.Thrown? <==> tree.Thrown?) && (r.Success? ==> r.value == Encoded(tree.value))
  {
    var atts := ParseAttributes(GetOr(attributes, ""));
    var miss := GetOr(missing, "nan");
    var cols := t.Columns();
    var rows := t.Rows();
    if atts == [] {
      var c := Context(t.Content(), NamesUsed(tableNames, names, atts), miss);
      IndicesFit(c, t.itsStartRow, t.itsMaxResults, atts);
      var text := FormatPlain(t, c, cols, rows);
      return Success(text);
    }
    r := FormatGrouped(t, Context(t.Content(), names, miss), t.itsStartRow, t.itsMaxResults, atts);
  }

  /** The text of a table decodes to the tree that is printed. */
  lemma FormattedTextDecodes(grid: Grid, tableNames: seq<string>, names: seq<string>, missing: Option<string>,
                             atts: seq<string>, cols: seq<nat>, rows: seq<nat>)
    requires Printed(grid, tableNames, names, missing, atts, cols, rows).Success?
    ensures var tree := Printed(grid, tableNames, names, missing, atts, cols, rows).value;
            Decoded(Encoded(tree)) == Some((tree, ""))
  {
    var miss := GetOr(missing, "nan");
    if atts == [] {
      PlainTextDecodes(Context(grid, NamesUsed(tableNames, names, atts), miss), cols, rows);
    } else {
      GroupedTextDecodes(Context(grid, names, miss), cols, rows, atts);
    }
  }
}
