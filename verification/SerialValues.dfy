/**
 What the printed text says about the table: a reader that decodes it finds, in every row of every leaf, the values
 written to the cells, and the missing text for the others.
 */
module SerialValues {
  import opened Wrappers
  import opened Tables
  import opened PhpArrays
  import opened SerialFormatters
  import opened SerialGroups

  // ---------------------------------------------------------------- cells

  /** The text printed for a cell: its value when it has one, and otherwise the missing text. */
  ghost predicate ShowsCell(writes: seq<Element>, miss: string, i: nat, j: nat, text: string) {
    && (forall value :: Stored(writes, i, j, value) && value != "" ==> text == value)
    && (Blank(writes, i, j) ==> text == miss)
  }

  lemma CellShown(c: Context, i: nat, j: nat)
    ensures ShowsCell(c.grid.elements, c.miss, i, j, Shown(c, i, j))
  {
    var writes, v := c.grid.elements, Cell(c, i, j);
    LastWriteIsStored(writes, i, j);
    forall value | Stored(writes, i, j, value) ensures value == v {
      StoredOnce(writes, i, j, value, v);
    }
  }

  /** Cells are compared by what is stored in them. */
  lemma CellIs(c: Context, i: nat, j: nat, value: string)
    requires value != ""
    ensures Cell(c, i, j) == value <==> Stored(c.grid.elements, i, j, value)
  {
    LastWriteIsStored(c.grid.elements, i, j);
    if Stored(c.grid.elements, i, j, value) {
      StoredOnce(c.grid.elements, i, j, value, Cell(c, i, j));
    }
  }

  // ---------------------------------------------------------------- rows and leaves

  /** The node of a row: an entry for each column, under its name. */
  ghost predicate RowShows(n: Node, writes: seq<Element>, names: seq<string>, miss: string, cols: seq<nat>, j: nat) {
    && n.Arr? && |n.entries| == |cols|
    && forall p :: 0 <= p < |cols| ==> EntryShows(n.entries[p], writes, names, miss, cols[p], j)
  }

  ghost predicate EntryShows(e: Entry, writes: seq<Element>, names: seq<string>, miss: string, i: nat, j: nat) {
    (i < |names| ==> e.key == Str(names[i])) && e.value.Str? && ShowsCell(writes, miss, i, j, e.value.text)
  }

  /** Rows under their numbers. */
  ghost predicate RowsShow(n: Node, writes: seq<Element>, names: seq<string>, miss: string, cols: seq<nat>,
                           rows: seq<nat>)
  {
    && n.Arr? && |n.entries| == |rows|
    && forall k :: 0 <= k < |rows| ==>
         n.entries[k].key == Num(k) && RowShows(n.entries[k].value, writes, names, miss, cols, rows[k])
  }

  /** A single row of a leaf has no number. */
  ghost predicate LeafShows(n: Node, writes: seq<Element>, names: seq<string>, miss: string, cols: seq<nat>,
                            rows: seq<nat>)
  {
    if |rows| == 1 then RowShows(n, writes, names, miss, cols, rows[0])
    else RowsShow(n, writes, names, miss, cols, rows)
  }

  lemma RowNodeShows(c: Context, cols: seq<nat>, j: nat)
    ensures RowShows(RowNode(c, cols, j), c.grid.elements, c.names, c.miss, cols, j)
  {
    var es := RowEntries(c, cols, j);
    forall p | 0 <= p < |cols| ensures EntryShows(es[p], c.grid.elements, c.names, c.miss, cols[p], j) {
      CellShown(c, cols[p], j);
    }
  }

  lemma NumberedRowsShow(c: Context, cols: seq<nat>, rows: seq<nat>)
    ensures RowsShow(PlainTree(c, cols, rows), c.grid.elements, c.names, c.miss, cols, rows)
    ensures LeafShows(Leaf(c, cols, rows), c.grid.elements, c.names, c.miss, cols, rows)
  {
    var n := PlainTree(c, cols, rows);
    forall k | 0 <= k < |rows|
      ensures n.entries[k].key == Num(k)
      ensures RowShows(n.entries[k].value, c.grid.elements, c.names, c.miss, cols, rows[k])
      ensures RowShows(RowNode(c, cols, rows[k]), c.grid.elements, c.names, c.miss, cols, rows[k])
    {
      RowNodeShows(c, cols, rows[k]);
    }
  }

  // ---------------------------------------------------------------- the printed text

  /** Without grouping: the decoded text has every row of the page, with what is stored in its cells. */
  lemma PlainTextShowsTable(grid: Grid, tableNames: seq<string>, names: seq<string>, missing: Option<string>,
                            cols: seq<nat>, rows: seq<nat>) returns (n: Node)
    ensures var tree := Printed(grid, tableNames, names, missing, [], cols, rows);
            tree.Success? && Decoded(Encoded(tree.value)) == Some((n, ""))
    ensures RowsShow(n, grid.elements, if names == [] then tableNames else names,
                     if missing.None? then "nan" else missing.value, cols, rows)
  {
    var c := Context(grid, NamesUsed(tableNames, names, []), GetOr(missing, "nan"));
    n := PlainTree(c, cols, rows);
    PlainTextDecodes(c, cols, rows);
    NumberedRowsShow(c, cols, rows);
  }

  /** The rows with the given values in the columns of the given attributes. */
  ghost predicate RowsOfValues(grid: Grid, names: seq<string>, atts: seq<string>, path: seq<string>, rows: seq<nat>,
                               leafRows: seq<nat>)
    requires |path| == |atts|
  {
    && (Ascending(rows) ==> Ascending(leafRows))
    && forall j :: j in leafRows
                   <==> j in rows && forall k :: 0 <= k < |atts| ==> HasValue(grid, names, atts[k], j, path[k])
  }

  /** The first column of the name holds the value. */
  ghost predicate HasValue(grid: Grid, names: seq<string>, a: string, j: nat, value: string) {
    exists i :: 0 <= i < |names| && names[i] == a && a !in names[..i] && Stored(grid.elements, i, j, value)
  }

  ghost predicate ColumnsBut(names: seq<string>, atts: seq<string>, cols: seq<nat>, leafCols: seq<nat>) {
    && (Ascending(cols) ==> Ascending(leafCols))
    && forall i :: i in leafCols <==> i in cols && !(i < |names| && names[i] in atts && names[i] !in names[..i])
  }

  /** The column of a known name is the first one of that name. */
  lemma {:induction false} FirstNameIs(name: string, names: seq<string>, from_: nat)
    requires from_ <= |names| && name !in names[..from_]
    ensures FirstName(name, names, from_).Some? ==>
              var nam := FirstName(name, names, from_).value;
              nam < |names| && names[nam] == name && name !in names[..nam]
    ensures FirstName(name, names, from_).None? ==> name !in names
    decreases |names| - from_
  {
    if from_ == |names| {
      assert names[..from_] == names;
    } else if names[from_] != name {
      assert names[..from_ + 1] == names[..from_] + [names[from_]];
      FirstNameIs(name, names, from_ + 1);
    }
  }

  lemma InPrefix(names: seq<string>, i: nat, k: nat)
    requires i < k <= |names|
    ensures names[i] in names[..k]
  {
    assert names[..k][i] == names[i];
  }

  lemma OneFirst(names: seq<string>, i: nat, k: nat)
    requires i < |names| && k < |names| && names[i] == names[k] && names[i] !in names[..i] && names[k] !in names[..k]
    ensures i == k
  {
    if i < k {
      InPrefix(names, i, k);
    } else if k < i {
      InPrefix(names, k, i);
    }
  }

  lemma HasValueOfColumn(c: Context, a: string, j: nat, value: string)
    requires FirstName(a, c.names, 0).Some? && value != ""
    ensures Cell(c, ColumnOf(c, a), j) == value <==> HasValue(c.grid, c.names, a, j, value)
  {
    var nam := ColumnOf(c, a);
    assert c.names[..0] == [];
    FirstNameIs(a, c.names, 0);
    CellIs(c, nam, j, value);
    forall i | 0 <= i < |c.names| && c.names[i] == a && a !in c.names[..i] ensures i == nam {
      OneFirst(c.names, i, nam);
    }
  }

  /** A tree that goes down to its full depth knows all its attributes. */
  lemma {:induction false} AttributesKnown(c: Context, cols: seq<nat>, rows: seq<nat>, atts: seq<string>, pos: seq<nat>)
    requires Tree(c, cols, rows, atts).Success? && |pos| == |Distinct(atts)|
    requires At(Tree(c, cols, rows, atts).value, pos).Some?
    ensures forall a :: a in Distinct(atts) ==> FirstName(a, c.names, 0).Some?
    decreases |atts|
  {
    if atts != [] {
      var nam, rest := FirstName(atts[0], c.names, 0).value, Without(atts[1..], atts[0]);
      var values := Values(c, nam, rows);
      BranchAt(c, EraseIndex(cols, nam), rows, nam, values, rest, pos[0]);
      AttributesKnown(c, EraseIndex(cols, nam), Having(c, nam, values[pos[0]], rows), rest, pos[1..]);
      assert Distinct(atts) == [atts[0]] + Distinct(rest);
    }
  }

  lemma {:induction false} MatchingAscending(c: Context, atts: seq<string>, path: seq<string>, rows: seq<nat>)
    requires |path| == |atts| && Ascending(rows)
    ensures Ascending(Matching(c, atts, path, rows))
    decreases |atts|
  {
    if atts != [] {
      HavingMembers(c, ColumnOf(c, atts[0]), path[0], rows);
      MatchingAscending(c, atts[1..], path[1..], Having(c, ColumnOf(c, atts[0]), path[0], rows));
    }
  }

  lemma {:induction false} RemainingAscending(c: Context, cols: seq<nat>, atts: seq<string>)
    requires Ascending(cols)
    ensures Ascending(Remaining(c, cols, atts))
    decreases |atts|
  {
    if atts != [] {
      EraseAscending(cols, ColumnOf(c, atts[0]));
      RemainingAscending(c, EraseIndex(cols, ColumnOf(c, atts[0])), atts[1..]);
    }
  }

  lemma MatchingIsOfValues(c: Context, atts: seq<string>, path: seq<string>, rows: seq<nat>)
    requires |path| == |atts| && "" !in path && forall a :: a in atts ==> FirstName(a, c.names, 0).Some?
    ensures RowsOfValues(c.grid, c.names, atts, path, rows, Matching(c, atts, path, rows))
  {
    if Ascending(rows) {
      MatchingAscending(c, atts, path, rows);
    }
    MatchingMembers(c, atts, path, rows);
    forall k, j: nat | 0 <= k < |atts|
      ensures Cell(c, ColumnOf(c, atts[k]), j) == path[k] <==> HasValue(c.grid, c.names, atts[k], j, path[k])
    {
      assert atts[k] in atts && path[k] in path;
      HasValueOfColumn(c, atts[k], j, path[k]);
    }
  }

  lemma RemainingIsColumnsBut(c: Context, cols: seq<nat>, atts: seq<string>)
    requires forall a :: a in atts ==> FirstName(a, c.names, 0).Some?
    ensures ColumnsBut(c.names, atts, cols, Remaining(c, cols, atts))
  {
    if Ascending(cols) {
      RemainingAscending(c, cols, atts);
    }
    RemainingMembers(c, cols, atts);
    forall i: nat
      ensures (exists a :: a in atts && i == ColumnOf(c, a))
              <==> i < |c.names| && c.names[i] in atts && c.names[i] !in c.names[..i]
    {
      assert c.names[..0] == [];
      if a :| a in atts && i == ColumnOf(c, a) {
        FirstNameIs(a, c.names, 0);
      }
      if i < |c.names| && c.names[i] in atts && c.names[i] !in c.names[..i] {
        var a := c.names[i];
        FirstNameIs(a, c.names, 0);
        var nam := ColumnOf(c, a);
        OneFirst(c.names, i, nam);
      }
    }
  }

  /**
   With grouping: what the decoded text has at any position at full depth is the leaf of the rows that hold the
   values on the way to it, with what is stored in the cells of all columns but the grouping ones.
   */
  lemma GroupedTextShowsTable(grid: Grid, tableNames: seq<string>, names: seq<string>, missing: Option<string>,
                              atts: seq<string>, cols: seq<nat>, rows: seq<nat>, pos: seq<nat>)
    returns (n: Node, leafRows: seq<nat>, leafCols: seq<nat>)
    requires atts != [] && rows != [] && Printed(grid, tableNames, names, missing, atts, cols, rows).Success?
    ensures Decoded(Encoded(Printed(grid, tableNames, names, missing, atts, cols, rows).value)) == Some((n, ""))
    ensures |pos| == |Distinct(atts)| && At(n, pos).Some? ==>
              && "" !in KeysTo(n, pos) && leafRows != []
              && RowsOfValues(grid, names, Distinct(atts), KeysTo(n, pos), rows, leafRows)
              && ColumnsBut(names, Distinct(atts), cols, leafCols)
              && LeafShows(At(n, pos).value, grid.elements, names, if missing.None? then "nan" else missing.value,
                           leafCols, leafRows)
  {
    var c := Context(grid, names, GetOr(missing, "nan"));
    n := Tree(c, cols, rows, atts).value;
    GroupedTextDecodes(c, cols, rows, atts);
    leafRows, leafCols := [], [];
    if |pos| == |Distinct(atts)| && At(n, pos).Some? {
      var path := KeysTo(n, pos);
      LeafOfPosition(c, cols, rows, atts, pos);
      AttributesKnown(c, cols, rows, atts, pos);
      leafRows, leafCols := Matching(c, Distinct(atts), path, rows), Remaining(c, cols, Distinct(atts));
      MatchingIsOfValues(c, Distinct(atts), path, rows);
      RemainingIsColumnsBut(c, cols, Distinct(atts));
      NumberedRowsShow(c, leafCols, leafRows);
    }
  }

  // ---------------------------------------------------------------- texts that agree

  /** Two cells that are blank or hold the same value. */
  ghost predicate SameCell(a: seq<Element>, i: nat, j: nat, b: seq<Element>, k: nat, l: nat) {
    forall value :: value != "" ==> (Stored(a, i, j, value) <==> Stored(b, k, l, value))
  }

  lemma SameTextSameCell(a: seq<Element>, i: nat, j: nat, b: seq<Element>, k: nat, l: nat, miss: string, text: string)
    requires ShowsCell(a, miss, i, j, text) && ShowsCell(b, miss, k, l, text)
    requires !Stored(a, i, j, miss) && !Stored(b, k, l, miss)
    ensures SameCell(a, i, j, b, k, l)
  {
    LastWriteIsStored(a, i, j);
    LastWriteIsStored(b, k, l);
  }

  ghost predicate NowhereStored(grid: Grid, cols: seq<nat>, rows: seq<nat>, value: string) {
    forall i, j :: i in cols && j in rows ==> !Stored(grid.elements, i, j, value)
  }

  /** Tables whose texts agree hold the same values on the page, when the missing text is no cell's value. */
  lemma SameTextSameTable(a: Grid, b: Grid, names: seq<string>, others: seq<string>, missing: Option<string>,
                          cols: seq<nat>, rows: seq<nat>, cols': seq<nat>, rows': seq<nat>)
    requires Encoded(Printed(a, names, [], missing, [], cols, rows).value)
             == Encoded(Printed(b, others, [], missing, [], cols', rows').value)
    requires NowhereStored(a, cols, rows, if missing.None? then "nan" else missing.value)
    requires NowhereStored(b, cols', rows', if missing.None? then "nan" else missing.value)
    ensures |rows| == |rows'| && (rows != [] ==> |cols| == |cols'|)
    ensures forall k, p :: 0 <= k < |rows| && 0 <= p < |cols| ==>
              SameCell(a.elements, cols[p], rows[k], b.elements, cols'[p], rows'[k])
  {
    var miss := if missing.None? then "nan" else missing.value;
    var n := PlainTextShowsTable(a, names, [], missing, cols, rows);
    var m := PlainTextShowsTable(b, others, [], missing, cols', rows');
    assert n == m;
    forall k, p | 0 <= k < |rows| && 0 <= p < |cols|
      ensures SameCell(a.elements, cols[p], rows[k], b.elements, cols'[p], rows'[k])
    {
      var row := n.entries[k].value;
      assert RowShows(row, a.elements, names, miss, cols, rows[k]);
      assert RowShows(row, b.elements, others, miss, cols', rows'[k]);
      assert EntryShows(row.entries[p], a.elements, names, miss, cols[p], rows[k]);
      assert EntryShows(row.entries[p], b.elements, others, miss, cols'[p], rows'[k]);
      assert cols[p] in cols && rows[k] in rows && cols'[p] in cols' && rows'[k] in rows';
      SameTextSameCell(a.elements, cols[p], rows[k], b.elements, cols'[p], rows'[k], miss, row.entries[p].value.text);
    }
  }
}
