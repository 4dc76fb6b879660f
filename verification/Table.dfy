/** The table of results: a list of written cells, and the array built from it on first use. */
module Tables {
  import opened Wrappers

  datatype Element = Element(i: nat, j: nat, value: string)

  /** What the table says: its bounds and the cells in the order they were written. */
  datatype Grid = Grid(minI: nat, maxI: nat, minJ: nat, maxJ: nat, elements: seq<Element>) {
    predicate HasColumn(i: nat) { minI <= i <= maxI }
    predicate HasRow(j: nat) { minJ <= j <= maxJ }
  }

  /** The last value written to a cell; a cell never written is empty. */
  function LastWrite(list: seq<Element>, i: nat, j: nat): string {
    if list == [] then ""
    else
      var e := list[|list| - 1];
      if e.i == i && e.j == j then e.value else LastWrite(list[..|list| - 1], i, j)
  }

  /** The value of a cell, or the exception for an empty table and for an index out of range. */
  function CellAt(g: Grid, i: nat, j: nat): Result<string> {
    if g.elements == [] || !g.HasColumn(i) || !g.HasRow(j) then Thrown else Success(LastWrite(g.elements, i, j))
  }

  /** The bounds are the smallest and largest indices written. */
  predicate Tight(g: Grid) {
    && g.minI <= g.maxI && g.minJ <= g.maxJ
    && (forall e :: e in g.elements ==> g.HasColumn(e.i) && g.HasRow(e.j))
    && (g.elements != [] ==>
          && (exists e :: e in g.elements && e.i == g.minI) && (exists e :: e in g.elements && e.i == g.maxI)
          && (exists e :: e in g.elements && e.j == g.minJ) && (exists e :: e in g.elements && e.j == g.maxJ))
  }

  function Min(a: nat, b: nat): nat { if a < b then a else b }

  function Max(a: nat, b: nat): nat { if a < b then b else a }

  function Written(g: Grid, e: Element): Grid {
    if g.elements == [] then Grid(e.i, e.i, e.j, e.j, [e])
    else Grid(Min(g.minI, e.i), Max(g.maxI, e.i), Min(g.minJ, e.j), Max(g.maxJ, e.j), g.elements + [e])
  }

  lemma WrittenIsTight(g: Grid, e: Element)
    requires Tight(g)
    ensures Tight(Written(g, e))
  {
    var w := Written(g, e);
    assert e in w.elements && forall x :: x in g.elements ==> x in w.elements;
    if g.elements != [] {
      var a :| a in g.elements && a.i == g.minI;
      var b :| b in g.elements && b.i == g.maxI;
      var c :| c in g.elements && c.j == g.minJ;
      var d :| d in g.elements && d.j == g.maxJ;
      assert a in w.elements && b in w.elements && c in w.elements && d in w.elements;
    }
  }

  /** A write is seen by reads of its cell and by no other read. */
  lemma WriteThenRead(g: Grid, e: Element, i: nat, j: nat)
    requires Tight(g)
    ensures CellAt(Written(g, e), e.i, e.j) == Success(e.value)
    ensures (i, j) != (e.i, e.j) && CellAt(g, i, j).Success? ==> CellAt(Written(g, e), i, j) == CellAt(g, i, j)
  {
    var w := Written(g, e);
    assert w.elements[..|w.elements| - 1] == g.elements && w.elements[|w.elements| - 1] == e;
  }

  /** Consecutive indices, as std::set keeps them. */
  function Range(lo: nat, hi: nat): (s: seq<nat>)
    ensures |s| == if lo <= hi then hi - lo else 0
    ensures forall k :: 0 <= k < |s| ==> s[k] == lo + k
  {
    if lo <= hi then seq(hi - lo, k requires 0 <= k => lo + k) else []
  }

  lemma RangeNext(lo: nat, hi: nat)
    requires lo <= hi
    ensures Range(lo, hi) + [hi] == Range(lo, hi + 1)
  {
  }

  /** The row after the last one of a page; no limit when maxResults is 0. */
  function PageEnd(g: Grid, startRow: nat, maxResults: nat): nat {
    if maxResults == 0 then g.maxJ + 1 else Min(g.maxJ + 1, g.minJ + startRow + maxResults)
  }

  function ColumnsOf(g: Grid): seq<nat> {
    if g.elements == [] then [] else Range(g.minI, g.maxI + 1)
  }

  function RowsOf(g: Grid, startRow: nat, maxResults: nat): seq<nat> {
    if g.elements == [] then [] else Range(g.minJ + startRow, PageEnd(g, startRow, maxResults))
  }

  // ---------------------------------------------------------------- what a cell holds, from the writes alone

  predicate Writes(e: Element, i: nat, j: nat) {
    e.i == i && e.j == j
  }

  /** The value was written to the cell in the k-th write, and nothing was written to it later. */
  predicate StoredAt(writes: seq<Element>, i: nat, j: nat, value: string, k: nat) {
    && k < |writes| && Writes(writes[k], i, j) && writes[k].value == value
    && forall l :: k < l < |writes| ==> !Writes(writes[l], i, j)
  }

  /** The last value written to the cell. */
  ghost predicate Stored(writes: seq<Element>, i: nat, j: nat, value: string) {
    exists k: nat :: StoredAt(writes, i, j, value, k)
  }

  predicate Unwritten(writes: seq<Element>, i: nat, j: nat) {
    forall k :: 0 <= k < |writes| ==> !Writes(writes[k], i, j)
  }

  ghost predicate Blank(writes: seq<Element>, i: nat, j: nat) {
    Unwritten(writes, i, j) || Stored(writes, i, j, "")
  }

  lemma StoredStays(writes: seq<Element>, e: Element, i: nat, j: nat, value: string)
    requires !Writes(e, i, j)
    ensures Stored(writes, i, j, value) ==> Stored(writes + [e], i, j, value)
    ensures Unwritten(writes, i, j) ==> Unwritten(writes + [e], i, j)
  {
    if Stored(writes, i, j, value) {
      var k: nat :| StoredAt(writes, i, j, value, k);
      assert StoredAt(writes + [e], i, j, value, k);
    }
  }

  /** A cell holds one value, or is blank. */
  lemma {:induction false} LastWriteIsStored(writes: seq<Element>, i: nat, j: nat)
    ensures Stored(writes, i, j, LastWrite(writes, i, j)) || (Unwritten(writes, i, j) && LastWrite(writes, i, j) == "")
  {
    if writes != [] {
      var before, e := writes[..|writes| - 1], writes[|writes| - 1];
      assert writes == before + [e];
      if Writes(e, i, j) {
        assert StoredAt(writes, i, j, e.value, |writes| - 1);
      } else {
        LastWriteIsStored(before, i, j);
        StoredStays(before, e, i, j, LastWrite(before, i, j));
      }
    }
  }

  lemma StoredOnce(writes: seq<Element>, i: nat, j: nat, a: string, b: string)
    requires Stored(writes, i, j, a)
    ensures !Unwritten(writes, i, j) && (Stored(writes, i, j, b) ==> a == b)
  {
  }

  // ---------------------------------------------------------------- the table, from the writes alone

  /** The table after some writes, from an empty one. */
  function Built(writes: seq<Element>): Grid {
    if writes == [] then Grid(0, 0, 0, 0, [])
    else Written(Built(writes[..|writes| - 1]), writes[|writes| - 1])
  }

  lemma {:induction false} BuiltHolds(writes: seq<Element>)
    ensures Built(writes).elements == writes && Tight(Built(writes))
  {
    if writes != [] {
      var before := writes[..|writes| - 1];
      BuiltHolds(before);
      WrittenIsTight(Built(before), writes[|writes| - 1]);
      assert writes == before + [writes[|writes| - 1]];
    }
  }

  /** Writes to the left and to the right of a column, or in it. */
  predicate SpansColumn(writes: seq<Element>, i: nat) {
    (exists e :: e in writes && e.i <= i) && (exists e :: e in writes && i <= e.i)
  }

  predicate SpansRow(writes: seq<Element>, j: nat) {
    (exists e :: e in writes && e.j <= j) && (exists e :: e in writes && j <= e.j)
  }

  lemma BuiltElements(writes: seq<Element>)
    ensures Built(writes).elements == writes
  {
    BuiltHolds(writes);
  }

  lemma BoundsAreSpans(writes: seq<Element>)
    ensures var g := Built(writes);
            && (forall i: nat :: SpansColumn(writes, i) <==> writes != [] && g.HasColumn(i))
            && (forall j: nat :: SpansRow(writes, j) <==> writes != [] && g.HasRow(j))
  {
    BuiltHolds(writes);
    if writes != [] {
      ColumnsSpan(Built(writes));
      RowsSpan(Built(writes));
    }
  }

  lemma ColumnsSpan(g: Grid)
    requires Tight(g) && g.elements != []
    ensures forall i: nat :: SpansColumn(g.elements, i) <==> g.HasColumn(i)
  {
    var a :| a in g.elements && a.i == g.minI;
    var b :| b in g.elements && b.i == g.maxI;
  }

  lemma RowsSpan(g: Grid)
    requires Tight(g) && g.elements != []
    ensures forall j: nat :: SpansRow(g.elements, j) <==> g.HasRow(j)
  {
    var a :| a in g.elements && a.j == g.minJ;
    var b :| b in g.elements && b.j == g.maxJ;
  }

  /**
   Reading gives the last value written to the cell, or nothing when none was; it throws exactly when the column or
   the row is not between two that were written.
   */
  lemma ReadByWrites(writes: seq<Element>, i: nat, j: nat)
    ensures var r := CellAt(Built(writes), i, j);
            && (r.Success? <==> SpansColumn(writes, i) && SpansRow(writes, j))
            && (r.Success? ==> Stored(writes, i, j, r.value) || (Unwritten(writes, i, j) && r.value == ""))
  {
    BuiltHolds(writes);
    BoundsAreSpans(writes);
    LastWriteIsStored(writes, i, j);
  }

  predicate Increasing(s: seq<nat>) {
    forall k, l :: 0 <= k < l < |s| ==> s[k] < s[l]
  }

  lemma RangeMembers(lo: nat, hi: nat)
    ensures Increasing(Range(lo, hi)) && forall x: nat :: x in Range(lo, hi) <==> lo <= x < hi
  {
    forall x: nat | lo <= x < hi ensures x in Range(lo, hi) {
      assert Range(lo, hi)[x - lo] == x;
    }
  }

  lemma IndexMembers(g: Grid)
    ensures Increasing(ColumnsOf(g)) && forall i: nat :: i in ColumnsOf(g) <==> g.elements != [] && g.HasColumn(i)
    ensures Increasing(RowsOf(g, 0, 0)) && forall j: nat :: j in RowsOf(g, 0, 0) <==> g.elements != [] && g.HasRow(j)
  {
    RangeMembers(g.minI, g.maxI + 1);
    RangeMembers(g.minJ, g.maxJ + 1);
  }

  /** The columns are those between two that were written, in order; without paging, so are the rows. */
  lemma IndicesByWrites(writes: seq<Element>)
    ensures var cols, rows := ColumnsOf(Built(writes)), RowsOf(Built(writes), 0, 0);
            && Increasing(cols) && (forall i: nat :: i in cols <==> SpansColumn(writes, i))
            && Increasing(rows) && (forall j: nat :: j in rows <==> SpansRow(writes, j))
  {
    BuiltElements(writes);
    BoundsAreSpans(writes);
    IndexMembers(Built(writes));
  }

  /** A page is the next rows, as many as it may hold: pages follow one another without gap or overlap. */
  lemma PagesFollow(g: Grid, startRow: nat, size: nat)
    requires size > 0
    ensures var rest := RowsOf(g, startRow, 0);
            && RowsOf(g, startRow, 0) == RowsOf(g, startRow, size) + RowsOf(g, startRow + size, 0)
            && |RowsOf(g, startRow, size)| == Min(size, |rest|)
            && |rest| == if |RowsOf(g, 0, 0)| < startRow then 0 else |RowsOf(g, 0, 0)| - startRow
  {
  }

  // ---------------------------------------------------------------- positions in the array

  /** Position of a cell in an array of rows of width w. */
  function Position(w: nat, i: nat, j: nat): nat
    decreases j
  {
    if j == 0 then i else w + Position(w, i, j - 1)
  }

  lemma {:induction false} PositionIs(w: nat, i: nat, j: nat)
    ensures Position(w, i, j) == j * w + i
    decreases j
  {
    if j > 0 {
      PositionIs(w, i, j - 1);
      assert j * w == (j - 1) * w + w;
    }
  }

  lemma {:induction false} PositionFits(w: nat, h: nat, i: nat, j: nat)
    requires i < w && j < h
    ensures Position(w, i, j) < Position(w, 0, h)
    decreases j
  {
    if j > 0 {
      PositionFits(w, h - 1, i, j - 1);
    }
  }

  method PositionOf(w: nat, i: nat, j: nat) returns (pos: nat)
    ensures pos == Position(w, i, j)
  {
    PositionIs(w, i, j);
    pos := j * w + i;
  }

  method EmptyArray(w: nat, h: nat) returns (a: seq<string>)
    ensures |a| == Position(w, 0, h) && forall k :: 0 <= k < |a| ==> a[k] == ""
  {
    PositionIs(w, 0, h);
    a := seq(h * w, _ => "");
  }

  lemma {:induction false} PositionsDiffer(w: nat, i: nat, j: nat, k: nat, l: nat)
    requires i < w && k < w && (i, j) != (k, l)
    ensures Position(w, i, j) != Position(w, k, l)
    decreases j
  {
    if j > 0 && l > 0 {
      PositionsDiffer(w, i, j - 1, k, l - 1);
    }
  }

  /** A cell of the array holds what a list of writes says. */
  predicate HoldsCell(a: seq<string>, g: Grid, list: seq<Element>, i: nat, j: nat)
    requires g.HasColumn(i) && g.HasRow(j)
  {
    var pos := Position(g.maxI - g.minI + 1, i - g.minI, j - g.minJ);
    pos < |a| && a[pos] == LastWrite(list, i, j)
  }

  /** The array holds all cells, row by row. */
  ghost predicate Holds(a: seq<string>, g: Grid, list: seq<Element>) {
    forall i: nat, j: nat {:trigger HoldsCell(a, g, list, i, j)} ::
      g.HasColumn(i) && g.HasRow(j) ==> HoldsCell(a, g, list, i, j)
  }

  lemma HeldAt(a: seq<string>, g: Grid, i: nat, j: nat)
    requires Holds(a, g, g.elements) && g.HasColumn(i) && g.HasRow(j)
    ensures var pos := Position(g.maxI - g.minI + 1, i - g.minI, j - g.minJ);
            pos < |a| && a[pos] == LastWrite(g.elements, i, j)
  {
    assert HoldsCell(a, g, g.elements, i, j);
  }

  lemma HoldsAfter(a: seq<string>, g: Grid, list: seq<Element>, e: Element)
    requires Holds(a, g, list) && g.HasColumn(e.i) && g.HasRow(e.j)
    ensures var pos := Position(g.maxI - g.minI + 1, e.i - g.minI, e.j - g.minJ);
            pos < |a| && Holds(a[pos := e.value], g, list + [e])
  {
    var w := g.maxI - g.minI + 1;
    var pos := Position(w, e.i - g.minI, e.j - g.minJ);
    assert HoldsCell(a, g, list, e.i, e.j);
    assert (list + [e])[..|list|] == list;
    forall i: nat, j: nat | g.HasColumn(i) && g.HasRow(j) ensures HoldsCell(a[pos := e.value], g, list + [e], i, j) {
      assert HoldsCell(a, g, list, i, j);
      if (i, j) != (e.i, e.j) {
        PositionsDiffer(w, i - g.minI, j - g.minJ, e.i - g.minI, e.j - g.minJ);
      }
    }
  }

  lemma HoldsNothing(a: seq<string>, g: Grid)
    requires g.minI <= g.maxI && g.minJ <= g.maxJ
    requires |a| == Position(g.maxI - g.minI + 1, 0, g.maxJ - g.minJ + 1) && forall k :: 0 <= k < |a| ==> a[k] == ""
    ensures Holds(a, g, [])
  {
    forall i: nat, j: nat | g.HasColumn(i) && g.HasRow(j) ensures HoldsCell(a, g, [], i, j) {
      PositionFits(g.maxI - g.minI + 1, g.maxJ - g.minJ + 1, i - g.minI, j - g.minJ);
    }
  }

  /** The loop over the list: every element is placed, later ones over earlier ones. */
  method FilledArray(g: Grid) returns (a: seq<string>)
    requires Tight(g)
    ensures Holds(a, g, g.elements)
  {
    var w, h := g.maxI - g.minI + 1, g.maxJ - g.minJ + 1;
    a := EmptyArray(w, h);
    HoldsNothing(a, g);
    for k := 0 to |g.elements|
      invariant Holds(a, g, g.elements[..k])
    {
      var e := g.elements[k];
      assert e in g.elements;
      HoldsAfter(a, g, g.elements[..k], e);
      var pos := PositionOf(w, e.i - g.minI, e.j - g.minJ);
      a := a[pos := e.value];
      assert g.elements[..k] + [e] == g.elements[..k + 1];
    }
    assert g.elements[..|g.elements|] == g.elements;
  }

  /** The loop over the columns. */
  method Consecutive(first: nat, last: nat) returns (ret: seq<nat>)
    requires first <= last
    ensures ret == Range(first, last + 1)
  {
    ret := [];
    var i := first;
    while i <= last
      invariant first <= i <= last + 1 && ret == Range(first, i)
    {
      RangeNext(first, i);
      ret := ret + [i];
      i := i + 1;
    }
  }

  /** The loop over the rows of a page. */
  method PageRows(minJ: nat, maxJ: nat, startRow: nat, maxResults: nat) returns (ret: seq<nat>)
    requires minJ <= maxJ
    ensures ret == Range(minJ + startRow, if maxResults == 0 then maxJ + 1 else Min(maxJ + 1, minJ + startRow + maxResults))
  {
    ret := [];
    var j, row, nRows := minJ, 0, 0;
    while j <= maxJ
      invariant j == minJ + row <= maxJ + 1
      invariant ret == Range(minJ + startRow, j)
      invariant maxResults > 0 ==> nRows == |ret| < maxResults
      decreases maxJ + 1 - j
    {
      if row >= startRow {
        RangeNext(minJ + startRow, j);
        ret := ret + [j];
        if maxResults > 0 {
          nRows := nRows + 1;
          if nRows >= maxResults {
            return;
          }
        }
      }
      j, row := j + 1, row + 1;
    }
  }

  // ---------------------------------------------------------------- the object

  class Table {
    var itsMinI: nat
    var itsMaxI: nat
    var itsMinJ: nat
    var itsMaxJ: nat
    var itsList: seq<Element>
    var itsArray: seq<string>
    var itsBuildingDone: bool
    var itsStartRow: nat
    var itsMaxResults: nat

    function Content(): Grid
      reads this
    {
      Grid(itsMinI, itsMaxI, itsMinJ, itsMaxJ, itsList)
    }

    ghost predicate Valid()
      reads this
    {
      Tight(Content()) && (itsBuildingDone ==> Holds(itsArray, Content(), itsList))
    }

    constructor ()
      ensures Valid() && itsList == [] && !itsBuildingDone && itsStartRow == 0 && itsMaxResults == 0
    {
      itsMinI, itsMaxI, itsMinJ, itsMaxJ := 0, 0, 0, 0;
      itsList, itsArray, itsBuildingDone := [], [], false;
      itsStartRow, itsMaxResults := 0, 0;
    }

    method SetPaging(startRow: nat, maxResults: nat)
      requires Valid()
      modifies this`itsStartRow, this`itsMaxResults
      ensures Valid() && itsStartRow == startRow && itsMaxResults == maxResults
    {
      itsStartRow, itsMaxResults := startRow, maxResults;
    }

    /** Writing is over once a value has been read. */
    method Set(column: nat, row: nat, value: string) returns (r: Result<()>)
      requires Valid()
      modifies this
      ensures Valid() && itsBuildingDone == old(itsBuildingDone)
      ensures itsStartRow == old(itsStartRow) && itsMaxResults == old(itsMaxResults)
      ensures r.Thrown? <==> old(itsBuildingDone)
      ensures Content()
              == if old(itsBuildingDone) then old(Content()) else Written(old(Content()), Element(column, row, value))
    {
      if itsBuildingDone {
        return Thrown;
      }
      WrittenIsTight(Content(), Element(column, row, value));
      if itsList == [] {
        itsMinI, itsMaxI := column, column;
        itsMinJ, itsMaxJ := row, row;
      } else {
        itsMinI, itsMaxI := Min(itsMinI, column), Max(itsMaxI, column);
        itsMinJ, itsMaxJ := Min(itsMinJ, row), Max(itsMaxJ, row);
      }
      itsList := itsList + [Element(column, row, value)];
      return Success(());
    }

    method BuildArray()
      requires Valid()
      modifies this`itsArray, this`itsBuildingDone
      ensures Valid() && itsBuildingDone
    {
      if itsBuildingDone {
        return;
      }
      itsArray := FilledArray(Content());
      itsBuildingDone := true;
    }

    method Get(column: nat, row: nat) returns (r: Result<string>)
      requires Valid()
      modifies if itsBuildingDone then {} else {this}
      ensures Valid() && r == CellAt(Content(), column, row)
      ensures Content() == old(Content()) && itsStartRow == old(itsStartRow) && itsMaxResults == old(itsMaxResults)
      ensures r.Success? ==> itsBuildingDone
    {
      if itsList == [] {
        return Thrown;
      }
      if !(itsMinI <= column <= itsMaxI) {
        return Thrown;
      }
      if !(itsMinJ <= row <= itsMaxJ) {
        return Thrown;
      }
      if !itsBuildingDone {
        BuildArray();
      }
      var w := itsMaxI - itsMinI + 1;
      var pos := PositionOf(w, column - itsMinI, row - itsMinJ);
      HeldAt(itsArray, Content(), column, row);
      return Success(itsArray[pos]);
    }

    method Columns() returns (ret: seq<nat>)
      requires Valid()
      modifies this`itsArray, this`itsBuildingDone
      ensures Valid() && itsBuildingDone && ret == ColumnsOf(Content())
    {
      BuildArray();
      ret := [];
      if itsList == [] {
        return;
      }
      ret := Consecutive(itsMinI, itsMaxI);
    }

    method Rows() returns (ret: seq<nat>)
      requires Valid()
      modifies this`itsArray, this`itsBuildingDone
      ensures Valid() && itsBuildingDone && ret == RowsOf(Content(), itsStartRow, itsMaxResults)
    {
      BuildArray();
      ret := [];
      if itsList == [] {
        return;
      }
      ret := PageRows(itsMinJ, itsMaxJ, itsStartRow, itsMaxResults);
    }
  }
}
