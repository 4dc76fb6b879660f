/** What the grouped printing groups: each row in exactly one leaf, below its values in the grouping columns. */
module SerialGroups {
  import opened Wrappers
  import opened Ordering
  import opened PhpArrays
  import opened SerialFormatters

  // ---------------------------------------------------------------- the tree is the grouping

  /** Follows keys down a tree. */
  function Follow(n: Node, path: seq<string>): Option<Node>
    decreases |path|
  {
    if path == [] then Some(n)
    else if !n.Arr? then None
    else
      match FindEntry(n.entries, path[0])
      case None => None
      case Some(child) => Follow(child, path[1..])
  }

  function FindEntry(entries: seq<Entry>, key: string): Option<Node> {
    if entries == [] then None
    else if entries[0].key == Str(key) then Some(entries[0].value)
    else FindEntry(entries[1..], key)
  }

  /** The rows that have the given values in the columns of the given attributes. */
  function Matching(c: Context, atts: seq<string>, path: seq<string>, rows: seq<nat>): seq<nat>
    requires |path| == |atts|
  {
    if atts == [] then rows else Matching(c, atts[1..], path[1..], Having(c, ColumnOf(c, atts[0]), path[0], rows))
  }

  function Remaining(c: Context, cols: seq<nat>, atts: seq<string>): seq<nat>
    decreases |atts|
  {
    if atts == [] then cols else Remaining(c, EraseIndex(cols, ColumnOf(c, atts[0])), atts[1..])
  }

  lemma {:induction false} MatchingMembers(c: Context, atts: seq<string>, path: seq<string>, rows: seq<nat>)
    requires |path| == |atts|
    ensures forall j :: j in Matching(c, atts, path, rows)
                        <==> j in rows && forall k :: 0 <= k < |atts| ==> Cell(c, ColumnOf(c, atts[k]), j) == path[k]
    decreases |atts|
  {
    if atts != [] {
      var h := Having(c, ColumnOf(c, atts[0]), path[0], rows);
      HavingMembers(c, ColumnOf(c, atts[0]), path[0], rows);
      MatchingMembers(c, atts[1..], path[1..], h);
      forall j
        ensures j in Matching(c, atts, path, rows)
                <==> j in rows && forall k :: 0 <= k < |atts| ==> Cell(c, ColumnOf(c, atts[k]), j) == path[k]
      {
        assert forall k :: 1 <= k < |atts| ==> atts[k] == atts[1..][k - 1] && path[k] == path[1..][k - 1];
        assert forall k :: 0 <= k < |atts| - 1 ==> atts[1..][k] == atts[k + 1] && path[1..][k] == path[k + 1];
      }
    }
  }

  lemma {:induction false} RemainingMembers(c: Context, cols: seq<nat>, atts: seq<string>)
    ensures forall i :: i in Remaining(c, cols, atts) <==> i in cols && forall a :: a in atts ==> i != ColumnOf(c, a)
    decreases |atts|
  {
    if atts != [] {
      EraseMembers(cols, ColumnOf(c, atts[0]));
      RemainingMembers(c, EraseIndex(cols, ColumnOf(c, atts[0])), atts[1..]);
      assert forall a :: a in atts <==> a == atts[0] || a in atts[1..];
    }
  }

  lemma {:induction false} MatchingNothing(c: Context, atts: seq<string>, path: seq<string>)
    requires |path| == |atts|
    ensures Matching(c, atts, path, []) == []
    decreases |atts|
  {
    if atts != [] {
      MatchingNothing(c, atts[1..], path[1..]);
    }
  }

  lemma {:induction false} BranchEntries(c: Context, cols: seq<nat>, rows: seq<nat>, nam: nat, values: seq<string>, atts: seq<string>, v: string)
    requires Branches(c, cols, rows, nam, values, atts).Success?
    ensures var entries := Branches(c, cols, rows, nam, values, atts).value;
            var tree := Tree(c, cols, Having(c, nam, v, rows), atts);
            if v in values then tree.Success? && FindEntry(entries, v) == Some(tree.value) else FindEntry(entries, v) == None
    decreases |values|
  {
    if values != [] {
      BranchEntries(c, cols, rows, nam, values[1..], atts, v);
      var entries := Branches(c, cols, rows, nam, values, atts).value;
      assert entries[1..] == Branches(c, cols, rows, nam, values[1..], atts).value;
    }
  }

  /** What a path of values leads to. */
  lemma {:induction false} PathLeads(c: Context, cols: seq<nat>, rows: seq<nat>, atts: seq<string>, path: seq<string>)
    requires Tree(c, cols, rows, atts).Success? && |path| == |Distinct(atts)| && rows != []
    ensures var matching := Matching(c, Distinct(atts), path, rows);
            Follow(Tree(c, cols, rows, atts).value, path)
            == if "" in path || matching == [] then None
               else Some(Leaf(c, Remaining(c, cols, Distinct(atts)), matching))
    decreases |atts|
  {
    if atts != [] {
      var nam := FirstName(atts[0], c.names, 0).value;
      var rest, v := Without(atts[1..], atts[0]), path[0];
      var h := Having(c, nam, v, rows);
      assert Distinct(atts)[1..] == Distinct(rest);
      BranchEntries(c, EraseIndex(cols, nam), rows, nam, Values(c, nam, rows), rest, v);
      ValueHasRows(c, nam, v, rows);
      if v == "" {
        assert "" in path;
      } else if h == [] {
        MatchingNothing(c, Distinct(rest), path[1..]);
      } else {
        PathLeads(c, EraseIndex(cols, nam), h, rest, path[1..]);
        assert "" in path <==> "" in path[1..];
      }
    }
  }

  // ---------------------------------------------------------------- groups are printed once

  function KeyText(key: Node): string {
    match key
    case Str(s) => s
    case _ => ""
  }

  function Keys(entries: seq<Entry>): seq<string> {
    seq(|entries|, k requires 0 <= k < |entries| => KeyText(entries[k].key))
  }

  /** The groups of a node and of those below it, down to a depth, are in the order of their keys, each printed once. */
  predicate SortedGroups(n: Node, depth: nat)
    decreases depth
  {
    depth > 0 ==>
      && n.Arr? && StrictlySorted(Keys(n.entries))
      && forall k :: 0 <= k < |n.entries| ==> n.entries[k].key.Str? && SortedGroups(n.entries[k].value, depth - 1)
  }

  lemma {:induction false} BranchAt(c: Context, cols: seq<nat>, rows: seq<nat>, nam: nat, values: seq<string>, atts: seq<string>, k: nat)
    requires Branches(c, cols, rows, nam, values, atts).Success?
    ensures var entries := Branches(c, cols, rows, nam, values, atts).value;
            && |entries| == |values|
            && (k < |values| ==>
                  var tree := Tree(c, cols, Having(c, nam, values[k], rows), atts);
                  tree.Success? && entries[k] == Entry(Str(values[k]), tree.value))
    decreases |values|
  {
    if values != [] {
      BranchAt(c, cols, rows, nam, values[1..], atts, if k > 0 then k - 1 else 0);
    }
  }

  lemma BranchKeys(c: Context, cols: seq<nat>, rows: seq<nat>, nam: nat, values: seq<string>, atts: seq<string>)
    requires Branches(c, cols, rows, nam, values, atts).Success?
    ensures var entries := Branches(c, cols, rows, nam, values, atts).value;
            Keys(entries) == values && forall k :: 0 <= k < |entries| ==> entries[k].key.Str?
  {
    var entries := Branches(c, cols, rows, nam, values, atts).value;
    BranchAt(c, cols, rows, nam, values, atts, 0);
    forall k | 0 <= k < |entries| ensures entries[k].key == Str(values[k]) {
      BranchAt(c, cols, rows, nam, values, atts, k);
    }
  }

  lemma {:induction false} TreeSorted(c: Context, cols: seq<nat>, rows: seq<nat>, atts: seq<string>)
    requires Tree(c, cols, rows, atts).Success?
    ensures SortedGroups(Tree(c, cols, rows, atts).value, |Distinct(atts)|)
    decreases |atts|
  {
    if atts != [] {
      var nam, rest := FirstName(atts[0], c.names, 0).value, Without(atts[1..], atts[0]);
      var left, values := EraseIndex(cols, nam), Values(c, nam, rows);
      var entries := Branches(c, left, rows, nam, values, rest).value;
      BranchKeys(c, left, rows, nam, values, rest);
      ValuesMembers(c, nam, rows);
      forall k | 0 <= k < |entries| ensures SortedGroups(entries[k].value, |Distinct(rest)|) {
        BranchAt(c, left, rows, nam, values, rest, k);
        TreeSorted(c, left, Having(c, nam, values[k], rows), rest);
      }
    }
  }

  /**
   The tree is the group-by: a path of values, one for each distinct attribute, leads to a leaf exactly when no
   value is empty and some row has these values; the leaf then holds all those rows, without the grouping columns.
   At every level the groups are sorted and none is printed twice.
   */
  lemma TreeIsGroupBy(c: Context, cols: seq<nat>, rows: seq<nat>, atts: seq<string>, path: seq<string>)
    requires Tree(c, cols, rows, atts).Success? && |path| == |Distinct(atts)| && rows != []
    ensures var matching := Matching(c, Distinct(atts), path, rows);
            Follow(Tree(c, cols, rows, atts).value, path)
            == if "" in path || matching == [] then None
               else Some(Leaf(c, Remaining(c, cols, Distinct(atts)), matching))
    ensures forall i :: i in Remaining(c, cols, Distinct(atts))
                        <==> i in cols && forall a :: a in Distinct(atts) ==> i != ColumnOf(c, a)
    ensures SortedGroups(Tree(c, cols, rows, atts).value, |Distinct(atts)|)
  {
    PathLeads(c, cols, rows, atts, path);
    RemainingMembers(c, cols, Distinct(atts));
    TreeSorted(c, cols, rows, atts);
  }

  // ---------------------------------------------------------------- positions in the tree

  /** The node at a position: the number of the entry to take at each level. */
  function At(n: Node, pos: seq<nat>): Option<Node>
    decreases |pos|
  {
    if pos == [] then Some(n)
    else if n.Arr? && pos[0] < |n.entries| then At(n.entries[pos[0]].value, pos[1..])
    else None
  }

  /** The keys on the way. */
  function KeysTo(n: Node, pos: seq<nat>): (path: seq<string>)
    requires At(n, pos).Some?
    ensures |path| == |pos|
    decreases |pos|
  {
    if pos == [] then [] else [KeyText(n.entries[pos[0]].key)] + KeysTo(n.entries[pos[0]].value, pos[1..])
  }

  lemma {:induction false} FindEntryAt(es: seq<Entry>, k: nat)
    requires k < |es| && StrictlySorted(Keys(es)) && forall i :: 0 <= i < |es| ==> es[i].key.Str?
    ensures FindEntry(es, KeyText(es[k].key)) == Some(es[k].value)
  {
    if k > 0 {
      assert Keys(es)[0] == KeyText(es[0].key) && Keys(es)[k] == KeyText(es[k].key);
      LexIrreflexive(Codes(Keys(es)[0]));
      assert Keys(es[1..]) == Keys(es)[1..];
      FindEntryAt(es[1..], k - 1);
    }
  }

  lemma {:induction false} FoundEntry(es: seq<Entry>, key: string) returns (k: nat)
    requires FindEntry(es, key).Some?
    ensures k < |es| && es[k].key == Str(key) && FindEntry(es, key) == Some(es[k].value)
  {
    k := 0;
    if es[0].key != Str(key) {
      k := FoundEntry(es[1..], key);
      k := k + 1;
    }
  }

  /** In a sorted tree a node is found by following the keys to it. */
  lemma {:induction false} PositionFollows(n: Node, depth: nat, pos: seq<nat>)
    requires SortedGroups(n, depth) && |pos| <= depth && At(n, pos).Some?
    ensures Follow(n, KeysTo(n, pos)) == At(n, pos)
    decreases |pos|
  {
    if pos != [] {
      var child := n.entries[pos[0]];
      FindEntryAt(n.entries, pos[0]);
      PositionFollows(child.value, depth - 1, pos[1..]);
      assert KeysTo(n, pos)[1..] == KeysTo(child.value, pos[1..]);
    }
  }

  /** And what is found by following keys has a position. */
  lemma {:induction false} FollowedHasPosition(n: Node, path: seq<string>) returns (pos: seq<nat>)
    requires Follow(n, path).Some?
    ensures |pos| == |path| && At(n, pos) == Follow(n, path) && KeysTo(n, pos) == path
    decreases |path|
  {
    pos := [];
    if path != [] {
      var k := FoundEntry(n.entries, path[0]);
      var further := FollowedHasPosition(n.entries[k].value, path[1..]);
      pos := [k] + further;
      assert pos[1..] == further;
    }
  }

  /** In a sorted tree the keys to a node determine its position. */
  lemma {:induction false} OnePosition(n: Node, depth: nat, a: seq<nat>, b: seq<nat>)
    requires SortedGroups(n, depth) && |a| <= depth && At(n, a).Some? && At(n, b).Some? && KeysTo(n, a) == KeysTo(n, b)
    ensures a == b
    decreases |a|
  {
    if a != [] {
      var keys := Keys(n.entries);
      assert keys[a[0]] == KeysTo(n, a)[0] == KeysTo(n, b)[0] == keys[b[0]];
      LexIrreflexive(Codes(keys[a[0]]));
      var child := n.entries[a[0]].value;
      assert KeysTo(child, a[1..]) == KeysTo(n, a)[1..] && KeysTo(child, b[1..]) == KeysTo(n, b)[1..];
      OnePosition(child, depth - 1, a[1..], b[1..]);
    }
  }

  /** The values of a row under the distinct attributes. */
  function PathOf(c: Context, atts: seq<string>, j: nat): seq<string> {
    seq(|atts|, k requires 0 <= k < |atts| => Cell(c, ColumnOf(c, atts[k]), j))
  }

  /** Every row whose grouping values are all there is in exactly one leaf, and every other row in none. */
  lemma RowsOfLeaves(c: Context, cols: seq<nat>, rows: seq<nat>, atts: seq<string>, j: nat, path: seq<string>)
    requires Tree(c, cols, rows, atts).Success? && |path| == |Distinct(atts)| && j in rows
    ensures var leaf := Follow(Tree(c, cols, rows, atts).value, path);
            var matching := Matching(c, Distinct(atts), path, rows);
            (leaf == Some(Leaf(c, Remaining(c, cols, Distinct(atts)), matching)) && j in matching)
            <==> path == PathOf(c, Distinct(atts), j) && "" !in path
  {
    var own := PathOf(c, Distinct(atts), j);
    TreeIsGroupBy(c, cols, rows, atts, path);
    MatchingMembers(c, Distinct(atts), path, rows);
    var m := Matching(c, Distinct(atts), path, rows);
    if j in m {
      assert forall k :: 0 <= k < |path| ==> path[k] == own[k];
      assert path == own;
    }
  }

  /** The leaf at a position is the one of the rows that have the values on the way to it. */
  lemma LeafOfPosition(c: Context, cols: seq<nat>, rows: seq<nat>, atts: seq<string>, pos: seq<nat>)
    requires Tree(c, cols, rows, atts).Success? && rows != [] && |pos| == |Distinct(atts)|
    requires At(Tree(c, cols, rows, atts).value, pos).Some?
    ensures var tree := Tree(c, cols, rows, atts).value;
            var matching := Matching(c, Distinct(atts), KeysTo(tree, pos), rows);
            && "" !in KeysTo(tree, pos) && matching != []
            && At(tree, pos) == Some(Leaf(c, Remaining(c, cols, Distinct(atts)), matching))
  {
    var tree := Tree(c, cols, rows, atts).value;
    TreeIsGroupBy(c, cols, rows, atts, KeysTo(tree, pos));
    PositionFollows(tree, |Distinct(atts)|, pos);
  }

  /** The position is one of a leaf, and row j is among the rows the leaf is printed from. */
  ghost predicate Holds(c: Context, cols: seq<nat>, rows: seq<nat>, atts: seq<string>, pos: seq<nat>, j: nat)
    requires Tree(c, cols, rows, atts).Success?
  {
    var tree := Tree(c, cols, rows, atts).value;
    && |pos| == |Distinct(atts)| && At(tree, pos).Some?
    && var matching := Matching(c, Distinct(atts), KeysTo(tree, pos), rows);
       At(tree, pos).value == Leaf(c, Remaining(c, cols, Distinct(atts)), matching) && j in matching
  }

  /** Every row with all its grouping values is in the leaf at exactly one position, and every other row in none. */
  lemma ExactlyOneLeaf(c: Context, cols: seq<nat>, rows: seq<nat>, atts: seq<string>, j: nat)
    requires Tree(c, cols, rows, atts).Success? && j in rows
    ensures (exists pos :: Holds(c, cols, rows, atts, pos, j)) <==> "" !in PathOf(c, Distinct(atts), j)
    ensures forall a, b :: Holds(c, cols, rows, atts, a, j) && Holds(c, cols, rows, atts, b, j) ==> a == b
  {
    var tree, own := Tree(c, cols, rows, atts).value, PathOf(c, Distinct(atts), j);
    forall pos | Holds(c, cols, rows, atts, pos, j) ensures KeysTo(tree, pos) == own && "" !in own {
      TreeSorted(c, cols, rows, atts);
      PositionFollows(tree, |Distinct(atts)|, pos);
      RowsOfLeaves(c, cols, rows, atts, j, KeysTo(tree, pos));
    }
    forall a, b | Holds(c, cols, rows, atts, a, j) && Holds(c, cols, rows, atts, b, j) ensures a == b {
      TreeSorted(c, cols, rows, atts);
      OnePosition(tree, |Distinct(atts)|, a, b);
    }
    if "" !in own {
      RowsOfLeaves(c, cols, rows, atts, j, own);
      var pos := FollowedHasPosition(tree, own);
      assert Holds(c, cols, rows, atts, pos, j);
    }
  }
}
