/**
 `resource_list_to_trees`: flat rows, each naming its parent, become a forest of
 shared mutable nodes. The parent links may be missing or cyclic.
 */
module ResourceForest {
  import opened Optional
  import opened StableSort

  type Id = nat

  datatype Row = Row(id: Id, code: string, parent: Option<Id>, order: int)

  datatype Tree = Tree(row: Row, kids: seq<Tree>)

  // --------------------------------------------------------- list helpers

  function Filter<T>(s: seq<T>, p: T -> bool): (r: seq<T>)
    ensures forall x | x in r :: x in s && p(x)
    ensures forall x | x in s && p(x) :: x in r
  {
    if s == [] then []
    else
      var rest := Filter(s[..|s| - 1], p);
      if p(s[|s| - 1]) then rest + [s[|s| - 1]] else rest
  }

  function Ids(rows: seq<Row>): set<Id> {
    set r | r in rows :: r.id
  }

  ghost predicate DistinctIds(rows: seq<Row>) {
    forall i, j :: 0 <= i < j < |rows| ==> rows[i].id != rows[j].id
  }

  // ------------------------------------------------ the insertion-ordered dict

  /** The slot of `id`, or the next free one. */
  function Slot(rows: seq<Row>, id: Id): (i: nat)
    ensures i <= |rows| && (i < |rows| ==> rows[i].id == id)
    ensures forall j :: 0 <= j < i ==> rows[j].id != id
  {
    if rows == [] || rows[0].id == id then 0 else 1 + Slot(rows[1..], id)
  }

  /** `d[row.id] = row`: a known key keeps its slot. */
  function Put(rows: seq<Row>, row: Row): (r: seq<Row>)
    requires DistinctIds(rows)
    ensures DistinctIds(r)
    ensures Ids(r) == Ids(rows) + {row.id}
  {
    var i := Slot(rows, row.id);
    var put := if i < |rows| then rows[i := row] else rows + [row];
    assert forall id :: id in Ids(put) <==> id in Ids(rows) || id == row.id by { PutIds(rows, row, i); }
    put
  }

  lemma PutIds(rows: seq<Row>, row: Row, i: nat)
    requires i == Slot(rows, row.id)
    ensures var put := if i < |rows| then rows[i := row] else rows + [row];
            forall id :: id in Ids(put) <==> id in Ids(rows) || id == row.id
  {
  }

  /** `{node.id: node for node in nodes}`, as its list of values. */
  function DictRows(nodes: seq<Row>): (rows: seq<Row>)
    ensures DistinctIds(rows)
    ensures Ids(rows) == Ids(nodes)
  {
    if nodes == [] then []
    else
      assert nodes == nodes[..|nodes| - 1] + [nodes[|nodes| - 1]];
      assert Ids(nodes) == Ids(nodes[..|nodes| - 1]) + {nodes[|nodes| - 1].id};
      Put(DictRows(nodes[..|nodes| - 1]), nodes[|nodes| - 1])
  }

  lemma AbsentSlot(rows: seq<Row>, id: Id)
    requires id !in Ids(rows)
    ensures Slot(rows, id) == |rows|
  {
  }

  lemma PutNew(rows: seq<Row>, row: Row)
    requires DistinctIds(rows) && row.id !in Ids(rows)
    ensures Put(rows, row) == rows + [row]
  {
  }

  lemma LastIsNew(front: seq<Row>, last: Row)
    requires DistinctIds(front + [last])
    ensures DistinctIds(front) && last.id !in Ids(front)
  {
    var nodes := front + [last];
    assert forall i :: 0 <= i < |front| ==> nodes[i] == front[i] && nodes[i].id != nodes[|front|].id;
  }

  lemma {:induction false} DistinctRowsAreTheirOwnDict(nodes: seq<Row>)
    requires DistinctIds(nodes)
    ensures DictRows(nodes) == nodes
  {
    if nodes != [] {
      var front, last := nodes[..|nodes| - 1], nodes[|nodes| - 1];
      assert nodes == front + [last];
      LastIsNew(front, last);
      DistinctRowsAreTheirOwnDict(front);
      PutNew(front, last);
    }
  }

  /** The ids in the order of their first appearance. */
  function FirstIds(nodes: seq<Row>): (ids: seq<Id>) {
    if nodes == [] then []
    else
      var front, last := FirstIds(nodes[..|nodes| - 1]), nodes[|nodes| - 1].id;
      if last in front then front else front + [last]
  }

  /** `nodes[i]` is the last with its id. */
  ghost predicate LastOfId(nodes: seq<Row>, i: int) {
    0 <= i < |nodes| && forall j :: i < j < |nodes| ==> nodes[j].id != nodes[i].id
  }

  function RowIds(rows: seq<Row>): (ids: seq<Id>)
    ensures |ids| == |rows| && forall i :: 0 <= i < |rows| ==> ids[i] == rows[i].id
  {
    seq(|rows|, i requires 0 <= i < |rows| => rows[i].id)
  }

  lemma PutOrder(rows: seq<Row>, row: Row)
    requires DistinctIds(rows)
    ensures RowIds(Put(rows, row)) == RowIds(rows) + if row.id in RowIds(rows) then [] else [row.id]
  {
  }

  lemma PutMembers(rows: seq<Row>, row: Row, r: Row)
    requires DistinctIds(rows)
    ensures r in Put(rows, row) <==> r == row || (r in rows && r.id != row.id)
  {
    var i := Slot(rows, row.id);
    var put := Put(rows, row);
    assert put[i] == row;
    if r in rows && r.id != row.id {
      var j :| 0 <= j < |rows| && rows[j] == r;
      assert put[j] == r;
    }
  }

  lemma {:induction false} DictOrder(nodes: seq<Row>)
    ensures RowIds(DictRows(nodes)) == FirstIds(nodes)
  {
    if nodes != [] {
      DictOrder(nodes[..|nodes| - 1]);
      PutOrder(DictRows(nodes[..|nodes| - 1]), nodes[|nodes| - 1]);
    }
  }

  lemma {:induction false} DictMembers(nodes: seq<Row>, r: Row)
    ensures r in DictRows(nodes) <==> exists i :: LastOfId(nodes, i) && nodes[i] == r
  {
    if nodes != [] {
      var front, last := nodes[..|nodes| - 1], nodes[|nodes| - 1];
      assert nodes == front + [last];
      DictMembers(front, r);
      PutMembers(DictRows(front), last, r);
      LastOfIdMore(front, last, r);
    }
  }

  /** The dict keeps, for each id in the order of first appearance, the last row with that id. */
  lemma DictKeepsLast(nodes: seq<Row>)
    ensures RowIds(DictRows(nodes)) == FirstIds(nodes)
    ensures forall r :: r in DictRows(nodes) <==> exists i :: LastOfId(nodes, i) && nodes[i] == r
  {
    DictOrder(nodes);
    forall r ensures r in DictRows(nodes) <==> exists i :: LastOfId(nodes, i) && nodes[i] == r {
      DictMembers(nodes, r);
    }
  }

  lemma LastOfIdMore(front: seq<Row>, last: Row, r: Row)
    ensures (exists i :: LastOfId(front + [last], i) && (front + [last])[i] == r) <==>
            r == last || (r.id != last.id && exists i :: LastOfId(front, i) && front[i] == r)
  {
    var nodes := front + [last];
    if r == last {
      assert LastOfId(nodes, |front|) && nodes[|front|] == r;
    }
    if i :| LastOfId(nodes, i) && nodes[i] == r && i < |front| {
      assert nodes[|front|].id != nodes[i].id;
      assert forall j :: i < j < |front| ==> nodes[j] == front[j];
      assert LastOfId(front, i) && front[i] == r;
    }
    if i :| LastOfId(front, i) && front[i] == r && r.id != last.id {
      assert forall j :: i < j < |front| ==> nodes[j] == front[j];
      assert LastOfId(nodes, i) && nodes[i] == r;
    }
  }

  // ------------------------------------------------------- the parent graph

  function RowOf(rows: seq<Row>, id: Id): (r: Row)
    requires id in Ids(rows)
    ensures r in rows && r.id == id
  {
    var i := Slot(rows, id);
    assert i < |rows|;
    rows[i]
  }

  lemma RowOfIsUnique(rows: seq<Row>, r: Row)
    requires DistinctIds(rows) && r in rows
    ensures RowOf(rows, r.id) == r
  {
  }

  predicate IsTop(rows: seq<Row>, r: Row) {
    r.parent.None? || r.parent.value !in Ids(rows)
  }

  /** The parent chain of `id` ends, after exactly `k` links, at a row without a present parent. */
  ghost predicate RootedAt(rows: seq<Row>, id: Id, k: nat)
    decreases k
  {
    id in Ids(rows) &&
    var r := RowOf(rows, id);
    if k == 0 then IsTop(rows, r) else !IsTop(rows, r) && RootedAt(rows, r.parent.value, k - 1)
  }

  ghost predicate Grounded(rows: seq<Row>, id: Id) {
    exists k: nat :: RootedAt(rows, id, k)
  }

  /** Following `j` parent links from `y` arrives at `x`. */
  ghost predicate Below(rows: seq<Row>, y: Id, x: Id, j: nat)
    decreases j
  {
    y in Ids(rows) &&
    if j == 0 then y == x
    else
      var r := RowOf(rows, y);
      !IsTop(rows, r) && Below(rows, r.parent.value, x, j - 1)
  }

  lemma DepthIsUnique(rows: seq<Row>, id: Id, j: nat, k: nat)
    requires RootedAt(rows, id, j) && RootedAt(rows, id, k)
    ensures j == k
    decreases k
  {
    if j > 0 && k > 0 { DepthIsUnique(rows, RowOf(rows, id).parent.value, j - 1, k - 1); }
  }

  lemma BelowAddsDepth(rows: seq<Row>, y: Id, x: Id, j: nat, k: nat)
    requires Below(rows, y, x, j) && RootedAt(rows, x, k)
    ensures RootedAt(rows, y, j + k)
    decreases j
  {
    if j > 0 { BelowAddsDepth(rows, RowOf(rows, y).parent.value, x, j - 1, k); }
  }

  lemma BelowIsFunctional(rows: seq<Row>, y: Id, x1: Id, x2: Id, j: nat)
    requires Below(rows, y, x1, j) && Below(rows, y, x2, j)
    ensures x1 == x2
    decreases j
  {
    if j > 0 { BelowIsFunctional(rows, RowOf(rows, y).parent.value, x1, x2, j - 1); }
  }

  /** `y` is `x` or one of its descendants. */
  ghost predicate Under(rows: seq<Row>, y: Id, x: Id) {
    exists j: nat :: Below(rows, y, x, j)
  }

  lemma UnderOneOfALevel(rows: seq<Row>, y: Id, x1: Id, x2: Id, k: nat)
    requires Under(rows, y, x1) && Under(rows, y, x2)
    requires RootedAt(rows, x1, k) && RootedAt(rows, x2, k)
    ensures x1 == x2
  {
    var j1: nat :| Below(rows, y, x1, j1);
    var j2: nat :| Below(rows, y, x2, j2);
    SameHeightAbove(rows, y, x1, x2, j1, j2, k);
    BelowIsFunctional(rows, y, x1, x2, j1);
  }

  lemma SameHeightAbove(rows: seq<Row>, y: Id, x1: Id, x2: Id, j1: nat, j2: nat, k: nat)
    requires Below(rows, y, x1, j1) && Below(rows, y, x2, j2)
    requires RootedAt(rows, x1, k) && RootedAt(rows, x2, k)
    ensures j1 == j2
  {
    BelowAddsDepth(rows, y, x1, j1, k);
    BelowAddsDepth(rows, y, x2, j2, k);
    DepthIsUnique(rows, y, j1 + k, j2 + k);
  }

  lemma NotUnderDeeper(rows: seq<Row>, y: Id, x: Id, k: nat)
    requires RootedAt(rows, y, k) && RootedAt(rows, x, k + 1)
    ensures !Under(rows, y, x)
  {
    if Under(rows, y, x) {
      var j: nat :| Below(rows, y, x, j);
      BelowAddsDepth(rows, y, x, j, k + 1);
      DepthIsUnique(rows, y, k, j + (k + 1));
    }
  }

  lemma RootedBelowTop(rows: seq<Row>, y: Id, k: nat) returns (x: Id)
    requires RootedAt(rows, y, k)
    ensures Below(rows, y, x, k) && RootedAt(rows, x, 0)
    decreases k
  {
    if k == 0 { x := y; } else { x := RootedBelowTop(rows, RowOf(rows, y).parent.value, k - 1); }
  }

  /** The last link of a chain into `x` comes from a child of `x`. */
  lemma BelowThroughChild(rows: seq<Row>, y: Id, x: Id, j: nat) returns (c: Row)
    requires DistinctIds(rows) && Below(rows, y, x, j) && j > 0
    ensures c in rows && c.parent == Some(x) && Below(rows, y, c.id, j - 1)
    decreases j
  {
    var r := RowOf(rows, y);
    if j == 1 { c := r; } else { c := BelowThroughChild(rows, r.parent.value, x, j - 1); }
  }

  // --------------------------------------------------------- the forest

  function RowOrder(r: Row): int { r.order }

  function HasParent(id: Id): Row -> bool {
    (r: Row) => r.parent == Some(id)
  }

  function TopIn(rows: seq<Row>): Row -> bool {
    (r: Row) => IsTop(rows, r)
  }

  /** The children of `id`, as one stable sort leaves them. */
  function ChildRows(rows: seq<Row>, id: Id): seq<Row> {
    Sort(Filter(rows, HasParent(id)), RowOrder)
  }

  function TopRows(rows: seq<Row>): seq<Row> {
    Sort(Filter(rows, TopIn(rows)), RowOrder)
  }

  function Off(path: seq<Id>): Row -> bool {
    (r: Row) => r.id !in path
  }

  /** The ids not yet on the path, which bound how deep a tree can go. */
  function Left(rows: seq<Row>, path: seq<Id>): set<Id> {
    Ids(rows) - set id | id in path
  }

  lemma ChildRowsMeaning(rows: seq<Row>, id: Id)
    ensures forall r :: r in ChildRows(rows, id) <==> r in rows && r.parent == Some(id)
    ensures forall r :: r in TopRows(rows) <==> r in rows && IsTop(rows, r)
  {
    SameElements(ChildRows(rows, id), Filter(rows, HasParent(id)));
    SameElements(TopRows(rows), Filter(rows, TopIn(rows)));
  }

  lemma {:induction false} FilterKeepsBefore(s: seq<Row>, p: Row -> bool, x: Row, y: Row)
    requires p(x) && p(y)
    ensures Before(Filter(s, p), x, y) <==> Before(s, x, y)
  {
    if s != [] {
      var front, last := s[..|s| - 1], s[|s| - 1];
      assert s == front + [last];
      FilterKeepsBefore(front, p, x, y);
      BeforeOfAppend(front, last, x, y);
      BeforeOfAppend(Filter(front, p), last, x, y);
    }
  }

  /** `list` is ordered by `order`, and rows of equal order stand as they do in `rows`. */
  ghost predicate InOrder(list: seq<Row>, rows: seq<Row>) {
    && (forall x, y :: x in list && y in list && x.order < y.order ==> !Before(list, y, x))
    && (forall x, y :: x in list && y in list && x.order == y.order ==> (Before(list, x, y) <==> Before(rows, x, y)))
  }

  lemma SortedFilterInOrder(rows: seq<Row>, p: Row -> bool)
    ensures InOrder(Sort(Filter(rows, p), RowOrder), rows)
  {
    var kept := Filter(rows, p);
    var list := Sort(kept, RowOrder);
    SameElements(list, kept);
    forall x, y | x in list && y in list
      ensures x.order < y.order ==> !Before(list, y, x)
      ensures x.order == y.order ==> (Before(list, x, y) <==> Before(rows, x, y))
    {
      SortOrders(kept, RowOrder, x, y);
      FilterKeepsBefore(rows, p, x, y);
    }
  }

  /** The children of a node are the rows that name it, the roots those that name no row; both by `order`, then as given. */
  lemma SiblingsInOrder(rows: seq<Row>, id: Id)
    ensures InOrder(ChildRows(rows, id), rows) && forall r :: r in ChildRows(rows, id) <==> r in rows && r.parent == Some(id)
    ensures InOrder(TopRows(rows), rows)
    ensures forall r :: r in TopRows(rows) <==> r in rows && (r.parent == None || forall q :: q in rows ==> q.id != r.parent.value)
  {
    SortedFilterInOrder(rows, HasParent(id));
    SortedFilterInOrder(rows, TopIn(rows));
    ChildRowsMeaning(rows, id);
    forall r | r in rows ensures IsTop(rows, r) <==> r.parent == None || forall q :: q in rows ==> q.id != r.parent.value {
      TopNamesNoRow(rows, r);
    }
  }

  lemma TopNamesNoRow(rows: seq<Row>, r: Row)
    ensures IsTop(rows, r) <==> r.parent == None || forall q :: q in rows ==> q.id != r.parent.value
  {
  }

  lemma LeftShrinks(rows: seq<Row>, id: Id, path: seq<Id>)
    requires id in Left(rows, path)
    ensures Left(rows, path + [id]) < Left(rows, path)
  {
  }

  /** The tree under `row`; `path` holds its ancestors, which only a cyclic row could meet again. */
  function BuildTree(rows: seq<Row>, row: Row, path: seq<Id>): Tree
    requires row.id in Left(rows, path)
    decreases Left(rows, path), 0
  {
    ChildRowsMeaning(rows, row.id);
    LeftShrinks(rows, row.id, path);
    Tree(row, BuildAll(rows, Filter(ChildRows(rows, row.id), Off(path + [row.id])), path + [row.id]))
  }

  function BuildAll(rows: seq<Row>, list: seq<Row>, path: seq<Id>): (ts: seq<Tree>)
    requires forall r | r in list :: r.id in Left(rows, path)
    ensures |ts| == |list|
    ensures forall i :: 0 <= i < |ts| ==> ts[i] == BuildTree(rows, list[i], path)
    decreases Left(rows, path), 1, |list|
  {
    if list == [] then [] else [BuildTree(rows, list[0], path)] + BuildAll(rows, list[1..], path)
  }

  function Forest(rows: seq<Row>): seq<Tree> {
    ChildRowsMeaning(rows, 0);
    BuildAll(rows, TopRows(rows), [])
  }

  function Flatten(t: Tree): seq<Row> {
    [t.row] + FlattenAll(t.kids)
  }

  function FlattenAll(ts: seq<Tree>): seq<Row> {
    if ts == [] then [] else Flatten(ts[0]) + FlattenAll(ts[1..])
  }

  function Heads(ts: seq<Tree>): seq<Row> {
    seq(|ts|, i requires 0 <= i < |ts| => ts[i].row)
  }

  /** Every node of `t` carries all its children, and no others, in stable order. */
  ghost predicate Linked(rows: seq<Row>, t: Tree) {
    Heads(t.kids) == ChildRows(rows, t.row.id) && forall i :: 0 <= i < |t.kids| ==> Linked(rows, t.kids[i])
  }

  /** `path` walks down from a top row, one level at a time. */
  ghost predicate Descent(rows: seq<Row>, path: seq<Id>) {
    forall j :: 0 <= j < |path| ==> RootedAt(rows, path[j], j)
  }

  lemma ChildIsDeeper(rows: seq<Row>, id: Id, c: Row, k: nat)
    requires DistinctIds(rows) && RootedAt(rows, id, k) && c in ChildRows(rows, id)
    ensures c in rows && c.parent == Some(id) && RootedAt(rows, c.id, k + 1)
  {
    ChildRowsMeaning(rows, id);
    RowOfIsUnique(rows, c);
  }

  lemma NotOnPath(rows: seq<Row>, id: Id, path: seq<Id>)
    requires RootedAt(rows, id, |path|) && Descent(rows, path)
    ensures id !in path && Descent(rows, path + [id])
  {
    forall j | 0 <= j < |path| ensures path[j] != id {
      if path[j] == id { DepthIsUnique(rows, id, j, |path|); }
    }
  }

  lemma FilterAll<T>(s: seq<T>, p: T -> bool)
    requires forall x | x in s :: p(x)
    ensures Filter(s, p) == s
  {
  }

  /** Along a grounded branch no ancestor returns: a grounded row gets one subtree for every child. */
  lemma KidsOf(rows: seq<Row>, row: Row, path: seq<Id>)
    requires DistinctIds(rows) && RootedAt(rows, row.id, |path|) && Descent(rows, path)
    ensures row.id in Left(rows, path)
    ensures forall c | c in ChildRows(rows, row.id) :: c.id in Left(rows, path + [row.id])
    ensures BuildTree(rows, row, path) == Tree(row, BuildAll(rows, ChildRows(rows, row.id), path + [row.id]))
  {
    NotOnPath(rows, row.id, path);
    forall c | c in ChildRows(rows, row.id) ensures c.id in Left(rows, path + [row.id]) {
      ChildIsDeeper(rows, row.id, c, |path|);
      NotOnPath(rows, c.id, path + [row.id]);
    }
    FilterAll(ChildRows(rows, row.id), Off(path + [row.id]));
  }

  lemma {:induction false} BuildTreeIsLinked(rows: seq<Row>, row: Row, path: seq<Id>)
    requires DistinctIds(rows) && RootedAt(rows, row.id, |path|) && Descent(rows, path)
    ensures row.id in Left(rows, path) && Linked(rows, BuildTree(rows, row, path))
    decreases Left(rows, path), 0
  {
    KidsOf(rows, row, path);
    NotOnPath(rows, row.id, path);
    LeftShrinks(rows, row.id, path);
    forall c | c in ChildRows(rows, row.id) ensures RootedAt(rows, c.id, |path| + 1) {
      ChildIsDeeper(rows, row.id, c, |path|);
    }
    BuildAllIsLinked(rows, ChildRows(rows, row.id), path + [row.id]);
  }

  lemma {:induction false} BuildAllIsLinked(rows: seq<Row>, list: seq<Row>, path: seq<Id>)
    requires DistinctIds(rows) && Descent(rows, path) && forall r | r in list :: RootedAt(rows, r.id, |path|)
    ensures forall r | r in list :: r.id in Left(rows, path)
    ensures Heads(BuildAll(rows, list, path)) == list
    ensures forall i :: 0 <= i < |list| ==> Linked(rows, BuildAll(rows, list, path)[i])
    decreases Left(rows, path), 1
  {
    forall r | r in list ensures r.id in Left(rows, path) && Linked(rows, BuildTree(rows, r, path)) {
      BuildTreeIsLinked(rows, r, path);
    }
  }

  /** The roots are the rows without a present parent, and every node sits under its own parent with all its siblings. */
  lemma ForestIsLinked(rows: seq<Row>)
    requires DistinctIds(rows)
    ensures Heads(Forest(rows)) == TopRows(rows)
    ensures forall t | t in Forest(rows) :: Linked(rows, t)
  {
    ChildRowsMeaning(rows, 0);
    forall r | r in TopRows(rows) ensures RootedAt(rows, r.id, 0) {
      RowOfIsUnique(rows, r);
    }
    BuildAllIsLinked(rows, TopRows(rows), []);
  }

  // ------------------------------------------------- each row exactly once

  ghost predicate NoRepeats<T>(s: seq<T>) {
    forall i, j :: 0 <= i < j < |s| ==> s[i] != s[j]
  }

  ghost predicate UnderSome(rows: seq<Row>, y: Id, xs: seq<Row>) {
    exists x :: x in xs && Under(rows, y, x.id)
  }

  /** Rows all at the same depth, each once: the roots, or the children of one row. */
  ghost predicate Level(rows: seq<Row>, list: seq<Row>, k: nat) {
    && NoRepeats(list)
    && (forall r | r in list :: r in rows && RootedAt(rows, r.id, k))
  }

  lemma NoRepeatsOfConcat<T>(a: seq<T>, b: seq<T>)
    requires NoRepeats(a) && NoRepeats(b) && forall x | x in a :: x !in b
    ensures NoRepeats(a + b)
  {
    var s := a + b;
    forall i, j | 0 <= i < j < |s| ensures s[i] != s[j] {
      if i < |a| <= j { assert s[i] in a && s[j] in b; }
    }
  }

  lemma SortKeepsNoRepeats<T>(s: seq<T>, r: seq<T>)
    requires NoRepeats(s) && multiset(r) == multiset(s)
    ensures NoRepeats(r)
  {
    forall i, j | 0 <= i < j < |r| ensures r[i] != r[j] {
      if r[i] == r[j] {
        SplitTwice(r, i, j);
        OnlyOnce(s, r[i]);
      }
    }
  }

  lemma SplitTwice<T>(r: seq<T>, i: nat, j: nat)
    requires i < j < |r| && r[i] == r[j]
    ensures multiset(r)[r[i]] >= 2
  {
    assert r == r[..i] + [r[i]] + r[i + 1..j] + [r[j]] + r[j + 1..];
  }

  lemma OnlyOnce<T>(s: seq<T>, x: T)
    requires NoRepeats(s)
    ensures multiset(s)[x] <= 1
  {
    if s != [] {
      var front := s[..|s| - 1];
      assert s == front + [s[|s| - 1]];
      OnlyOnce(front, x);
      if s[|s| - 1] == x { assert x !in front; }
    }
  }

  lemma FilterKeepsNoRepeats<T>(s: seq<T>, p: T -> bool)
    requires NoRepeats(s)
    ensures NoRepeats(Filter(s, p))
  {
  }

  lemma ChildrenAreALevel(rows: seq<Row>, id: Id, k: nat)
    requires DistinctIds(rows) && RootedAt(rows, id, k)
    ensures Level(rows, ChildRows(rows, id), k + 1)
  {
    FilterKeepsNoRepeats(rows, HasParent(id));
    SortKeepsNoRepeats(Filter(rows, HasParent(id)), ChildRows(rows, id));
    forall c | c in ChildRows(rows, id) ensures c in rows && RootedAt(rows, c.id, k + 1) {
      ChildIsDeeper(rows, id, c, k);
    }
  }

  lemma TopsAreALevel(rows: seq<Row>)
    requires DistinctIds(rows)
    ensures Level(rows, TopRows(rows), 0)
  {
    FilterKeepsNoRepeats(rows, TopIn(rows));
    SortKeepsNoRepeats(Filter(rows, TopIn(rows)), TopRows(rows));
    ChildRowsMeaning(rows, 0);
    forall r | r in TopRows(rows) ensures RootedAt(rows, r.id, 0) {
      RowOfIsUnique(rows, r);
    }
  }

  lemma BelowOneMore(rows: seq<Row>, y: Id, c: Row, i: nat, x: Id)
    requires DistinctIds(rows) && c in rows && c.parent == Some(x) && x in Ids(rows) && Below(rows, y, c.id, i)
    ensures Below(rows, y, x, i + 1)
    decreases i
  {
    if i == 0 {
      RowOfIsUnique(rows, c);
      assert Below(rows, x, x, 0);
    } else {
      BelowOneMore(rows, RowOf(rows, y).parent.value, c, i - 1, x);
    }
  }

  lemma UnderFromChild(rows: seq<Row>, y: Id, x: Id)
    requires DistinctIds(rows) && x in Ids(rows) && UnderSome(rows, y, ChildRows(rows, x))
    ensures Under(rows, y, x)
  {
    ChildRowsMeaning(rows, x);
    var c :| c in ChildRows(rows, x) && Under(rows, y, c.id);
    var i: nat :| Below(rows, y, c.id, i);
    BelowOneMore(rows, y, c, i, x);
  }

  lemma UnderViaChild(rows: seq<Row>, y: Id, x: Id)
    requires DistinctIds(rows) && Under(rows, y, x) && y != x
    ensures UnderSome(rows, y, ChildRows(rows, x))
  {
    ChildRowsMeaning(rows, x);
    var j: nat :| Below(rows, y, x, j);
    var c := BelowThroughChild(rows, y, x, j);
    assert Under(rows, y, c.id);
    assert c in ChildRows(rows, x);
  }

  lemma {:induction false} TreeHoldsRowsUnder(rows: seq<Row>, row: Row, path: seq<Id>)
    requires DistinctIds(rows) && row in rows && RootedAt(rows, row.id, |path|) && Descent(rows, path)
    ensures row.id in Left(rows, path)
    ensures NoRepeats(Flatten(BuildTree(rows, row, path)))
    ensures forall y :: y in Flatten(BuildTree(rows, row, path)) <==> y in rows && Under(rows, y.id, row.id)
    decreases Left(rows, path), 1, 0
  {
    KidsOf(rows, row, path);
    NotOnPath(rows, row.id, path);
    LeftShrinks(rows, row.id, path);
    ChildrenAreALevel(rows, row.id, |path|);
    var kids := ChildRows(rows, row.id);
    LevelHoldsRowsUnder(rows, kids, path + [row.id]);
    var rest := FlattenAll(BuildAll(rows, kids, path + [row.id]));
    forall y: Row | y in rest ensures y in rows && Under(rows, y.id, row.id) && y != row {
      UnderFromChild(rows, y.id, row.id);
      var c :| c in kids && Under(rows, y.id, c.id);
      if y == row { NotUnderDeeper(rows, row.id, c.id, |path|); }
    }
    forall y: Row | y in rows && Under(rows, y.id, row.id) && y != row ensures y in rest {
      RowOfIsUnique(rows, y);
      RowOfIsUnique(rows, row);
      UnderViaChild(rows, y.id, row.id);
    }
    assert Below(rows, row.id, row.id, 0);
    NoRepeatsOfConcat([row], rest);
  }

  lemma {:induction false} LevelHoldsRowsUnder(rows: seq<Row>, list: seq<Row>, path: seq<Id>)
    requires DistinctIds(rows) && Level(rows, list, |path|) && Descent(rows, path)
    ensures forall r | r in list :: r.id in Left(rows, path)
    ensures NoRepeats(FlattenAll(BuildAll(rows, list, path)))
    ensures forall y :: y in FlattenAll(BuildAll(rows, list, path)) <==> y in rows && UnderSome(rows, y.id, list)
    decreases Left(rows, path), 2, |list|
  {
    forall r | r in list ensures r.id in Left(rows, path) {
      NotOnPath(rows, r.id, path);
    }
    if list != [] {
      var x, rest := list[0], list[1..];
      assert list == [x] + rest && x !in rest;
      TreeHoldsRowsUnder(rows, x, path);
      LevelHoldsRowsUnder(rows, rest, path);
      var here, there := Flatten(BuildTree(rows, x, path)), FlattenAll(BuildAll(rows, rest, path));
      forall y | y in here ensures y !in there {
        if y in there {
          var x2 :| x2 in rest && Under(rows, y.id, x2.id);
          UnderOneOfALevel(rows, y.id, x.id, x2.id, |path|);
          RowOfIsUnique(rows, x);
          RowOfIsUnique(rows, x2);
        }
      }
      NoRepeatsOfConcat(here, there);
      forall y: Row ensures y in here + there <==> y in rows && UnderSome(rows, y.id, list) {
        UnderSomeSplits(rows, y.id, x, rest);
      }
    }
  }

  lemma UnderSomeSplits(rows: seq<Row>, y: Id, x: Row, rest: seq<Row>)
    ensures UnderSome(rows, y, [x] + rest) <==> Under(rows, y, x.id) || UnderSome(rows, y, rest)
  {
  }

  /** The forest holds a row exactly once if its parent chain ends, and a row of a cycle, or below one, never. */
  lemma ForestHoldsGroundedRowsOnce(rows: seq<Row>)
    requires DistinctIds(rows)
    ensures NoRepeats(FlattenAll(Forest(rows)))
    ensures forall y :: y in FlattenAll(Forest(rows)) <==> y in rows && Grounded(rows, y.id)
  {
    TopsAreALevel(rows);
    LevelHoldsRowsUnder(rows, TopRows(rows), []);
    ChildRowsMeaning(rows, 0);
    forall y: Row | y in rows ensures UnderSome(rows, y.id, TopRows(rows)) <==> Grounded(rows, y.id) {
      if UnderSome(rows, y.id, TopRows(rows)) {
        var x :| x in TopRows(rows) && Under(rows, y.id, x.id);
        var j: nat :| Below(rows, y.id, x.id, j);
        BelowAddsDepth(rows, y.id, x.id, j, 0);
      }
      if k: nat :| RootedAt(rows, y.id, k) {
        var x := RootedBelowTop(rows, y.id, k);
        assert Under(rows, y.id, RowOf(rows, x).id);
        assert RowOf(rows, x) in TopRows(rows);
      }
    }
  }
}
