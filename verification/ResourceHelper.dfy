/** `resource_list_to_trees` as it runs: one mutable node per row, shared between lists and sorted in place. */
module ResourceHelper {
  import opened Optional
  import opened StableSort
  import opened ResourceForest

  class TreeNode {
    const row: Row
    var children: seq<TreeNode>

    constructor (row: Row)
      ensures this.row == row && children == []
    {
      this.row := row;
      children := [];
    }
  }

  function NodeOrder(n: TreeNode): int { n.row.order }

  function NodeHasParent(id: Id): TreeNode -> bool {
    (n: TreeNode) => n.row.parent == Some(id)
  }

  function NodeIsTop(rows: seq<Row>): TreeNode -> bool {
    (n: TreeNode) => IsTop(rows, n.row)
  }

  function RowsOf(ns: seq<TreeNode>): (rows: seq<Row>)
    ensures |rows| == |ns| && forall i :: 0 <= i < |ns| ==> rows[i] == ns[i].row
  {
    seq(|ns|, i requires 0 <= i < |ns| => ns[i].row)
  }

  // ------------------------------------- nodes sort and filter as their rows

  lemma RowsOfAppend(ns: seq<TreeNode>, n: TreeNode)
    ensures RowsOf(ns + [n]) == RowsOf(ns) + [n.row]
  {
  }

  lemma RowsOfFront(ns: seq<TreeNode>)
    requires ns != []
    ensures RowsOf(ns[..|ns| - 1]) == RowsOf(ns)[..|ns| - 1]
  {
  }

  lemma {:induction false} FilterRows(ns: seq<TreeNode>, p: TreeNode -> bool, q: Row -> bool)
    requires forall n | n in ns :: p(n) == q(n.row)
    ensures RowsOf(Filter(ns, p)) == Filter(RowsOf(ns), q)
  {
    if ns != [] {
      var front, last := ns[..|ns| - 1], ns[|ns| - 1];
      FilterRows(front, p, q);
      RowsOfFront(ns);
      RowsOfAppend(Filter(front, p), last);
    }
  }

  lemma {:induction false} InsertRows(ns: seq<TreeNode>, n: TreeNode)
    ensures RowsOf(Insert(ns, n, NodeOrder)) == Insert(RowsOf(ns), n.row, RowOrder)
  {
    RowsOfAppend(ns, n);
    if ns != [] {
      var front, last := ns[..|ns| - 1], ns[|ns| - 1];
      RowsOfFront(ns);
      InsertRows(front, n);
      RowsOfAppend(Insert(front, n, NodeOrder), last);
    }
  }

  lemma {:induction false} SortRows(ns: seq<TreeNode>)
    ensures RowsOf(Sort(ns, NodeOrder)) == Sort(RowsOf(ns), RowOrder)
  {
    if ns != [] {
      var front, last := ns[..|ns| - 1], ns[|ns| - 1];
      RowsOfFront(ns);
      SortRows(front);
      InsertRows(Sort(front, NodeOrder), last);
    }
  }

  function ChildNodes(ns: seq<TreeNode>, id: Id): seq<TreeNode> {
    Sort(Filter(ns, NodeHasParent(id)), NodeOrder)
  }

  function TopNodes(ns: seq<TreeNode>): seq<TreeNode> {
    Sort(Filter(ns, NodeIsTop(RowsOf(ns))), NodeOrder)
  }

  lemma ChildNodesShowChildRows(ns: seq<TreeNode>, id: Id)
    ensures RowsOf(ChildNodes(ns, id)) == ChildRows(RowsOf(ns), id)
  {
    FilterRows(ns, NodeHasParent(id), HasParent(id));
    SortRows(Filter(ns, NodeHasParent(id)));
  }

  lemma TopNodesShowTopRows(ns: seq<TreeNode>)
    ensures RowsOf(TopNodes(ns)) == TopRows(RowsOf(ns))
  {
    FilterRows(ns, NodeIsTop(RowsOf(ns)), TopIn(RowsOf(ns)));
    SortRows(Filter(ns, NodeIsTop(RowsOf(ns))));
  }

  lemma SortedNodesAreNodes(list: seq<TreeNode>, ns: seq<TreeNode>)
    requires forall n | n in list :: n in ns
    ensures forall n | n in Sort(list, NodeOrder) :: n in ns
  {
    forall n | n in Sort(list, NodeOrder) ensures n in ns {
      assert n in multiset(Sort(list, NodeOrder));
      assert n in multiset(list);
    }
  }

  // ------------------------------------------ the heap shows a tree value

  /** The object graph from `n`, inside `heap`, spells out `t`. */
  ghost predicate Shows(n: TreeNode, t: Tree, heap: set<TreeNode>)
    reads heap
    decreases t
  {
    && n in heap && n.row == t.row
    && |n.children| == |t.kids|
    && forall i :: 0 <= i < |t.kids| ==> Shows(n.children[i], t.kids[i], heap)
  }

  ghost predicate ShowsAll(ns: seq<TreeNode>, ts: seq<Tree>, heap: set<TreeNode>)
    reads heap
  {
    |ns| == |ts| && forall i :: 0 <= i < |ns| ==> Shows(ns[i], ts[i], heap)
  }

  function SetOf(ns: seq<TreeNode>): set<TreeNode> {
    set n | n in ns
  }

  ghost predicate ChildrenFilled(ns: seq<TreeNode>)
    reads SetOf(ns)
  {
    forall n | n in ns :: n.children == ChildNodes(ns, n.row.id)
  }

  lemma {:induction false} NodeShowsTree(ns: seq<TreeNode>, n: TreeNode, path: seq<Id>)
    requires n in ns && ChildrenFilled(ns) && DistinctIds(RowsOf(ns))
    requires RootedAt(RowsOf(ns), n.row.id, |path|) && Descent(RowsOf(ns), path)
    ensures n.row.id in Left(RowsOf(ns), path)
    ensures Shows(n, BuildTree(RowsOf(ns), n.row, path), SetOf(ns))
    decreases Left(RowsOf(ns), path), 0
  {
    var rows, id := RowsOf(ns), n.row.id;
    KidsOf(rows, n.row, path);
    NotOnPath(rows, id, path);
    LeftShrinks(rows, id, path);
    ChildNodesShowChildRows(ns, id);
    SortedNodesAreNodes(Filter(ns, NodeHasParent(id)), ns);
    ChildrenAreALevel(rows, id, |path|);
    forall c | c in n.children ensures RootedAt(rows, c.row.id, |path| + 1) {
      assert c.row in RowsOf(n.children);
    }
    NodesShowTrees(ns, n.children, path + [id]);
  }

  lemma {:induction false} NodesShowTrees(ns: seq<TreeNode>, list: seq<TreeNode>, path: seq<Id>)
    requires ChildrenFilled(ns) && DistinctIds(RowsOf(ns)) && Descent(RowsOf(ns), path)
    requires forall n | n in list :: n in ns && RootedAt(RowsOf(ns), n.row.id, |path|)
    ensures forall r | r in RowsOf(list) :: r.id in Left(RowsOf(ns), path)
    ensures ShowsAll(list, BuildAll(RowsOf(ns), RowsOf(list), path), SetOf(ns))
    decreases Left(RowsOf(ns), path), 1
  {
    forall i | 0 <= i < |list|
      ensures list[i].row.id in Left(RowsOf(ns), path)
      ensures Shows(list[i], BuildTree(RowsOf(ns), list[i].row, path), SetOf(ns))
    {
      NodeShowsTree(ns, list[i], path);
    }
  }

  lemma RootsShowForest(ns: seq<TreeNode>)
    requires ChildrenFilled(ns) && DistinctIds(RowsOf(ns))
    ensures ShowsAll(TopNodes(ns), Forest(RowsOf(ns)), SetOf(ns))
  {
    var rows, roots := RowsOf(ns), TopNodes(ns);
    TopNodesShowTopRows(ns);
    SortedNodesAreNodes(Filter(ns, NodeIsTop(rows)), ns);
    TopsAreALevel(rows);
    forall n | n in roots ensures RootedAt(rows, n.row.id, 0) {
      assert n.row in RowsOf(roots);
    }
    NodesShowTrees(ns, roots, []);
  }

  // -------------------------------------------------------------- methods

  /** `slots` gives the place of every key in the insertion-ordered `values`. */
  ghost predicate Indexes(slots: map<Id, nat>, values: seq<TreeNode>) {
    && slots.Keys == Ids(RowsOf(values))
    && forall id | id in slots :: slots[id] < |values| && values[slots[id]].row.id == id
  }

  lemma ReplaceValue(values: seq<TreeNode>, slots: map<Id, nat>, node: TreeNode)
    requires DistinctIds(RowsOf(values)) && Indexes(slots, values) && node.row.id in slots
    ensures var after := values[slots[node.row.id] := node];
            RowsOf(after) == Put(RowsOf(values), node.row) && Indexes(slots, after)
  {
    var rows, i := RowsOf(values), slots[node.row.id];
    assert rows[i].id == node.row.id;
    assert Slot(rows, node.row.id) == i;
    var after := values[i := node];
    assert RowsOf(after) == rows[i := node.row];
    PutIds(rows, node.row, i);
  }

  lemma AddValue(values: seq<TreeNode>, slots: map<Id, nat>, node: TreeNode)
    requires DistinctIds(RowsOf(values)) && Indexes(slots, values) && node.row.id !in slots
    ensures RowsOf(values + [node]) == Put(RowsOf(values), node.row)
    ensures Indexes(slots[node.row.id := |values|], values + [node])
  {
    var rows := RowsOf(values);
    AbsentSlot(rows, node.row.id);
    RowsOfAppend(values, node);
    PutIds(rows, node.row, |rows|);
  }

  lemma NextEntry(made: seq<TreeNode>, i: nat)
    requires i < |made|
    ensures DictRows(RowsOf(made[..i + 1])) == Put(DictRows(RowsOf(made[..i])), made[i].row)
  {
    assert made[..i + 1] == made[..i] + [made[i]];
    RowsOfAppend(made[..i], made[i]);
    assert RowsOf(made[..i + 1])[..i] == RowsOf(made[..i]);
  }

  /** `ResourceLevelTreeNode.model_validate` for every row. */
  method MakeNodes(nodes: seq<Row>) returns (made: seq<TreeNode>)
    ensures RowsOf(made) == nodes
    ensures forall k :: 0 <= k < |made| ==> fresh(made[k]) && made[k].children == []
  {
    made := [];
    for i := 0 to |nodes|
      invariant |made| == i && forall k :: 0 <= k < i ==> made[k].row == nodes[k]
      invariant forall k :: 0 <= k < i ==> fresh(made[k]) && made[k].children == []
    {
      var node := new TreeNode(nodes[i]);
      made := made + [node];
    }
  }

  /** The dict comprehension over the nodes made: a later node takes over the slot of an earlier one. */
  method NodeDict(made: seq<TreeNode>) returns (values: seq<TreeNode>, slots: map<Id, nat>)
    ensures RowsOf(values) == DictRows(RowsOf(made)) && Indexes(slots, values)
    ensures forall n | n in values :: n in made
  {
    values, slots := [], map[];
    for i := 0 to |made|
      invariant RowsOf(values) == DictRows(RowsOf(made[..i])) && Indexes(slots, values)
      invariant forall n | n in values :: n in made
    {
      NextEntry(made, i);
      values, slots := PutNode(values, slots, made[i]);
    }
    assert made[..|made|] == made;
  }

  method PutNode(values: seq<TreeNode>, slots: map<Id, nat>, node: TreeNode)
    returns (values': seq<TreeNode>, slots': map<Id, nat>)
    requires DistinctIds(RowsOf(values)) && Indexes(slots, values)
    ensures RowsOf(values') == Put(RowsOf(values), node.row) && Indexes(slots', values')
    ensures forall n | n in values' :: n in values || n == node
  {
    if node.row.id in slots {
      ReplaceValue(values, slots, node);
      values', slots' := values[slots[node.row.id] := node], slots;
    } else {
      AddValue(values, slots, node);
      values', slots' := values + [node], slots[node.row.id := |values|];
    }
  }

  lemma NextChild(values: seq<TreeNode>, i: nat, id: Id)
    requires i < |values|
    ensures ChildNodes(values[..i + 1], id) ==
              if values[i].row.parent == Some(id) then Sort(ChildNodes(values[..i], id) + [values[i]], NodeOrder)
              else ChildNodes(values[..i], id)
  {
    assert values[..i + 1][..i] == values[..i];
    AppendThenSort(Filter(values[..i], NodeHasParent(id)), values[i], NodeOrder);
  }

  lemma NextTop(values: seq<TreeNode>, i: nat)
    requires i < |values|
    ensures Filter(values[..i + 1], NodeIsTop(RowsOf(values))) ==
              Filter(values[..i], NodeIsTop(RowsOf(values))) +
              if IsTop(RowsOf(values), values[i].row) then [values[i]] else []
  {
    assert values[..i + 1][..i] == values[..i];
  }

  lemma NodesDifferById(ns: seq<TreeNode>, j: nat, k: nat)
    requires DistinctIds(RowsOf(ns)) && j < |ns| && j != k
    ensures k < |ns| ==> ns[j].row.id != ns[k].row.id
  {
  }

  ghost predicate FilledUpTo(values: seq<TreeNode>, i: nat)
    requires i <= |values|
    reads SetOf(values)
  {
    forall k :: 0 <= k < |values| ==> values[k].children == ChildNodes(values[..i], values[k].row.id)
  }

  /** Appends the i-th node to the children of the node at `place`, and sorts them. */
  method AppendChild(values: seq<TreeNode>, i: nat, place: nat)
    requires DistinctIds(RowsOf(values)) && i < |values| && place < |values|
    requires values[i].row.parent == Some(values[place].row.id)
    requires FilledUpTo(values, i)
    modifies values[place]
    ensures FilledUpTo(values, i + 1)
  {
    var parent := values[place];
    ghost var before := ChildNodes(values[..i], parent.row.id);
    parent.children := parent.children + [values[i]];
    parent.children := Sort(parent.children, NodeOrder);
    assert parent.children == Sort(before + [values[i]], NodeOrder);
    forall k | 0 <= k < |values| ensures values[k].children == ChildNodes(values[..i + 1], values[k].row.id) {
      NextChild(values, i, values[k].row.id);
      if k != place { NodesDifferById(values, k, place); }
    }
  }

  lemma NoChildToAppend(values: seq<TreeNode>, i: nat)
    requires DistinctIds(RowsOf(values)) && i < |values| && IsTop(RowsOf(values), values[i].row)
    requires FilledUpTo(values, i)
    ensures FilledUpTo(values, i + 1)
  {
    forall k | 0 <= k < |values| ensures values[k].children == ChildNodes(values[..i + 1], values[k].row.id) {
      NextChild(values, i, values[k].row.id);
      assert RowsOf(values)[k] in RowsOf(values);
    }
  }

  /** The main loop over `node_dict.values()`. */
  method LinkNodes(values: seq<TreeNode>, slots: map<Id, nat>) returns (trees: seq<TreeNode>)
    requires DistinctIds(RowsOf(values)) && Indexes(slots, values)
    requires forall k :: 0 <= k < |values| ==> values[k].children == []
    modifies SetOf(values)
    ensures ChildrenFilled(values)
    ensures trees == TopNodes(values)
  {
    trees := [];
    for i := 0 to |values|
      invariant trees == Filter(values[..i], NodeIsTop(RowsOf(values)))
      invariant FilledUpTo(values, i)
    {
      var node := values[i];
      NextTop(values, i);
      if node.row.parent == None {
        NoChildToAppend(values, i);
        trees := trees + [node];
      } else if node.row.parent.value !in slots {
        NoChildToAppend(values, i);
        trees := trees + [node];
      } else {
        AppendChild(values, i, slots[node.row.parent.value]);
      }
    }
    assert values[..|values|] == values;
    trees := Sort(trees, NodeOrder);
  }

  method ResourceListToTrees(nodes: seq<Row>) returns (trees: seq<TreeNode>, ghost heap: set<TreeNode>)
    ensures fresh(heap)
    ensures ShowsAll(trees, Forest(DictRows(nodes)), heap)
  {
    if nodes == [] {
      return [], {};
    }
    var made := MakeNodes(nodes);
    var values, slots := NodeDict(made);
    forall k | 0 <= k < |values| ensures fresh(values[k]) && values[k].children == [] {
      assert values[k] in made;
    }
    trees := LinkNodes(values, slots);
    heap := SetOf(values);
    RootsShowForest(values);
  }
}
