/** Menu forest to table to forest: the trees built from the synchronised rows are the menu again. */
module MenuRoundTrip {
  import opened Optional
  import opened StableSort
  import opened ResourceForest
  import S = MenuSync
  import I = MenuInstall
  import O = MenuOutcome

  /** A table row as the tree builder reads it. */
  function View(id: Id, row: S.ResourceRow): Row {
    Row(id, row.code, row.parent, row.order)
  }

  /** `nodes` lists the enabled rows, in any order. */
  ghost predicate ListsEnabled(nodes: seq<Row>, rows: S.Rows) {
    && DistinctIds(nodes)
    && (forall r :: r in nodes ==> r.id in rows && rows[r.id].enabled && r == View(r.id, rows[r.id]))
    && (forall id :: id in rows && rows[id].enabled ==> View(id, rows[id]) in nodes)
  }

  /** The codes of the items that are not skipped. */
  function KeptCodes(items: seq<S.MenuItem>): seq<string> {
    if items == [] then []
    else (if S.Falsy(items[0].code) then [] else [items[0].code.value]) + KeptCodes(items[1..])
  }

  /** `t` shows `item` and, below it, its children. */
  ghost predicate TreeIs(t: Tree, item: S.MenuItem)
    decreases t, 0
  {
    !S.Falsy(item.code) && t.row.code == item.code.value && TreesAre(t.kids, item.children)
  }

  /** The same siblings on both sides, one tree per item, up to their order. */
  ghost predicate TreesAre(ts: seq<Tree>, items: seq<S.MenuItem>)
    decreases ts, 1
  {
    && |ts| == |KeptCodes(items)|
    && (forall t :: t in ts ==> exists item :: item in items && TreeIs(t, item))
    && (forall item :: item in items && !S.Falsy(item.code) ==> exists t :: t in ts && TreeIs(t, item))
  }

  // -------------------------------------------------- visits of a menu part

  lemma {:induction false} ItemIsPart(items: seq<S.MenuItem>, code: Option<string>, item: S.MenuItem)
    requires item in items
    ensures forall v :: v in I.ItemVisits(item, code) ==> v in I.Visits(items, code)
    ensures I.DistinctCodes(I.Visits(items, code)) ==> I.DistinctCodes(I.ItemVisits(item, code))
  {
    var first, rest := I.ItemVisits(items[0], code), I.Visits(items[1..], code);
    I.DistinctConcat(first, rest);
    if item != items[0] {
      ItemIsPart(items[1..], code, item);
    }
  }

  ghost predicate IsChildVisit(v: I.Visit, us: seq<I.Visit>) {
    exists u :: u in us && v.parent == Some(u.code) && v.item in u.item.children
  }

  ghost predicate VisitFits(v: I.Visit) {
    v.item.code == Some(v.code) && !S.Falsy(v.item.code)
  }

  /** Every visit is of a top item, or of a child of a visited item. */
  lemma {:induction false} VisitOrigin(items: seq<S.MenuItem>, code: Option<string>)
    ensures forall v :: v in I.Visits(items, code) ==>
              VisitFits(v) && ((v.parent == code && v.item in items) || IsChildVisit(v, I.Visits(items, code)))
    decreases items, 1
  {
    if items != [] {
      var all := I.Visits(items, code);
      forall v | v in all
        ensures VisitFits(v) && ((v.parent == code && v.item in items) || IsChildVisit(v, all))
      {
        ItemVisitOrigin(items[0], code);
        VisitOrigin(items[1..], code);
        var first, rest := I.ItemVisits(items[0], code), I.Visits(items[1..], code);
        assert all == first + rest;
        var part := if v in first then first else rest;
        if IsChildVisit(v, part) {
          var u :| u in part && v.parent == Some(u.code) && v.item in u.item.children;
          assert u in all;
        }
      }
    }
  }

  lemma {:induction false} ItemVisitOrigin(item: S.MenuItem, code: Option<string>)
    ensures forall v :: v in I.ItemVisits(item, code) ==>
              VisitFits(v) && ((v.parent == code && v.item == item) || IsChildVisit(v, I.ItemVisits(item, code)))
    decreases item, 0
  {
    if !S.Falsy(item.code) {
      var all := I.ItemVisits(item, code);
      var head, below := I.Visit(item.code.value, code, item), I.Visits(item.children, item.code);
      assert all == [head] + below && head in all;
      VisitOrigin(item.children, item.code);
      forall v | v in all
        ensures VisitFits(v) && ((v.parent == code && v.item == item) || IsChildVisit(v, all))
      {
        if v in below && IsChildVisit(v, below) {
          var u :| u in below && v.parent == Some(u.code) && v.item in u.item.children;
          assert u in all;
        }
      }
    }
  }

  lemma SameCodeSameVisit(vs: seq<I.Visit>, v: I.Visit, w: I.Visit)
    requires I.DistinctCodes(vs) && v in vs && w in vs && v.code == w.code
    ensures v == w
  {
  }

  /** With distinct codes, the visits whose parent is `v` are of the children of `v`. */
  lemma ChildVisits(items: seq<S.MenuItem>, v: I.Visit, w: I.Visit)
    requires I.DistinctCodes(I.Visits(items, None)) && v in I.Visits(items, None) && w in I.Visits(items, None)
    requires w.parent == Some(v.code)
    ensures w.item in v.item.children
  {
    var vs := I.Visits(items, None);
    VisitOrigin(items, None);
    var u :| u in vs && w.parent == Some(u.code) && w.item in u.item.children;
    SameCodeSameVisit(vs, u, v);
  }

  // ----------------------------------------------------------- kept siblings

  lemma {:induction false} KeptCodesMeaning(items: seq<S.MenuItem>, code: Option<string>)
    ensures forall c :: c in KeptCodes(items) <==> exists item :: item in items && !S.Falsy(item.code) && item.code.value == c
    ensures I.DistinctCodes(I.Visits(items, code)) ==> NoRepeats(KeptCodes(items))
  {
    if items != [] {
      var first, rest := I.ItemVisits(items[0], code), I.Visits(items[1..], code);
      KeptCodesMeaning(items[1..], code);
      I.DistinctConcat(first, rest);
      forall c | c in KeptCodes(items[1..]) ensures c in I.CodesOf(rest) {
        var item :| item in items[1..] && !S.Falsy(item.code) && item.code.value == c;
        ItemIsPart(items[1..], code, item);
        assert I.Visit(c, code, item) in I.ItemVisits(item, code);
      }
      if !S.Falsy(items[0].code) {
        assert I.Visit(items[0].code.value, code, items[0]) in first;
        assert items[0].code.value in I.CodesOf(first);
      }
      forall c ensures c in KeptCodes(items) <==> exists item :: item in items && !S.Falsy(item.code) && item.code.value == c {
        if item :| item in items && !S.Falsy(item.code) && item.code.value == c {
          assert item == items[0] || item in items[1..];
        }
        if c in KeptCodes(items[1..]) {
          var item :| item in items[1..] && !S.Falsy(item.code) && item.code.value == c;
          assert item in items;
        }
      }
    }
  }

  lemma KeptItem(items: seq<S.MenuItem>, c: string) returns (item: S.MenuItem)
    requires c in KeptCodes(items)
    ensures item in items && !S.Falsy(item.code) && item.code.value == c
  {
    KeptCodesMeaning(items, None);
    item :| item in items && !S.Falsy(item.code) && item.code.value == c;
  }

  lemma CodeIsKept(items: seq<S.MenuItem>, item: S.MenuItem)
    requires item in items && !S.Falsy(item.code)
    ensures item.code.value in KeptCodes(items)
  {
  }

  lemma {:induction false} SizeWithoutRepeats<T>(s: seq<T>)
    requires NoRepeats(s)
    ensures |set x | x in s| == |s|
  {
    if s != [] {
      var front, last := s[..|s| - 1], s[|s| - 1];
      SizeWithoutRepeats(front);
      assert (set x | x in s) == (set x | x in front) + {last};
    }
  }

  lemma SameSetSameSize<T>(a: seq<T>, b: seq<T>)
    requires NoRepeats(a) && NoRepeats(b) && forall x :: x in a <==> x in b
    ensures |a| == |b|
  {
    SizeWithoutRepeats(a);
    SizeWithoutRepeats(b);
    assert (set x | x in a) == (set x | x in b);
  }

  function TreeCodes(ts: seq<Tree>): seq<string> {
    seq(|ts|, i requires 0 <= i < |ts| => ts[i].row.code)
  }

  lemma TreeCodesMeaning(ts: seq<Tree>)
    ensures forall t :: t in ts ==> t.row.code in TreeCodes(ts)
    ensures forall c :: c in TreeCodes(ts) ==> exists t :: t in ts && t.row.code == c
  {
    forall t | t in ts ensures t.row.code in TreeCodes(ts) {
      var i :| 0 <= i < |ts| && ts[i] == t;
      assert TreeCodes(ts)[i] == t.row.code;
    }
    forall c | c in TreeCodes(ts) ensures exists t :: t in ts && t.row.code == c {
      var i :| 0 <= i < |ts| && TreeCodes(ts)[i] == c;
      assert ts[i] in ts;
    }
  }

  // -------------------------------------------------------------- main result

  /** The synchronised table, its listing, and the menu it came from. */
  ghost predicate Synced(s: S.Progress, items: seq<S.MenuItem>, nodes: seq<Row>) {
    && I.DistinctCodes(I.Visits(items, None)) && I.Tracks(s, I.Visits(items, None))
    && s.rows.Keys == s.ids.Values && O.ClosedUnderParent(s.rows, s.ids.Values)
    && ListsEnabled(nodes, s.rows) && (forall id :: id in s.rows ==> s.rows[id].enabled)
  }

  /** The siblings the builder puts under the row of `code`, or at the top. */
  function Siblings(nodes: seq<Row>, ids: map<string, Id>, code: Option<string>): seq<Row> {
    if code.None? then TopRows(nodes)
    else if code.value in ids then ChildRows(nodes, ids[code.value])
    else []
  }

  /** Each listed row is the row of one visit. */
  lemma RowHasVisit(s: S.Progress, items: seq<S.MenuItem>, nodes: seq<Row>, r: Row) returns (v: I.Visit)
    requires Synced(s, items, nodes) && r in nodes
    ensures v in I.Visits(items, None) && VisitFits(v) && r.code == v.code && v.code in s.ids && s.ids[v.code] == r.id
    ensures I.ParentIs(s.ids, v.parent, r.parent)
  {
    assert r.id in s.ids.Values;
    var c :| c in s.ids && s.ids[c] == r.id;
    assert c in I.CodesOf(I.Visits(items, None));
    v :| v in I.Visits(items, None) && v.code == c;
    VisitOrigin(items, None);
    assert I.Installed(s, v);
  }

  lemma ParentIsListed(rows: S.Rows, nodes: seq<Row>, r: Row)
    requires ListsEnabled(nodes, rows) && (forall id :: id in rows ==> rows[id].enabled)
    requires O.ClosedUnderParent(rows, rows.Keys) && r in nodes
    ensures IsTop(nodes, r) <==> r.parent == None
  {
  }

  /** The siblings under `code` are exactly the rows of the visits with that parent. */
  lemma SiblingRow(s: S.Progress, items: seq<S.MenuItem>, nodes: seq<Row>, code: Option<string>, r: Row, v: I.Visit)
    requires Synced(s, items, nodes) && (code.Some? ==> code.value in s.ids)
    requires r in nodes && I.ParentIs(s.ids, v.parent, r.parent)
    ensures r in Siblings(nodes, s.ids, code) <==> v.parent == code
  {
    ParentIsListed(s.rows, nodes, r);
    if code.None? {
      ChildRowsMeaning(nodes, 0);
    } else {
      ChildRowsMeaning(nodes, s.ids[code.value]);
      if v.parent.Some? && s.ids[v.parent.value] == s.ids[code.value] {
        O.TrackedIdsAreInjective(s, I.Visits(items, None), v.parent.value, code.value);
      }
    }
  }

  /** The visit of an item has its row among the siblings. */
  lemma VisitHasRow(s: S.Progress, items: seq<S.MenuItem>, nodes: seq<Row>, v: I.Visit) returns (r: Row)
    requires Synced(s, items, nodes) && v in I.Visits(items, None)
    requires v.parent.Some? ==> v.parent.value in s.ids
    ensures r in Siblings(nodes, s.ids, v.parent) && r.code == v.code
  {
    assert I.Installed(s, v);
    var id := s.ids[v.code];
    r := View(id, s.rows[id]);
    assert r in nodes;
    SiblingRow(s, items, nodes, v.parent, r, v);
  }

  lemma SiblingsAreNodes(nodes: seq<Row>, ids: map<string, Id>, code: Option<string>)
    requires DistinctIds(nodes)
    ensures forall r :: r in Siblings(nodes, ids, code) ==> r in nodes
    ensures NoRepeats(Siblings(nodes, ids, code))
  {
    if code.None? {
      ChildRowsMeaning(nodes, 0);
      TopsAreALevel(nodes);
    } else if code.value in ids {
      var id := ids[code.value];
      ChildRowsMeaning(nodes, id);
      FilterKeepsNoRepeats(nodes, HasParent(id));
      SortKeepsNoRepeats(Filter(nodes, HasParent(id)), ChildRows(nodes, id));
    }
  }

  lemma SiblingCodesDiffer(s: S.Progress, items: seq<S.MenuItem>, nodes: seq<Row>, code: Option<string>, ts: seq<Tree>)
    requires Synced(s, items, nodes) && Heads(ts) == Siblings(nodes, s.ids, code)
    ensures NoRepeats(TreeCodes(ts))
  {
    SiblingsAreNodes(nodes, s.ids, code);
    forall i, j | 0 <= i < j < |ts| ensures ts[i].row.code != ts[j].row.code {
      assert Heads(ts)[i] == ts[i].row && Heads(ts)[j] == ts[j].row;
      RowOfIsUnique(nodes, ts[i].row);
      RowOfIsUnique(nodes, ts[j].row);
      var v := RowHasVisit(s, items, nodes, ts[i].row);
      var w := RowHasVisit(s, items, nodes, ts[j].row);
    }
  }

  /** A level of the menu, `part`, under `code`, against the level of trees built there. */
  ghost predicate Facing(s: S.Progress, items: seq<S.MenuItem>, nodes: seq<Row>, part: seq<S.MenuItem>,
                         code: Option<string>, ts: seq<Tree>)
  {
    && Heads(ts) == Siblings(nodes, s.ids, code) && (forall t :: t in ts ==> Linked(nodes, t))
    && (code.Some? ==> code.value in s.ids)
    && I.DistinctCodes(I.Visits(part, code))
    && (forall v :: v in I.Visits(part, code) ==> v in I.Visits(items, None))
    && (forall v :: v in I.Visits(items, None) && v.parent == code ==> v.item in part)
  }

  /** Each tree of the level stands for one item of it, and faces that item's children. */
  lemma TreeHasItem(s: S.Progress, items: seq<S.MenuItem>, nodes: seq<Row>, part: seq<S.MenuItem>,
                    code: Option<string>, ts: seq<Tree>, t: Tree) returns (item: S.MenuItem)
    requires Synced(s, items, nodes) && Facing(s, items, nodes, part, code, ts) && t in ts
    ensures item in part && !S.Falsy(item.code) && item.code.value == t.row.code
    ensures Facing(s, items, nodes, item.children, item.code, t.kids)
  {
    var i :| 0 <= i < |ts| && ts[i] == t;
    assert Heads(ts)[i] == t.row;
    SiblingsAreNodes(nodes, s.ids, code);
    var v := RowHasVisit(s, items, nodes, t.row);
    SiblingRow(s, items, nodes, code, t.row, v);
    item := v.item;
    ItemIsPart(part, code, item);
    var head, below := I.Visit(v.code, code, item), I.Visits(item.children, item.code);
    assert I.ItemVisits(item, code) == [head] + below;
    I.DistinctConcat([head], below);
    forall w | w in I.Visits(items, None) && w.parent == item.code ensures w.item in item.children {
      ChildVisits(items, v, w);
    }
    assert Linked(nodes, t);
    forall k | k in t.kids ensures Linked(nodes, k) {
    }
  }

  lemma {:induction false} LevelRoundTrip(s: S.Progress, items: seq<S.MenuItem>, nodes: seq<Row>, part: seq<S.MenuItem>,
                                          code: Option<string>, ts: seq<Tree>)
    requires Synced(s, items, nodes) && Facing(s, items, nodes, part, code, ts)
    ensures TreesAre(ts, part)
    decreases ts
  {
    forall t | t in ts ensures exists item :: item in part && TreeIs(t, item) {
      var item := TreeHasItem(s, items, nodes, part, code, ts, t);
      LevelRoundTrip(s, items, nodes, item.children, item.code, t.kids);
      assert TreeIs(t, item);
    }
    forall item | item in part && !S.Falsy(item.code) ensures exists t :: t in ts && TreeIs(t, item) {
      var t := ItemHasTree(s, items, nodes, part, code, ts, item);
      var other := TreeHasItem(s, items, nodes, part, code, ts, t);
      LevelRoundTrip(s, items, nodes, other.children, other.code, t.kids);
      SameCodeSameItem(part, code, item, other);
      assert TreeIs(t, item);
    }
    LevelSizes(s, items, nodes, part, code, ts);
  }

  lemma ItemHasTree(s: S.Progress, items: seq<S.MenuItem>, nodes: seq<Row>, part: seq<S.MenuItem>,
                    code: Option<string>, ts: seq<Tree>, item: S.MenuItem) returns (t: Tree)
    requires Synced(s, items, nodes) && Facing(s, items, nodes, part, code, ts)
    requires item in part && !S.Falsy(item.code)
    ensures t in ts && t.row.code == item.code.value
  {
    var v := I.Visit(item.code.value, code, item);
    ItemIsPart(part, code, item);
    assert v in I.ItemVisits(item, code);
    var r := VisitHasRow(s, items, nodes, v);
    var i :| 0 <= i < |Heads(ts)| && Heads(ts)[i] == r;
    t := ts[i];
  }

  lemma SameCodeSameItem(part: seq<S.MenuItem>, code: Option<string>, a: S.MenuItem, b: S.MenuItem)
    requires I.DistinctCodes(I.Visits(part, code)) && a in part && b in part
    requires !S.Falsy(a.code) && a.code == b.code
    ensures a == b
  {
    ItemIsPart(part, code, a);
    ItemIsPart(part, code, b);
    assert I.Visit(a.code.value, code, a) in I.ItemVisits(a, code);
    assert I.Visit(b.code.value, code, b) in I.ItemVisits(b, code);
    SameCodeSameVisit(I.Visits(part, code), I.Visit(a.code.value, code, a), I.Visit(b.code.value, code, b));
  }

  lemma TreeCodeIsKept(s: S.Progress, items: seq<S.MenuItem>, nodes: seq<Row>, part: seq<S.MenuItem>,
                       code: Option<string>, ts: seq<Tree>, c: string)
    requires Synced(s, items, nodes) && Facing(s, items, nodes, part, code, ts) && c in TreeCodes(ts)
    ensures c in KeptCodes(part)
  {
    TreeCodesMeaning(ts);
    var t :| t in ts && t.row.code == c;
    var item := TreeHasItem(s, items, nodes, part, code, ts, t);
    CodeIsKept(part, item);
  }

  lemma KeptCodeHasTree(s: S.Progress, items: seq<S.MenuItem>, nodes: seq<Row>, part: seq<S.MenuItem>,
                        code: Option<string>, ts: seq<Tree>, c: string)
    requires Synced(s, items, nodes) && Facing(s, items, nodes, part, code, ts) && c in KeptCodes(part)
    ensures c in TreeCodes(ts)
  {
    var item := KeptItem(part, c);
    var t := ItemHasTree(s, items, nodes, part, code, ts, item);
    TreeCodesMeaning(ts);
  }

  lemma LevelSizes(s: S.Progress, items: seq<S.MenuItem>, nodes: seq<Row>, part: seq<S.MenuItem>,
                   code: Option<string>, ts: seq<Tree>)
    requires Synced(s, items, nodes) && Facing(s, items, nodes, part, code, ts)
    ensures |ts| == |KeptCodes(part)|
  {
    KeptCodesMeaning(part, code);
    SiblingCodesDiffer(s, items, nodes, code, ts);
    var a, b := TreeCodes(ts), KeptCodes(part);
    forall c ensures c in a <==> c in b {
      if c in a { TreeCodeIsKept(s, items, nodes, part, code, ts, c); }
      if c in b { KeptCodeHasTree(s, items, nodes, part, code, ts, c); }
    }
    SameSetSameSize(a, b);
  }

  /**
   Synchronise a menu into any table, list the rows in any order, rebuild the
   trees: the result is the menu forest, with every sibling list in the stable order
   of `order_num`.
   */
  lemma MenuSurvivesRoundTrip(granted: set<S.Code>, rows: S.Rows, next: Id, items: seq<S.MenuItem>, nodes: seq<Row>)
    requires I.Healthy(O.Start(rows, next)) && S.Run(granted, rows, next, items).Done?
    requires I.DistinctCodes(I.Visits(items, None))
    requires ListsEnabled(nodes, S.Run(granted, rows, next, items).state.rows)
    requires var after := S.Run(granted, rows, next, items).state.rows; forall id :: id in after ==> after[id].enabled
    ensures TreesAre(Forest(nodes), items)
    ensures Heads(Forest(nodes)) == TopRows(nodes) && forall t :: t in Forest(nodes) ==> Linked(nodes, t)
  {
    O.RunInstallsMenu(granted, rows, next, items);
    var s := S.Run(granted, rows, next, items).state;
    ForestIsLinked(nodes);
    VisitOrigin(items, None);
    forall v | v in I.Visits(items, None) && v.parent == None ensures v.item in items {
      assert !IsChildVisit(v, I.Visits(items, None));
    }
    assert Facing(s, items, nodes, items, None, Forest(nodes));
    LevelRoundTrip(s, items, nodes, items, None, Forest(nodes));
  }
}
