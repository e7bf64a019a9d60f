/** What a run of the menu script writes into each row, to the last permission and column. */
module MenuContents {
  import opened Optional
  import opened Scenes
  import opened MenuSync
  import opened MenuInstall
  import opened MenuOutcome

  function Wanted(v: Visit): set<Code> {
    set p | p in v.item.permissions
  }

  /** A column given is taken over; one not given keeps its value, or on a new row has its default. */
  ghost predicate ColumnIs<T(!new)>(value: T, given: Option<T>, otherwise: T) {
    (given.Some? ==> value == given.value) && (given.None? ==> value == otherwise)
  }

  function RowAt(rows: Rows, id: Id): Option<ResourceRow> {
    if id in rows then Some(rows[id]) else None
  }

  ghost predicate IsAt(row: ResourceRow, v: Visit, parent: Option<Id>) {
    row.scene == Web && row.code == v.code && row.parent == parent
  }

  /**
   `row` is what the node `v` makes of the row that stood there before, if any: that row
   with the given columns and the permissions of the node added, or a new one with just
   these permissions and the defaults.
   */
  ghost predicate RowFrom(before: Option<ResourceRow>, row: ResourceRow, v: Visit, parent: Option<Id>) {
    && IsAt(row, v, parent)
    && (before.None? ==>
          && row.permissions == Wanted(v) && ColumnIs(row.order, v.item.columns.order, 1)
          && ColumnIs(row.enabled, v.item.columns.enabled, true) && ColumnIs(row.assignable, v.item.columns.assignable, true))
    && (before.Some? ==>
          && IsAt(before.value, v, parent)
          && row.permissions == before.value.permissions + Wanted(v)
          && ColumnIs(row.order, v.item.columns.order, before.value.order)
          && ColumnIs(row.enabled, v.item.columns.enabled, before.value.enabled)
          && ColumnIs(row.assignable, v.item.columns.assignable, before.value.assignable))
  }

  ghost predicate OnlyOneAt(rows: Rows, v: Visit, parent: Option<Id>, id: Id) {
    forall x :: x in rows && IsAt(rows[x], v, parent) ==> x == id
  }

  /** The row of `v` is made from the one that stood in its place in `origin`, if any. */
  ghost predicate RowIs(origin: Rows, id: Id, row: ResourceRow, v: Visit) {
    RowFrom(RowAt(origin, id), row, v, row.parent) && OnlyOneAt(origin, v, row.parent, id)
  }

  // ------------------------------------------------------------- invariants

  ghost predicate Built(origin: Rows, s: Progress, v: Visit) {
    v.code in s.ids && s.ids[v.code] in s.rows && RowIs(origin, s.ids[v.code], s.rows[s.ids[v.code]], v)
  }

  /** Rows of codes not visited yet are as they were. */
  ghost predicate Untouched(origin: Rows, s: Progress, vs: seq<Visit>) {
    && (forall x :: x in origin ==> x in s.rows && s.rows[x].code == origin[x].code)
    && (forall x :: x in origin && origin[x].code !in CodesOf(vs) ==> s.rows[x] == origin[x])
    && (forall x :: x in s.rows && x !in origin ==> s.rows[x].code in CodesOf(vs))
  }

  ghost predicate Builds(origin: Rows, s: Progress, vs: seq<Visit>) {
    Untouched(origin, s, vs) && forall v :: v in vs ==> Built(origin, s, v)
  }

  // ----------------------------------------------------------- the node itself

  /** From `s` to `after` one node has been handled: the row under `id` is made, all else stands. */
  ghost predicate OneNode(s: Progress, after: Progress, v: Visit, parent: Option<Id>, id: Id) {
    && after.rows.Keys == s.rows.Keys + {id} && (forall x :: x in s.rows && x != id ==> after.rows[x] == s.rows[x])
    && after.ids == s.ids[v.code := id]
    && RowFrom(RowAt(s.rows, id), after.rows[id], v, parent) && OnlyOneAt(s.rows, v, parent, id)
  }

  lemma UpsertIsOneNode(granted: set<Code>, s: Progress, v: Visit, parent: Option<Id>)
    requires Findable(s, v.code, parent) && forall p :: p in v.item.permissions ==> p in granted
    ensures |Matching(s.rows, v.code, parent)| <= 1
    ensures var (s1, id) := Upsert(s, v.code, parent, v.item.columns);
            OneNode(s, Granted(granted, s1, id, v.item.permissions), v, parent, id)
  {
    UpsertMeaning(s, v.code, parent, v.item.columns);
    var (s1, id) := Upsert(s, v.code, parent, v.item.columns);
    assert Wanted(v) == set p | p in granted && p in v.item.permissions;
    UpsertedRow(RowAt(s.rows, id), s1.rows[id], v, parent);
  }

  lemma UpsertedRow(before: Option<ResourceRow>, row: ResourceRow, v: Visit, parent: Option<Id>)
    requires if before.Some? then IsAt(before.value, v, parent) && row == UpdatedRow(before.value, v.item.columns)
             else row == NewRow(v.code, parent, v.item.columns)
    ensures RowFrom(before, row.(permissions := row.permissions + Wanted(v)), v, parent)
  {
  }

  lemma OneNodeLeavesOthers(origin: Rows, s: Progress, after: Progress, v: Visit, parent: Option<Id>, id: Id, vs: seq<Visit>)
    requires OneNode(s, after, v, parent, id) && Untouched(origin, s, vs)
    ensures Untouched(origin, after, vs + [v])
  {
  }

  lemma OneNodeIsBuilt(origin: Rows, s: Progress, after: Progress, v: Visit, parent: Option<Id>, id: Id, vs: seq<Visit>)
    requires OneNode(s, after, v, parent, id) && Untouched(origin, s, vs) && v.code !in CodesOf(vs)
    ensures Built(origin, after, v)
  {
    assert id in s.rows ==> s.rows[id].code == v.code;
    assert RowAt(origin, id) == RowAt(s.rows, id);
    forall x | x in origin && IsAt(origin[x], v, parent) ensures x == id {
      assert s.rows[x] == origin[x];
    }
  }

  lemma OneNodeKeepsBuilt(origin: Rows, s: Progress, after: Progress, v: Visit, parent: Option<Id>, id: Id, w: Visit)
    requires OneNode(s, after, v, parent, id) && w.code != v.code && Built(origin, s, w)
    ensures Built(origin, after, w)
  {
  }

  lemma OneNodeBuilds(origin: Rows, s: Progress, after: Progress, v: Visit, parent: Option<Id>, id: Id, vs: seq<Visit>)
    requires OneNode(s, after, v, parent, id) && Builds(origin, s, vs) && v.code !in CodesOf(vs)
    ensures Builds(origin, after, vs + [v])
  {
    OneNodeLeavesOthers(origin, s, after, v, parent, id, vs);
    OneNodeIsBuilt(origin, s, after, v, parent, id, vs);
    forall w | w in vs ensures Built(origin, after, w) {
      assert w.code in CodesOf(vs);
      OneNodeKeepsBuilt(origin, s, after, v, parent, id, w);
    }
  }

  // ------------------------------------------------------------ the recursion

  type Inv = (Progress, seq<Visit>) -> bool

  /** Handling one more node keeps `inv`. */
  ghost predicate KeptByNodes(inv: Inv) {
    forall s, after, v, parent, id, vs ::
      inv(s, vs) && OneNode(s, after, v, parent, id) && v.code !in CodesOf(vs) ==> inv(after, vs + [v])
  }

  /** The state in which the recursion turns to the children of `item`. */
  lemma HeadKeeps(granted: set<Code>, inv: Inv, s: Progress, item: MenuItem, parent: Option<Id>, code: Option<string>, vs: seq<Visit>)
    returns (s2: Progress, id: Id)
    requires KeptByNodes(inv) && inv(s, vs) && !Falsy(item.code)
    requires Ready(granted, s, vs, ItemVisits(item, code)) && ParentIs(s.ids, code, parent)
    ensures SyncItem(granted, s, item, parent) == SyncItems(granted, s2, item.children, Some(id))
    ensures var v := Visit(item.code.value, code, item);
            inv(s2, vs + [v]) && Ready(granted, s2, vs + [v], Visits(item.children, item.code))
    ensures ParentIs(s2.ids, item.code, Some(id))
  {
    var v := Visit(item.code.value, code, item);
    ReadyForParts(granted, s, vs, [v], Visits(item.children, item.code));
    SyncHeadAdvances(granted, s, v, parent, vs);
    SyncItemUnfolds(granted, s, item, parent);
    assert v in [v] && v.code in CodesOf([v]);
    UpsertIsOneNode(granted, s, v, parent);
    var (s1, i) := Upsert(s, v.code, parent, item.columns);
    s2, id := Granted(granted, s1, i, item.permissions), i;
    AdvanceThenReady(granted, s, vs, [v], Visits(item.children, item.code), s2);
  }

  /** The run over `more`, with `vs` behind it, ends where `inv` holds of both. */
  ghost predicate Reaches(inv: Inv, vs: seq<Visit>, more: seq<Visit>, r: Outcome) {
    inv(r.state, vs + more)
  }

  lemma ReachesNone(inv: Inv, s: Progress, vs: seq<Visit>)
    requires inv(s, vs)
    ensures Reaches(inv, vs, [], Done(s))
  {
    assert vs + [] == vs;
  }

  lemma ReachesBoth(inv: Inv, vs: seq<Visit>, a: seq<Visit>, b: seq<Visit>, r: Outcome)
    requires Reaches(inv, vs + a, b, r)
    ensures Reaches(inv, vs, a + b, r)
  {
    assert vs + a + b == vs + (a + b);
  }

  lemma {:induction false} SyncItemKeeps(granted: set<Code>, inv: Inv, s: Progress, item: MenuItem, parent: Option<Id>,
                                         code: Option<string>, vs: seq<Visit>)
    requires KeptByNodes(inv) && inv(s, vs)
    requires Ready(granted, s, vs, ItemVisits(item, code)) && ParentIs(s.ids, code, parent)
    ensures Reaches(inv, vs, ItemVisits(item, code), SyncItem(granted, s, item, parent))
    decreases item, 0
  {
    if Falsy(item.code) {
      ReachesNone(inv, s, vs);
    } else {
      var v := Visit(item.code.value, code, item);
      var s2, id := HeadKeeps(granted, inv, s, item, parent, code, vs);
      SyncItemsKeep(granted, inv, s2, item.children, Some(id), item.code, vs + [v]);
      ReachesBoth(inv, vs, [v], Visits(item.children, item.code), SyncItem(granted, s, item, parent));
    }
  }

  /** What the first item leaves, ready for the rest. */
  lemma FirstKeeps(granted: set<Code>, inv: Inv, s: Progress, items: seq<MenuItem>, parent: Option<Id>, code: Option<string>, vs: seq<Visit>)
    returns (s1: Progress)
    requires items != [] && Ready(granted, s, vs, Visits(items, code)) && ParentIs(s.ids, code, parent)
    requires Reaches(inv, vs, ItemVisits(items[0], code), SyncItem(granted, s, items[0], parent))
    ensures SyncItems(granted, s, items, parent) == SyncItems(granted, s1, items[1..], parent)
    ensures inv(s1, vs + ItemVisits(items[0], code)) && ParentIs(s1.ids, code, parent)
    ensures Ready(granted, s1, vs + ItemVisits(items[0], code), Visits(items[1..], code))
  {
    var first, rest := ItemVisits(items[0], code), Visits(items[1..], code);
    ReadyForParts(granted, s, vs, first, rest);
    SyncItemAdvances(granted, s, items[0], parent, code, vs);
    s1 := SyncItem(granted, s, items[0], parent).state;
    AdvanceThenReady(granted, s, vs, first, rest, s1);
  }

  lemma {:induction false} SyncItemsKeep(granted: set<Code>, inv: Inv, s: Progress, items: seq<MenuItem>, parent: Option<Id>,
                                         code: Option<string>, vs: seq<Visit>)
    requires KeptByNodes(inv) && inv(s, vs)
    requires Ready(granted, s, vs, Visits(items, code)) && ParentIs(s.ids, code, parent)
    ensures Reaches(inv, vs, Visits(items, code), SyncItems(granted, s, items, parent))
    decreases items, 1
  {
    if items == [] {
      ReachesNone(inv, s, vs);
    } else {
      var first, rest := ItemVisits(items[0], code), Visits(items[1..], code);
      ReadyForParts(granted, s, vs, first, rest);
      SyncItemKeeps(granted, inv, s, items[0], parent, code, vs);
      var s1 := FirstKeeps(granted, inv, s, items, parent, code, vs);
      SyncItemsKeep(granted, inv, s1, items[1..], parent, code, vs + first);
      ReachesBoth(inv, vs, first, rest, SyncItems(granted, s, items, parent));
    }
  }

  lemma BuildsIsKept(origin: Rows)
    ensures KeptByNodes((s, vs) => Builds(origin, s, vs))
  {
    forall s, after, v, parent, id, vs | Builds(origin, s, vs) && OneNode(s, after, v, parent, id) && v.code !in CodesOf(vs)
      ensures Builds(origin, after, vs + [v])
    {
      OneNodeBuilds(origin, s, after, v, parent, id, vs);
    }
  }

  /**
   After a finished run over distinct codes, the row of every node is the one that stood in
   its place before the run, or a new one, with exactly the node's permissions added and
   exactly the columns the node gives changed.
   */
  lemma RunFillsRows(granted: set<Code>, rows: Rows, next: Id, items: seq<MenuItem>)
    requires Healthy(Start(rows, next)) && Run(granted, rows, next, items).Done?
    requires DistinctCodes(Visits(items, None))
    ensures var after := Run(granted, rows, next, items).state;
            forall v :: v in Visits(items, None) ==> Built(rows, after, v)
  {
    var vs := Visits(items, None);
    var s := SyncItems(granted, Start(rows, next), items, None).state;
    SyncBuilds(granted, rows, next, items);
    RunInstallsMenu(granted, rows, next, items);
    var after := Run(granted, rows, next, items).state;
    forall v | v in vs ensures Built(rows, after, v) {
      assert Built(rows, s, v) && Installed(after, v);
      CascadeKeepsRows(s.rows, s.rows.Keys - s.ids.Values);
    }
  }

  lemma SyncBuilds(granted: set<Code>, rows: Rows, next: Id, items: seq<MenuItem>)
    requires Healthy(Start(rows, next)) && Run(granted, rows, next, items).Done?
    requires DistinctCodes(Visits(items, None))
    ensures Builds(rows, SyncItems(granted, Start(rows, next), items, None).state, Visits(items, None))
  {
    ghost var inv: Inv := (s, vs) => Builds(rows, s, vs);
    RunFinishesIffRunnable(granted, rows, next, items);
    BuildsIsKept(rows);
    SyncItemsKeep(granted, inv, Start(rows, next), items, None, None, []);
    assert [] + Visits(items, None) == Visits(items, None);
  }
}
