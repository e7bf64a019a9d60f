/** What a run of the menu script leaves in the resource table, whatever was there before. */
module MenuInstall {
  import opened Optional
  import opened Scenes
  import opened MenuSync

  /** A menu node the recursion reaches, with the code of its menu parent. */
  datatype Visit = Visit(code: string, parent: Option<string>, item: MenuItem)

  /** The nodes reached, in the order reached; an item without code is skipped with everything under it. */
  function ItemVisits(item: MenuItem, parent: Option<string>): seq<Visit>
    decreases item, 0
  {
    if Falsy(item.code) then []
    else [Visit(item.code.value, parent, item)] + Visits(item.children, item.code)
  }

  function Visits(items: seq<MenuItem>, parent: Option<string>): seq<Visit>
    decreases items, 1
  {
    if items == [] then [] else ItemVisits(items[0], parent) + Visits(items[1..], parent)
  }

  function CodesOf(vs: seq<Visit>): set<string> {
    set v | v in vs :: v.code
  }

  ghost predicate DistinctCodes(vs: seq<Visit>) {
    forall i, j :: 0 <= i < j < |vs| ==> vs[i].code != vs[j].code
  }

  ghost predicate Grantable(granted: set<Code>, vs: seq<Visit>) {
    forall v, p :: v in vs && p in v.item.permissions ==> p in granted
  }

  // ------------------------------------------------------------- invariants

  ghost predicate SameKey(a: ResourceRow, b: ResourceRow) {
    a.scene == Web && b.scene == Web && a.code == b.code && a.parent == b.parent
  }

  /**
   What the unique key (code, parent, scene) and auto-increment give for the rows the
   script looks up. SQL does not compare nulls, so the key leaves root rows alone.
   */
  ghost predicate Healthy(s: Progress) {
    && (forall a, b :: a in s.rows && b in s.rows && s.rows[a].parent.Some? && SameKey(s.rows[a], s.rows[b]) ==> a == b)
    && (forall id :: id in s.rows ==> id < s.next)
  }

  predicate IsRoot(row: ResourceRow, code: string) {
    row.scene == Web && row.code == code && row.parent == None
  }

  /** At most one root row has this code. */
  ghost predicate OneRoot(rows: Rows, code: string) {
    forall a, b :: a in rows && b in rows && IsRoot(rows[a], code) && IsRoot(rows[b], code) ==> a == b
  }

  /** No root node of the menu meets two rows. */
  ghost predicate Unambiguous(rows: Rows, vs: seq<Visit>) {
    forall v :: v in vs && v.parent == None ==> OneRoot(rows, v.code)
  }

  ghost predicate SameAmbiguity(rows: Rows, after: Rows) {
    forall c :: OneRoot(rows, c) <==> OneRoot(after, c)
  }

  ghost predicate ParentIs(ids: map<string, Id>, code: Option<string>, id: Option<Id>) {
    if code.None? then id == None else code.value in ids && id == Some(ids[code.value])
  }

  ghost predicate Fits<T>(given: Option<T>, actual: T) {
    given.Some? ==> given.value == actual
  }

  /** `row` is the row the menu node `v` asks for. */
  ghost predicate RowFits(row: ResourceRow, v: Visit, ids: map<string, Id>) {
    && row.code == v.code && row.scene == Web && ParentIs(ids, v.parent, row.parent)
    && Fits(v.item.columns.order, row.order) && Fits(v.item.columns.enabled, row.enabled)
    && Fits(v.item.columns.assignable, row.assignable)
    && forall p :: p in v.item.permissions ==> p in row.permissions
  }

  ghost predicate Tracks(s: Progress, vs: seq<Visit>) {
    && s.ids.Keys == CodesOf(vs)
    && forall v :: v in vs ==> Installed(s, v)
  }

  /** The run has a row for `v`, and it is the row `v` asks for. */
  ghost predicate Installed(s: Progress, v: Visit) {
    v.code in s.ids && s.ids[v.code] in s.rows && RowFits(s.rows[s.ids[v.code]], v, s.ids)
  }

  // ------------------------------------------------------------ one upsert

  function Granted(granted: set<Code>, s: Progress, id: Id, wanted: seq<Code>): Progress
    requires id in s.rows
  {
    s.(rows := AddPermissions(s.rows, id, granted, wanted))
  }

  /** A lookup finds two rows exactly when it is for a root code that two rows have. */
  lemma MatchingIsUnique(s: Progress, code: string, parent: Option<Id>)
    requires Healthy(s)
    ensures |Matching(s.rows, code, parent)| <= 1 <==> (parent == None ==> OneRoot(s.rows, code))
  {
    var found := Matching(s.rows, code, parent);
    if parent == None ==> OneRoot(s.rows, code) {
      if found != {} {
        var x :| x in found;
        assert found == {x};
      }
    } else {
      var a, b :| a in s.rows && b in s.rows && IsRoot(s.rows[a], code) && IsRoot(s.rows[b], code) && a != b;
      assert a in found && b in found;
      if |found| == 1 {
        SingletonIsUnique(found, a, b);
      }
    }
  }

  /** The upsert may look up a single row. */
  ghost predicate Findable(s: Progress, code: string, parent: Option<Id>) {
    Healthy(s) && (parent == None ==> OneRoot(s.rows, code))
  }

  ghost predicate SamePlace(a: ResourceRow, b: ResourceRow) {
    a.code == b.code && a.scene == b.scene && a.parent == b.parent
  }

  lemma PlacesDecideHealth(s: Progress, after: Progress, id: Id)
    requires Healthy(s) && s.next <= after.next && id < after.next
    requires after.rows.Keys == s.rows.Keys + {id} && forall x :: x in s.rows ==> SamePlace(s.rows[x], after.rows[x])
    requires id !in s.rows ==> forall x :: x in s.rows ==> !SameKey(s.rows[x], after.rows[id])
    ensures Healthy(after)
  {
  }

  /** The upsert creates or updates exactly one row, the one with this code and parent. */
  lemma UpsertMeaning(s: Progress, code: string, parent: Option<Id>, c: Columns)
    requires Findable(s, code, parent)
    ensures |Matching(s.rows, code, parent)| <= 1
    ensures var (s', id) := Upsert(s, code, parent, c);
            && s'.rows.Keys == s.rows.Keys + {id} && s'.ids == s.ids[code := id] && s.next <= s'.next
            && (forall x :: x in s.rows && x != id ==> s'.rows[x] == s.rows[x])
            && (if id in s.rows then s.rows[id].code == code && s.rows[id].scene == Web && s.rows[id].parent == parent
                                     && s'.rows[id] == UpdatedRow(s.rows[id], c) && s'.next == s.next
                else s'.rows[id] == NewRow(code, parent, c) && s'.next == s.next + 1 && id == s.next)
            && Healthy(s')
    ensures var (s', id) := Upsert(s, code, parent, c);
            forall x :: x in s.rows && s.rows[x].code == code && s.rows[x].scene == Web && s.rows[x].parent == parent ==> x == id
  {
    MatchingIsUnique(s, code, parent);
    var found := Matching(s.rows, code, parent);
    var (s', id) := Upsert(s, code, parent, c);
    assert found != {} ==> found == {id} && id in found;
    forall x | x in s.rows && s.rows[x].code == code && s.rows[x].scene == Web && s.rows[x].parent == parent ensures x == id {
      assert x in found;
    }
    PlacesDecideHealth(s, s', id);
  }

  /** Rows that keep code, scene and parent, and a new root row only for a code without one, leave ambiguity as it is. */
  lemma PlacesDecideAmbiguity(rows: Rows, after: Rows, id: Id)
    requires after.Keys == rows.Keys + {id} && forall x :: x in rows ==> SamePlace(rows[x], after[x])
    requires id !in rows && after[id].parent == None ==> forall x :: x in rows ==> !IsRoot(rows[x], after[id].code)
    ensures SameAmbiguity(rows, after)
  {
  }

  lemma UpsertKeepsAmbiguity(s: Progress, code: string, parent: Option<Id>, c: Columns)
    requires Findable(s, code, parent) && |Matching(s.rows, code, parent)| <= 1
    ensures SameAmbiguity(s.rows, Upsert(s, code, parent, c).0.rows)
  {
    UpsertMeaning(s, code, parent, c);
    var (s', id) := Upsert(s, code, parent, c);
    PlacesDecideAmbiguity(s.rows, s'.rows, id);
  }

  lemma GrantKeepsHealth(granted: set<Code>, s: Progress, id: Id, wanted: seq<Code>)
    requires Healthy(s) && id in s.rows
    ensures Healthy(Granted(granted, s, id, wanted))
    ensures SameAmbiguity(s.rows, Granted(granted, s, id, wanted).rows)
  {
    PlacesDecideAmbiguity(s.rows, Granted(granted, s, id, wanted).rows, id);
  }

  lemma MissingMeaning(granted: set<Code>, wanted: seq<Code>)
    ensures Missing(granted, wanted).None? <==> forall p :: p in wanted ==> p in granted
    ensures Missing(granted, wanted).Some? ==> Missing(granted, wanted).value in wanted && Missing(granted, wanted).value !in granted
  {
  }

  lemma NewNodeIsInstalled(granted: set<Code>, s: Progress, v: Visit, parent: Option<Id>)
    requires Findable(s, v.code, parent) && v.code !in s.ids && ParentIs(s.ids, v.parent, parent)
    requires forall p :: p in v.item.permissions ==> p in granted
    ensures |Matching(s.rows, v.code, parent)| <= 1
    ensures var (s1, id) := Upsert(s, v.code, parent, v.item.columns);
            Installed(Granted(granted, s1, id, v.item.permissions), v)
  {
    UpsertMeaning(s, v.code, parent, v.item.columns);
  }

  lemma OldNodeStaysInstalled(granted: set<Code>, s: Progress, v: Visit, parent: Option<Id>, w: Visit)
    requires Findable(s, v.code, parent) && v.code !in s.ids && Installed(s, w)
    ensures |Matching(s.rows, v.code, parent)| <= 1
    ensures var (s1, id) := Upsert(s, v.code, parent, v.item.columns);
            Installed(Granted(granted, s1, id, v.item.permissions), w)
  {
    UpsertMeaning(s, v.code, parent, v.item.columns);
    var (s1, id) := Upsert(s, v.code, parent, v.item.columns);
    assert s.rows[s.ids[w.code]].code == w.code != v.code;
    assert s.ids[w.code] != id;
  }

  lemma TracksOneMore(s: Progress, s2: Progress, vs: seq<Visit>, v: Visit)
    requires s.ids.Keys == CodesOf(vs) && s2.ids.Keys == s.ids.Keys + {v.code}
    requires Installed(s2, v) && forall w :: w in vs ==> Installed(s2, w)
    ensures Tracks(s2, vs + [v])
  {
  }

  lemma OldNodesStayInstalled(granted: set<Code>, s: Progress, vs: seq<Visit>, v: Visit, parent: Option<Id>)
    requires Findable(s, v.code, parent) && v.code !in s.ids && forall w :: w in vs ==> Installed(s, w)
    ensures |Matching(s.rows, v.code, parent)| <= 1
    ensures var (s1, id) := Upsert(s, v.code, parent, v.item.columns);
            forall w :: w in vs ==> Installed(Granted(granted, s1, id, v.item.permissions), w)
  {
    MatchingIsUnique(s, v.code, parent);
    var (s1, id) := Upsert(s, v.code, parent, v.item.columns);
    forall w | w in vs ensures Installed(Granted(granted, s1, id, v.item.permissions), w) {
      OldNodeStaysInstalled(granted, s, v, parent, w);
    }
  }

  lemma StepIsHealthy(granted: set<Code>, s: Progress, v: Visit, parent: Option<Id>)
    requires Findable(s, v.code, parent)
    ensures |Matching(s.rows, v.code, parent)| <= 1
    ensures var (s1, id) := Upsert(s, v.code, parent, v.item.columns);
            var s2 := Granted(granted, s1, id, v.item.permissions);
            Healthy(s2) && SameAmbiguity(s.rows, s2.rows) && s1.ids == s.ids[v.code := id]
  {
    UpsertMeaning(s, v.code, parent, v.item.columns);
    UpsertKeepsAmbiguity(s, v.code, parent, v.item.columns);
    var (s1, id) := Upsert(s, v.code, parent, v.item.columns);
    GrantKeepsHealth(granted, s1, id, v.item.permissions);
  }

  // ---------------------------------------------------------- the recursion

  lemma CodesOfConcat(a: seq<Visit>, b: seq<Visit>)
    ensures CodesOf(a + b) == CodesOf(a) + CodesOf(b)
  {
  }

  lemma DistinctConcat(a: seq<Visit>, b: seq<Visit>)
    ensures DistinctCodes(a + b) <==> DistinctCodes(a) && DistinctCodes(b) && CodesOf(a) !! CodesOf(b)
  {
    var all := a + b;
    if DistinctCodes(all) {
      forall i, j | 0 <= i < j < |a| ensures a[i].code != a[j].code { assert all[i] == a[i] && all[j] == a[j]; }
      forall i, j | 0 <= i < j < |b| ensures b[i].code != b[j].code { assert all[|a| + i] == b[i] && all[|a| + j] == b[j]; }
      forall c | c in CodesOf(a) ensures c !in CodesOf(b) {
        var i :| 0 <= i < |a| && a[i].code == c;
        forall j | 0 <= j < |b| ensures b[j].code != c { assert all[i] == a[i] && all[|a| + j] == b[j]; }
      }
    }
    if DistinctCodes(a) && DistinctCodes(b) && CodesOf(a) !! CodesOf(b) {
      forall i, j | 0 <= i < j < |all| ensures all[i].code != all[j].code {
        assert i < |a| ==> a[i].code in CodesOf(a);
        assert j >= |a| ==> b[j - |a|].code in CodesOf(b);
      }
    }
  }

  ghost predicate Extends(ids: map<string, Id>, more: map<string, Id>) {
    forall c :: c in ids ==> c in more && more[c] == ids[c]
  }

  /** What the recursion over `more`, starting from `s` with `vs` behind it, must end in. */
  ghost predicate Advances(s: Progress, vs: seq<Visit>, more: seq<Visit>, r: Outcome) {
    r.Done? && Healthy(r.state) && SameAmbiguity(s.rows, r.state.rows) && Tracks(r.state, vs + more) && Extends(s.ids, r.state.ids)
  }

  ghost predicate Ready(granted: set<Code>, s: Progress, vs: seq<Visit>, more: seq<Visit>) {
    && Healthy(s) && Unambiguous(s.rows, more) && Tracks(s, vs)
    && DistinctCodes(more) && CodesOf(vs) !! CodesOf(more) && Grantable(granted, more)
  }

  lemma ReadyForParts(granted: set<Code>, s: Progress, vs: seq<Visit>, a: seq<Visit>, b: seq<Visit>)
    requires Ready(granted, s, vs, a + b)
    ensures Ready(granted, s, vs, a)
    ensures DistinctCodes(b) && CodesOf(vs + a) !! CodesOf(b) && Grantable(granted, b) && Unambiguous(s.rows, b)
  {
    DistinctConcat(a, b);
    CodesOfConcat(a, b);
    CodesOfConcat(vs, a);
    assert forall v :: v in a || v in b ==> v in a + b;
  }

  lemma AdvanceThenReady(granted: set<Code>, s: Progress, vs: seq<Visit>, a: seq<Visit>, b: seq<Visit>, s1: Progress)
    requires Ready(granted, s, vs, a + b) && Advances(s, vs, a, Done(s1))
    ensures Ready(granted, s1, vs + a, b)
  {
    ReadyForParts(granted, s, vs, a, b);
  }

  lemma AdvanceTwice(s: Progress, vs: seq<Visit>, a: seq<Visit>, s1: Progress, b: seq<Visit>, r: Outcome)
    requires Advances(s, vs, a, Done(s1)) && Advances(s1, vs + a, b, r)
    ensures Advances(s, vs, a + b, r)
  {
  }

  /** The node itself, before its children. */
  lemma SyncHeadAdvances(granted: set<Code>, s: Progress, v: Visit, parent: Option<Id>, vs: seq<Visit>)
    requires Ready(granted, s, vs, [v]) && ParentIs(s.ids, v.parent, parent)
    ensures |Matching(s.rows, v.code, parent)| <= 1 && Missing(granted, v.item.permissions).None?
    ensures var (s1, id) := Upsert(s, v.code, parent, v.item.columns);
            var s2 := Granted(granted, s1, id, v.item.permissions);
            Advances(s, vs, [v], Done(s2)) && ParentIs(s2.ids, Some(v.code), Some(id))
  {
    assert v in [v] && v.code in CodesOf([v]);
    StepIsHealthy(granted, s, v, parent);
    var (s1, id) := Upsert(s, v.code, parent, v.item.columns);
    OldNodesStayInstalled(granted, s, vs, v, parent);
    NewNodeIsInstalled(granted, s, v, parent);
    TracksOneMore(s, Granted(granted, s1, id, v.item.permissions), vs, v);
    MissingMeaning(granted, v.item.permissions);
  }

  lemma SyncItemUnfolds(granted: set<Code>, s: Progress, item: MenuItem, parent: Option<Id>)
    requires !Falsy(item.code) && |Matching(s.rows, item.code.value, parent)| <= 1
    requires Missing(granted, item.permissions).None?
    ensures var (s1, id) := Upsert(s, item.code.value, parent, item.columns);
            SyncItem(granted, s, item, parent) ==
            SyncItems(granted, Granted(granted, s1, id, item.permissions), item.children, Some(id))
  {
  }

  lemma {:induction false} SyncItemAdvances(granted: set<Code>, s: Progress, item: MenuItem, parent: Option<Id>,
                                            code: Option<string>, vs: seq<Visit>)
    requires Ready(granted, s, vs, ItemVisits(item, code)) && ParentIs(s.ids, code, parent)
    ensures Advances(s, vs, ItemVisits(item, code), SyncItem(granted, s, item, parent))
    decreases item, 0
  {
    if Falsy(item.code) {
      assert vs + [] == vs;
    } else {
      var v := Visit(item.code.value, code, item);
      var below := Visits(item.children, item.code);
      ReadyForParts(granted, s, vs, [v], below);
      SyncHeadAdvances(granted, s, v, parent, vs);
      var (s1, id) := Upsert(s, v.code, parent, item.columns);
      var s2 := Granted(granted, s1, id, item.permissions);
      SyncItemUnfolds(granted, s, item, parent);
      AdvanceThenReady(granted, s, vs, [v], below, s2);
      SyncItemsAdvances(granted, s2, item.children, Some(id), item.code, vs + [v]);
      AdvanceTwice(s, vs, [v], s2, below, SyncItems(granted, s2, item.children, Some(id)));
    }
  }

  lemma {:induction false} SyncItemsAdvances(granted: set<Code>, s: Progress, items: seq<MenuItem>, parent: Option<Id>,
                                             code: Option<string>, vs: seq<Visit>)
    requires Ready(granted, s, vs, Visits(items, code)) && ParentIs(s.ids, code, parent)
    ensures Advances(s, vs, Visits(items, code), SyncItems(granted, s, items, parent))
    decreases items, 1
  {
    if items == [] {
      assert vs + [] == vs;
    } else {
      var first, rest := ItemVisits(items[0], code), Visits(items[1..], code);
      ReadyForParts(granted, s, vs, first, rest);
      SyncItemAdvances(granted, s, items[0], parent, code, vs);
      var s1 := SyncItem(granted, s, items[0], parent).state;
      AdvanceThenReady(granted, s, vs, first, rest, s1);
      SyncItemsAdvances(granted, s1, items[1..], parent, code, vs + first);
      AdvanceTwice(s, vs, first, s1, rest, SyncItems(granted, s1, items[1..], parent));
    }
  }

  // ------------------------------------------------- success and failure

  /** Every permission named exists, and no root code is ambiguous. */
  ghost predicate Runnable(granted: set<Code>, rows: Rows, vs: seq<Visit>) {
    Grantable(granted, vs) && Unambiguous(rows, vs)
  }

  /** The error names a missing permission, or a root code of the menu that two rows have. */
  ghost predicate Explains(error: Error, granted: set<Code>, rows: Rows, vs: seq<Visit>) {
    match error
    case MissingPermission(p) => p !in granted && exists v :: v in vs && p in v.item.permissions
    case MultipleRows(c) => c in CodesOf(vs) && !OneRoot(rows, c)
  }

  /** What holds of the outcome of a part of the run, whether it stops or not. */
  ghost predicate Ends(granted: set<Code>, s: Progress, vs: seq<Visit>, r: Outcome) {
    && (r.Done? <==> Runnable(granted, s.rows, vs))
    && Healthy(r.state) && SameAmbiguity(s.rows, r.state.rows)
    && s.rows.Keys <= r.state.rows.Keys && r.state.ids.Values <= s.ids.Values + r.state.rows.Keys
    && r.state.ids.Keys <= s.ids.Keys + CodesOf(vs)
    && (r.Stopped? ==> Explains(r.error, granted, s.rows, vs))
  }

  lemma RunnableParts(granted: set<Code>, rows: Rows, a: seq<Visit>, b: seq<Visit>)
    ensures Runnable(granted, rows, a + b) <==> Runnable(granted, rows, a) && Runnable(granted, rows, b)
    ensures CodesOf(a + b) == CodesOf(a) + CodesOf(b)
  {
  }

  lemma ExplainsMore(error: Error, granted: set<Code>, rows: Rows, part: seq<Visit>, vs: seq<Visit>)
    requires Explains(error, granted, rows, part) && forall v :: v in part ==> v in vs
    ensures Explains(error, granted, rows, vs)
  {
  }

  /** A stopped first part stops the whole; otherwise the second part decides. */
  lemma EndsInOrder(granted: set<Code>, s: Progress, a: seq<Visit>, first: Outcome, b: seq<Visit>, r: Outcome)
    requires Ends(granted, s, a, first)
    requires if first.Stopped? then r == first else Ends(granted, first.state, b, r)
    ensures Ends(granted, s, a + b, r)
  {
    RunnableParts(granted, s.rows, a, b);
    if r.Stopped? {
      ExplainsMore(r.error, granted, s.rows, if first.Stopped? then a else b, a + b);
    }
  }

  /** The node itself, before its children. */
  lemma SyncHeadEnds(granted: set<Code>, s: Progress, v: Visit, parent: Option<Id>)
    requires Findable(s, v.code, parent) && (v.parent == None <==> parent == None)
    ensures |Matching(s.rows, v.code, parent)| <= 1
    ensures var (s1, id) := Upsert(s, v.code, parent, v.item.columns);
            var lost := Missing(granted, v.item.permissions);
            Ends(granted, s, [v], if lost.Some? then Stopped(s1, MissingPermission(lost.value))
                                  else Done(Granted(granted, s1, id, v.item.permissions)))
  {
    StepIsHealthy(granted, s, v, parent);
    UpsertMeaning(s, v.code, parent, v.item.columns);
    UpsertKeepsAmbiguity(s, v.code, parent, v.item.columns);
    var (s1, id) := Upsert(s, v.code, parent, v.item.columns);
    var lost := Missing(granted, v.item.permissions);
    OneNodeEnds(granted, s, v, s1, id,
                if lost.Some? then Stopped(s1, MissingPermission(lost.value)) else Done(Granted(granted, s1, id, v.item.permissions)));
  }

  lemma OneNodeEnds(granted: set<Code>, s: Progress, v: Visit, s1: Progress, id: Id, r: Outcome)
    requires v.parent == None ==> OneRoot(s.rows, v.code)
    requires s1.rows.Keys == s.rows.Keys + {id} && s1.ids == s.ids[v.code := id]
    requires r.state.rows.Keys == s1.rows.Keys && r.state.ids == s1.ids
    requires Healthy(r.state) && SameAmbiguity(s.rows, r.state.rows)
    requires var lost := Missing(granted, v.item.permissions);
             if lost.Some? then r.Stopped? && r.error == MissingPermission(lost.value) else r.Done?
    ensures Ends(granted, s, [v], r)
  {
    MissingMeaning(granted, v.item.permissions);
    assert v in [v] && CodesOf([v]) == {v.code};
    assert r.Stopped? ==> Explains(r.error, granted, s.rows, [v]);
  }

  lemma AmbiguousHeadStops(granted: set<Code>, s: Progress, v: Visit, below: seq<Visit>)
    requires Healthy(s) && v.parent == None && !OneRoot(s.rows, v.code)
    ensures Ends(granted, s, [v] + below, Stopped(s, MultipleRows(v.code)))
  {
  }

  /** A run stops exactly when it meets a permission that does not exist or a root code that two rows have. */
  lemma {:induction false} SyncItemSucceeds(granted: set<Code>, s: Progress, item: MenuItem, parent: Option<Id>, code: Option<string>)
    requires Healthy(s) && (code == None <==> parent == None)
    ensures Ends(granted, s, ItemVisits(item, code), SyncItem(granted, s, item, parent))
    decreases item, 0
  {
    if !Falsy(item.code) {
      var v := Visit(item.code.value, code, item);
      var below := Visits(item.children, item.code);
      MatchingIsUnique(s, v.code, parent);
      if |Matching(s.rows, v.code, parent)| > 1 {
        AmbiguousHeadStops(granted, s, v, below);
      } else {
        SyncHeadEnds(granted, s, v, parent);
        var (s1, id) := Upsert(s, v.code, parent, item.columns);
        var lost := Missing(granted, item.permissions);
        var s2 := Granted(granted, s1, id, item.permissions);
        var head := if lost.Some? then Stopped(s1, MissingPermission(lost.value)) else Done(s2);
        if lost.None? {
          SyncItemUnfolds(granted, s, item, parent);
          SyncItemsSucceeds(granted, s2, item.children, Some(id), item.code);
        }
        EndsInOrder(granted, s, [v], head, below, SyncItem(granted, s, item, parent));
      }
    }
  }

  lemma {:induction false} SyncItemsSucceeds(granted: set<Code>, s: Progress, items: seq<MenuItem>, parent: Option<Id>, code: Option<string>)
    requires Healthy(s) && (code == None <==> parent == None)
    ensures Ends(granted, s, Visits(items, code), SyncItems(granted, s, items, parent))
    decreases items, 1
  {
    if items != [] {
      var first := SyncItem(granted, s, items[0], parent);
      SyncItemSucceeds(granted, s, items[0], parent, code);
      if first.Done? {
        SyncItemsSucceeds(granted, first.state, items[1..], parent, code);
      }
      EndsInOrder(granted, s, ItemVisits(items[0], code), first, Visits(items[1..], code), SyncItems(granted, s, items, parent));
    }
  }
}
