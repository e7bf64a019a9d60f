/** The effect of a whole `create_menu_and_perm` on the resource table, and of running it again. */
module MenuOutcome {
  import opened Optional
  import opened MenuSync
  import opened MenuInstall

  function Start(rows: Rows, next: Id): Progress {
    Progress(rows, next, map[])
  }

  // ----------------------------------------------------------- the clean-up

  /** Every kept row is there, and so is its parent. */
  ghost predicate ClosedUnderParent(rows: Rows, kept: set<Id>) {
    forall id :: id in kept ==> id in rows && (rows[id].parent.Some? ==> rows[id].parent.value in kept)
  }

  /** The cascade never reaches a set closed under parent. */
  lemma CascadeSparesClosedSet(rows: Rows, kept: set<Id>)
    requires ClosedUnderParent(rows, kept)
    ensures DeleteExcept(rows, kept) == map id | id in kept :: rows[id]
  {
  }

  lemma {:induction false} CascadeOnlyDeletes(rows: Rows, gone: set<Id>)
    ensures Cascade(rows, gone).Keys <= rows.Keys - gone
    decreases rows.Keys - gone
  {
    var hit := set id | id in rows && id !in gone && rows[id].parent.Some? && rows[id].parent.value in gone;
    if hit != {} {
      var id :| id in hit;
      assert id in rows.Keys - gone && id !in rows.Keys - (gone + hit);
      assert rows.Keys - (gone + hit) < rows.Keys - gone;
      CascadeOnlyDeletes(rows, gone + hit);
    }
  }

  /** The clean-up changes no row it keeps. */
  lemma {:induction false} CascadeKeepsRows(rows: Rows, gone: set<Id>)
    ensures forall id :: id in Cascade(rows, gone) ==> id in rows && Cascade(rows, gone)[id] == rows[id]
    decreases rows.Keys - gone
  {
    var hit := set id | id in rows && id !in gone && rows[id].parent.Some? && rows[id].parent.value in gone;
    if hit != {} {
      HitShrinks(rows, gone, hit);
      CascadeKeepsRows(rows, gone + hit);
    }
  }

  lemma HitShrinks(rows: Rows, gone: set<Id>, hit: set<Id>)
    requires hit != {} && forall id :: id in hit ==> id in rows && id !in gone
    ensures rows.Keys - (gone + hit) < rows.Keys - gone
  {
  }

  /** After `k` parent links from `id` a row in `gone` is met. */
  ghost predicate MeetsGone(rows: Rows, gone: set<Id>, id: Id, k: nat)
    decreases k
  {
    id in rows && if k == 0 then id in gone else rows[id].parent.Some? && MeetsGone(rows, gone, rows[id].parent.value, k - 1)
  }

  ghost predicate Doomed(rows: Rows, gone: set<Id>, id: Id) {
    exists k: nat :: MeetsGone(rows, gone, id, k)
  }

  lemma {:induction false} NoHitNoMeeting(rows: Rows, gone: set<Id>, id: Id, k: nat)
    requires forall x :: x in rows && x !in gone && rows[x].parent.Some? ==> rows[x].parent.value !in gone
    requires id !in gone
    ensures !MeetsGone(rows, gone, id, k)
    decreases k
  {
    if k > 0 && id in rows && rows[id].parent.Some? {
      NoHitNoMeeting(rows, gone, rows[id].parent.value, k - 1);
    }
  }

  /** Adding the rows directly below changes nothing about who is doomed. */
  lemma {:induction false} MeetsMore(rows: Rows, gone: set<Id>, hit: set<Id>, id: Id, k: nat)
    requires gone <= rows.Keys
    requires forall x :: x in hit ==> x in rows && rows[x].parent.Some? && rows[x].parent.value in gone
    ensures MeetsGone(rows, gone, id, k) ==> MeetsGone(rows, gone + hit, id, k)
    ensures MeetsGone(rows, gone + hit, id, k) ==> MeetsGone(rows, gone, id, k) || MeetsGone(rows, gone, id, k + 1)
    decreases k
  {
    if k > 0 {
      if id in rows && rows[id].parent.Some? {
        MeetsMore(rows, gone, hit, rows[id].parent.value, k - 1);
      }
    } else if id in hit {
      assert MeetsGone(rows, gone, rows[id].parent.value, 0);
    }
  }

  /** The cascade deletes exactly the rows from which a chain of parents leads to a deleted row. */
  lemma {:induction false} CascadeMeaning(rows: Rows, gone: set<Id>)
    requires gone <= rows.Keys
    ensures forall id :: id in Cascade(rows, gone) <==> id in rows && !Doomed(rows, gone, id)
    decreases rows.Keys - gone
  {
    var hit := set id | id in rows && id !in gone && rows[id].parent.Some? && rows[id].parent.value in gone;
    if hit == {} {
      forall id | id in rows ensures id in gone <==> Doomed(rows, gone, id) {
        if id in gone {
          assert MeetsGone(rows, gone, id, 0);
        } else {
          forall k: nat ensures !MeetsGone(rows, gone, id, k) {
            assert forall x :: x in rows && x !in gone && rows[x].parent.Some? && rows[x].parent.value in gone ==> x in hit;
            NoHitNoMeeting(rows, gone, id, k);
          }
        }
      }
    } else {
      HitShrinks(rows, gone, hit);
      CascadeMeaning(rows, gone + hit);
      forall id ensures Doomed(rows, gone + hit, id) <==> Doomed(rows, gone, id) {
        DoomedMore(rows, gone, hit, id);
      }
    }
  }

  lemma DoomedMore(rows: Rows, gone: set<Id>, hit: set<Id>, id: Id)
    requires gone <= rows.Keys
    requires forall x :: x in hit ==> x in rows && rows[x].parent.Some? && rows[x].parent.value in gone
    ensures Doomed(rows, gone + hit, id) <==> Doomed(rows, gone, id)
  {
    if k: nat :| MeetsGone(rows, gone + hit, id, k) {
      MeetsMore(rows, gone, hit, id, k);
    }
    if k: nat :| MeetsGone(rows, gone, id, k) {
      MeetsMore(rows, gone, hit, id, k);
    }
  }

  lemma TrackedIdsAreClosed(s: Progress, vs: seq<Visit>)
    requires Tracks(s, vs)
    ensures ClosedUnderParent(s.rows, s.ids.Values)
  {
    forall id | id in s.ids.Values
      ensures id in s.rows && (s.rows[id].parent.Some? ==> s.rows[id].parent.value in s.ids.Values)
    {
      var c :| c in s.ids && s.ids[c] == id;
      assert c in CodesOf(vs);
      var v :| v in vs && v.code == c;
      assert Installed(s, v);
    }
  }

  /** Two codes never share a row: the row spells its code. */
  lemma TrackedIdsAreInjective(s: Progress, vs: seq<Visit>, c: string, d: string)
    requires Tracks(s, vs) && c in s.ids && d in s.ids && s.ids[c] == s.ids[d]
    ensures c == d
  {
  }

  // ------------------------------------------------------------ main result

  /** A run finishes exactly when every permission named exists and no root code of the menu is that of two rows. */
  lemma RunFinishesIffRunnable(granted: set<Code>, rows: Rows, next: Id, items: seq<MenuItem>)
    requires Healthy(Start(rows, next))
    ensures Run(granted, rows, next, items).Done? <==> Runnable(granted, rows, Visits(items, None))
  {
    SyncItemsSucceeds(granted, Start(rows, next), items, None, None);
  }

  /**
   Whatever the table held, a run that finishes over a menu with distinct codes leaves
   exactly one row per menu node, with the node's columns and permissions, under the row
   of its menu parent; and no other row.
   */
  lemma RunInstallsMenu(granted: set<Code>, rows: Rows, next: Id, items: seq<MenuItem>)
    requires Healthy(Start(rows, next)) && Run(granted, rows, next, items).Done?
    requires DistinctCodes(Visits(items, None))
    ensures var r := Run(granted, rows, next, items);
            && Healthy(r.state) && Tracks(r.state, Visits(items, None)) && Unambiguous(r.state.rows, Visits(items, None))
            && r.state.rows.Keys == r.state.ids.Values && ClosedUnderParent(r.state.rows, r.state.ids.Values)
            && forall c, d :: c in r.state.ids && d in r.state.ids && r.state.ids[c] == r.state.ids[d] ==> c == d
  {
    var vs := Visits(items, None);
    RunFinishesIffRunnable(granted, rows, next, items);
    assert Ready(granted, Start(rows, next), [], vs);
    SyncItemsAdvances(granted, Start(rows, next), items, None, None, []);
    assert [] + vs == vs;
    var s := SyncItems(granted, Start(rows, next), items, None).state;
    var kept := s.ids.Values;
    TrackedIdsAreClosed(s, vs);
    CascadeSparesClosedSet(s.rows, kept);
    var done := Run(granted, rows, next, items).state;
    forall v | v in vs ensures Installed(done, v) {
      assert Installed(s, v) && s.ids[v.code] in kept;
    }
    KeptRowsStayHealthy(s, kept, done);
    forall c, d | c in done.ids && d in done.ids && done.ids[c] == done.ids[d] ensures c == d {
      TrackedIdsAreInjective(done, vs, c, d);
    }
    TrackedRowsAreUnambiguous(done, vs);
  }

  /** When every row is tracked, codes are unique. */
  lemma TrackedRowsAreUnambiguous(s: Progress, vs: seq<Visit>)
    requires Tracks(s, vs) && s.rows.Keys == s.ids.Values
    ensures Unambiguous(s.rows, vs)
  {
  }

  lemma KeptRowsStayHealthy(s: Progress, kept: set<Id>, after: Progress)
    requires Healthy(s) && after.next == s.next
    requires forall id :: id in after.rows ==> id in s.rows && after.rows[id] == s.rows[id]
    ensures Healthy(after)
  {
  }

  // --------------------------------------------------- exactly when it holds

  lemma {:induction false} CodesAtMostVisits(vs: seq<Visit>)
    ensures |CodesOf(vs)| <= |vs|
    ensures |CodesOf(vs)| == |vs| <==> DistinctCodes(vs)
  {
    if vs != [] {
      var front, last := vs[..|vs| - 1], vs[|vs| - 1];
      assert vs == front + [last];
      CodesAtMostVisits(front);
      CodesOfConcat(front, [last]);
      DistinctConcat(front, [last]);
      assert CodesOf([last]) == {last.code};
      if last.code in CodesOf(front) {
        assert CodesOf(vs) == CodesOf(front);
      } else {
        assert |CodesOf(vs)| == |CodesOf(front)| + 1;
      }
    }
  }

  lemma {:induction false} ValuesAtMostKeys(m: map<string, Id>)
    ensures |m.Values| <= |m.Keys|
    ensures (forall c, d :: c in m && d in m && m[c] == m[d] ==> c == d) ==> |m.Values| == |m.Keys|
    decreases |m|
  {
    if m.Keys == {} {
      assert m.Values == {};
    } else {
      var c :| c in m;
      var rest := m - {c};
      assert rest.Keys == m.Keys - {c};
      ValuesAtMostKeys(rest);
      assert m.Values == rest.Values + {m[c]} by {
        forall x | x in m.Values ensures x in rest.Values + {m[c]} {
          var d :| d in m && m[d] == x;
          assert d != c ==> d in rest && rest[d] == x;
        }
        assert forall x :: x in rest.Values ==> exists d :: d in rest && rest[d] == x;
      }
      if forall d, e :: d in m && e in m && m[d] == m[e] ==> d == e {
        assert m[c] !in rest.Values;
      }
    }
  }

  lemma SubsetSize<T>(a: set<T>, b: set<T>)
    requires a <= b
    ensures |a| <= |b|
  {
    assert |b - a| == |b| - |a|;
  }

  /** A run that finishes keeps one row per node reached exactly when no two of them share a code: a repeated code costs a row. */
  lemma RunKeepsOneRowPerNodeIffCodesDistinct(granted: set<Code>, rows: Rows, next: Id, items: seq<MenuItem>)
    requires Healthy(Start(rows, next)) && Run(granted, rows, next, items).Done?
    ensures |Run(granted, rows, next, items).state.rows| == |Visits(items, None)| <==> DistinctCodes(Visits(items, None))
  {
    var vs := Visits(items, None);
    SyncItemsSucceeds(granted, Start(rows, next), items, None, None);
    var s := SyncItems(granted, Start(rows, next), items, None).state;
    CodesAtMostVisits(vs);
    ValuesAtMostKeys(s.ids);
    CascadeOnlyDeletes(s.rows, s.rows.Keys - s.ids.Values);
    var kept := DeleteExcept(s.rows, s.ids.Values);
    assert kept.Keys <= s.ids.Values;
    SubsetSize(kept.Keys, s.ids.Values);
    SubsetSize(s.ids.Keys, CodesOf(vs));
    if DistinctCodes(vs) {
      RunInstallsMenu(granted, rows, next, items);
      ValuesAtMostKeys(Run(granted, rows, next, items).state.ids);
    }
  }

  /** A run that stops does so at a missing permission or at an ambiguous root code of the menu; it has then deleted nothing. */
  lemma StoppedRunDeletesNothing(granted: set<Code>, rows: Rows, next: Id, items: seq<MenuItem>)
    requires Healthy(Start(rows, next))
    ensures var r := Run(granted, rows, next, items);
            && (r.Stopped? <==> !Runnable(granted, rows, Visits(items, None)))
            && (r.Stopped? ==> Explains(r.error, granted, rows, Visits(items, None)) && rows.Keys <= r.state.rows.Keys
                               && Healthy(r.state) && SameAmbiguity(rows, r.state.rows))
  {
    SyncItemsSucceeds(granted, Start(rows, next), items, None, None);
  }

  // ------------------------------------------------------------ running again

  /** Every visited node already has its row, under the ids of an earlier run. */
  ghost predicate Settled(s: Progress, full: map<string, Id>, vs: seq<Visit>) {
    && Healthy(s) && Unambiguous(s.rows, vs) && Extends(s.ids, full)
    && forall v :: v in vs ==> Installed(s.(ids := full), v)
  }

  lemma FittingRowIsKept(row: ResourceRow, v: Visit, ids: map<string, Id>, granted: set<Code>)
    requires RowFits(row, v, ids)
    ensures UpdatedRow(row, v.item.columns) == row
    ensures row.permissions + (set p | p in granted && p in v.item.permissions) == row.permissions
  {
  }

  lemma UpsertOfSettledNode(granted: set<Code>, s: Progress, full: map<string, Id>, v: Visit, parent: Option<Id>)
    requires Settled(s, full, [v]) && ParentIs(full, v.parent, parent)
    requires forall p :: p in v.item.permissions ==> p in granted
    ensures |Matching(s.rows, v.code, parent)| <= 1
    ensures var (s1, id) := Upsert(s, v.code, parent, v.item.columns);
            && v.code in full && id in s1.rows && id == full[v.code]
            && Granted(granted, s1, id, v.item.permissions) == s.(ids := s.ids[v.code := full[v.code]])
  {
    assert v in [v];
    assert Installed(s.(ids := full), v);
    UpsertMeaning(s, v.code, parent, v.item.columns);
    var (s1, id) := Upsert(s, v.code, parent, v.item.columns);
    assert id == full[v.code];
    FittingRowIsKept(s.rows[id], v, full, granted);
    SameRowPut(s.rows, id);
    assert s1.rows == s.rows;
  }

  lemma SameRowPut(rows: Rows, id: Id)
    requires id in rows
    ensures rows[id := rows[id]] == rows && rows.Keys + {id} == rows.Keys
  {
  }

  ghost predicate Unmoved(s: Progress, full: map<string, Id>, vs: seq<Visit>, r: Outcome) {
    && r.Done? && r.state.rows == s.rows && r.state.next == s.next
    && Extends(r.state.ids, full) && r.state.ids.Keys == s.ids.Keys + CodesOf(vs)
  }

  lemma SettledForParts(granted: set<Code>, s: Progress, full: map<string, Id>, a: seq<Visit>, b: seq<Visit>)
    requires Settled(s, full, a + b) && Grantable(granted, a + b)
    ensures Settled(s, full, a) && Grantable(granted, a)
    ensures Settled(s, full, b) && Grantable(granted, b)
  {
  }

  lemma UnmovedStaysSettled(s: Progress, full: map<string, Id>, a: seq<Visit>, b: seq<Visit>, s1: Progress)
    requires Settled(s, full, b) && Unmoved(s, full, a, Done(s1))
    ensures Settled(s1, full, b)
  {
  }

  lemma UnmovedTwice(s: Progress, full: map<string, Id>, a: seq<Visit>, b: seq<Visit>, s1: Progress, r: Outcome)
    requires Unmoved(s, full, a, Done(s1)) && Unmoved(s1, full, b, r)
    ensures Unmoved(s, full, a + b, r)
  {
  }

  lemma {:induction false} ResyncItem(granted: set<Code>, s: Progress, item: MenuItem, parent: Option<Id>,
                                      code: Option<string>, full: map<string, Id>)
    requires Settled(s, full, ItemVisits(item, code)) && ParentIs(full, code, parent)
    requires Grantable(granted, ItemVisits(item, code))
    ensures Unmoved(s, full, ItemVisits(item, code), SyncItem(granted, s, item, parent))
    decreases item, 0
  {
    if !Falsy(item.code) {
      var v := Visit(item.code.value, code, item);
      var below := Visits(item.children, item.code);
      SettledForParts(granted, s, full, [v], below);
      assert v in [v];
      UpsertOfSettledNode(granted, s, full, v, parent);
      MissingMeaning(granted, item.permissions);
      SyncItemUnfolds(granted, s, item, parent);
      var s2 := s.(ids := s.ids[v.code := full[v.code]]);
      assert CodesOf([v]) == {v.code};
      assert Unmoved(s, full, [v], Done(s2));
      UnmovedStaysSettled(s, full, [v], below, s2);
      ResyncItems(granted, s2, item.children, Some(full[v.code]), item.code, full);
      UnmovedTwice(s, full, [v], below, s2, SyncItem(granted, s, item, parent));
    }
  }

  lemma {:induction false} ResyncItems(granted: set<Code>, s: Progress, items: seq<MenuItem>, parent: Option<Id>,
                                       code: Option<string>, full: map<string, Id>)
    requires Settled(s, full, Visits(items, code)) && ParentIs(full, code, parent)
    requires Grantable(granted, Visits(items, code))
    ensures Unmoved(s, full, Visits(items, code), SyncItems(granted, s, items, parent))
    decreases items, 1
  {
    if items != [] {
      var first, rest := ItemVisits(items[0], code), Visits(items[1..], code);
      SettledForParts(granted, s, full, first, rest);
      ResyncItem(granted, s, items[0], parent, code, full);
      var s1 := SyncItem(granted, s, items[0], parent).state;
      UnmovedStaysSettled(s, full, first, rest, s1);
      ResyncItems(granted, s1, items[1..], parent, code, full);
      UnmovedTwice(s, full, first, rest, s1, SyncItems(granted, s, items, parent));
    }
  }

  /** A second run on a fresh copy of the same menu creates, changes and deletes nothing. */
  lemma RunAgainChangesNothing(granted: set<Code>, rows: Rows, next: Id, items: seq<MenuItem>)
    requires Healthy(Start(rows, next)) && Run(granted, rows, next, items).Done?
    requires DistinctCodes(Visits(items, None))
    ensures var once := Run(granted, rows, next, items);
            Run(granted, once.state.rows, once.state.next, items) == once
  {
    RunFinishesIffRunnable(granted, rows, next, items);
    RunInstallsMenu(granted, rows, next, items);
    RunOverInstalledMenu(granted, Run(granted, rows, next, items).state, items);
  }

  lemma RunOverInstalledMenu(granted: set<Code>, once: Progress, items: seq<MenuItem>)
    requires Healthy(once) && Tracks(once, Visits(items, None)) && Grantable(granted, Visits(items, None))
    requires once.rows.Keys == once.ids.Values
    ensures Run(granted, once.rows, once.next, items) == Done(once)
  {
    var again := Start(once.rows, once.next);
    InstalledMenuIsSettled(once, Visits(items, None));
    ResyncItems(granted, again, items, None, None, once.ids);
    var s := SyncItems(granted, again, items, None).state;
    assert s.ids == once.ids;
    CleanUpKeepsInstalledMenu(once, Visits(items, None));
  }

  lemma InstalledMenuIsSettled(once: Progress, vs: seq<Visit>)
    requires Healthy(once) && Tracks(once, vs) && once.rows.Keys == once.ids.Values
    ensures Settled(Start(once.rows, once.next), once.ids, vs)
  {
  }

  lemma CleanUpKeepsInstalledMenu(once: Progress, vs: seq<Visit>)
    requires Tracks(once, vs) && once.rows.Keys == once.ids.Values
    ensures DeleteExcept(once.rows, once.ids.Values) == once.rows
  {
    TrackedIdsAreClosed(once, vs);
    CascadeSparesClosedSet(once.rows, once.ids.Values);
  }

  // ------------------------------------------- running on popped menu dicts

  /** The items a run has popped from are skipped by the next one in the same process. */
  lemma {:induction false} PoppedItemsDoNothing(granted: set<Code>, s: Progress, items: seq<MenuItem>, n: nat)
    requires n <= |items|
    ensures SyncItems(granted, s, Popped(items, n), None) == SyncItems(granted, s, items[n..], None)
  {
    if n == 0 {
      assert Popped(items, 0) == items[0..];
    } else {
      var menu := Popped(items, n);
      assert Falsy(menu[0].code) && SyncItem(granted, s, menu[0], None) == Done(s);
      assert menu[1..] == Popped(items[1..], n - 1) && items[1..][n - 1..] == items[n..];
      PoppedItemsDoNothing(granted, s, items[1..], n - 1);
    }
  }

  /** A second run in the same process skips every item, and empties the table. */
  lemma RunOnConsumedMenuEmptiesTable(granted: set<Code>, rows: Rows, next: Id, items: seq<MenuItem>)
    ensures Run(granted, rows, next, Popped(items, |items|)) == Done(Progress(map[], next, map[]))
  {
    PoppedItemsDoNothing(granted, Start(rows, next), items, |items|);
    var none: map<string, Id> := map[];
    assert none.Values == {};
    CascadeSparesClosedSet(rows, {});
  }

  /** The items handled are all, or those up to and with the one at which the run stops. */
  lemma {:induction false} HandledEndsAtStop(granted: set<Code>, s: Progress, items: seq<MenuItem>)
    ensures var n := Handled(granted, s, items);
            var whole := SyncItems(granted, s, items, None);
            if whole.Done? then n == |items|
            else
              var before := SyncItems(granted, s, items[..n - 1], None);
              0 < n && before.Done? && SyncItem(granted, before.state, items[n - 1], None) == whole
    decreases items
  {
    if items != [] {
      var first := SyncItem(granted, s, items[0], None);
      if first.Done? {
        HandledEndsAtStop(granted, first.state, items[1..]);
        var n := Handled(granted, first.state, items[1..]);
        if n > 0 {
          assert items[..n][0] == items[0] && items[..n][1..] == items[1..][..n - 1];
        }
      }
    }
  }

  lemma {:induction false} HandledSplits(items: seq<MenuItem>, n: nat)
    requires n <= |items|
    ensures Visits(items, None) == Visits(items[..n], None) + Visits(items[n..], None)
  {
    if n == 0 {
      assert items[0..] == items;
    } else {
      HandledSplits(items[1..], n - 1);
      assert items[..n][1..] == items[1..][..n - 1] && items[1..][n - 1..] == items[n..];
      var first := ItemVisits(items[0], None);
      assert first + (Visits(items[..n][1..], None) + Visits(items[n..], None)) ==
             (first + Visits(items[..n][1..], None)) + Visits(items[n..], None);
    }
  }

  /**
   After a run that stopped, a retry in the same process, with the missing permissions
   now there, only sees the items behind the one it stopped at. If it finishes, no row of
   any item handled before is left.
   */
  lemma RetryForgetsHandledItems(granted: set<Code>, rows: Rows, next: Id, items: seq<MenuItem>, more: set<Code>)
    requires Healthy(Start(rows, next)) && Run(granted, rows, next, items).Stopped?
    requires DistinctCodes(Visits(items, None))
    ensures var n := Handled(granted, Start(rows, next), items);
            var left := Run(granted, rows, next, items).state;
            Run(more, left.rows, left.next, Popped(items, n)) == Run(more, left.rows, left.next, items[n..])
    ensures var n := Handled(granted, Start(rows, next), items);
            var left := Run(granted, rows, next, items).state;
            var retry := Run(more, left.rows, left.next, Popped(items, n));
            retry.Done? ==>
              && Tracks(retry.state, Visits(items[n..], None))
              && forall id :: id in retry.state.rows ==>
                   retry.state.rows[id].code in CodesOf(Visits(items[n..], None)) - CodesOf(Visits(items[..n], None))
  {
    var n := Handled(granted, Start(rows, next), items);
    var left := Run(granted, rows, next, items).state;
    var rest := Visits(items[n..], None);
    StoppedRunDeletesNothing(granted, rows, next, items);
    PoppedItemsDoNothing(more, Start(left.rows, left.next), items, n);
    HandledSplits(items, n);
    DistinctConcat(Visits(items[..n], None), rest);
    var retry := Run(more, left.rows, left.next, items[n..]);
    if retry.Done? {
      RunInstallsMenu(more, left.rows, left.next, items[n..]);
      forall id | id in retry.state.rows ensures retry.state.rows[id].code in CodesOf(rest) {
        var c :| c in retry.state.ids && retry.state.ids[c] == id;
        var v :| v in rest && v.code == c;
        assert Installed(retry.state, v);
      }
    }
  }
}
