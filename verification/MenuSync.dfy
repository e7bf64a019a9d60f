/**
 `create_menu_and_perm`: a recursive upsert of a menu forest into the resource
 table, followed by the deletion of every other row, with cascade.
 */
module MenuSync {
  import opened Optional
  import opened Scenes

  type Id = nat
  type Code = string

  /** The column defaults an item carries besides its code, children and permissions. */
  datatype Columns = Columns(order: Option<int>, enabled: Option<bool>, assignable: Option<bool>)

  datatype MenuItem = MenuItem(code: Option<string>, children: seq<MenuItem>, permissions: seq<Code>, columns: Columns)

  datatype ResourceRow = ResourceRow(
    code: string, scene: Scene, parent: Option<Id>, order: int, enabled: bool, assignable: bool, permissions: set<Code>)

  type Rows = map<Id, ResourceRow>

  datatype Error = MissingPermission(code: Code) | MultipleRows(code: string)

  // ------------------------------------------------------------ the upsert

  /** The rows that `update_or_create(scene=web, code=code, parent_id=parent)` looks up. */
  function Matching(rows: Rows, code: string, parent: Option<Id>): set<Id> {
    set id | id in rows && rows[id].scene == Web && rows[id].code == code && rows[id].parent == parent
  }

  function Overlay<T>(given: Option<T>, otherwise: T): T {
    if given.Some? then given.value else otherwise
  }

  function UpdatedRow(row: ResourceRow, c: Columns): ResourceRow {
    row.(order := Overlay(c.order, row.order), enabled := Overlay(c.enabled, row.enabled),
         assignable := Overlay(c.assignable, row.assignable))
  }

  function NewRow(code: string, parent: Option<Id>, c: Columns): ResourceRow {
    ResourceRow(code, Web, parent, Overlay(c.order, 1), Overlay(c.enabled, true), Overlay(c.assignable, true), {})
  }

  lemma SingletonIsUnique<T>(s: set<T>, x: T, y: T)
    requires |s| == 1 && x in s && y in s
    ensures x == y
  {
    assert |s - {x}| == 0;
  }

  function The(s: set<Id>): (x: Id)
    requires |s| == 1
    ensures s == {x}
  {
    assert s != {};
    assert forall x, y | x in s && y in s :: x == y by {
      forall x, y | x in s && y in s ensures x == y { SingletonIsUnique(s, x, y); }
    }
    var x :| x in s;
    assert s == {x};
    x
  }

  /** `ids` is `parent_id_dict`; `next` is the auto-increment counter. */
  datatype Progress = Progress(rows: Rows, next: Id, ids: map<string, Id>)

  datatype Outcome = Done(state: Progress) | Stopped(state: Progress, error: Error)

  /** Upsert of one item, its entry in `parent_id_dict`, and the rows' id. */
  function Upsert(s: Progress, code: string, parent: Option<Id>, c: Columns): (Progress, Id)
    requires |Matching(s.rows, code, parent)| <= 1
  {
    var found := Matching(s.rows, code, parent);
    if found == {} then
      (Progress(s.rows[s.next := NewRow(code, parent, c)], s.next + 1, s.ids[code := s.next]), s.next)
    else
      assert |found| == 1;
      var id := The(found);
      assert id in found;
      (s.(rows := s.rows[id := UpdatedRow(s.rows[id], c)], ids := s.ids[code := id]), id)
  }

  function Missing(granted: set<Code>, wanted: seq<Code>): Option<Code> {
    if wanted == [] then None
    else if wanted[0] !in granted then Some(wanted[0])
    else Missing(granted, wanted[1..])
  }

  function AddPermissions(rows: Rows, id: Id, granted: set<Code>, wanted: seq<Code>): Rows
    requires id in rows
  {
    var perms := set p | p in granted && p in wanted;
    rows[id := rows[id].(permissions := rows[id].permissions + perms)]
  }

  predicate Falsy(code: Option<string>) {
    code.None? || code.value == ""
  }

  function SyncItem(granted: set<Code>, s: Progress, item: MenuItem, parent: Option<Id>): Outcome
    decreases item, 0
  {
    if Falsy(item.code) then Done(s)
    else
      var code := item.code.value;
      if |Matching(s.rows, code, parent)| > 1 then Stopped(s, MultipleRows(code))
      else
        var (s1, id) := Upsert(s, code, parent, item.columns);
        match Missing(granted, item.permissions)
        case Some(p) => Stopped(s1, MissingPermission(p))
        case None =>
          var s2 := s1.(rows := AddPermissions(s1.rows, id, granted, item.permissions));
          SyncItems(granted, s2, item.children, Some(id))
  }

  function SyncItems(granted: set<Code>, s: Progress, items: seq<MenuItem>, parent: Option<Id>): Outcome
    decreases items, 1
  {
    if items == [] then Done(s)
    else
      var first := SyncItem(granted, s, items[0], parent);
      if first.Stopped? then first else SyncItems(granted, first.state, items[1..], parent)
  }

  // ----------------------------------------------------------- the clean-up

  /** `ON DELETE CASCADE`: the rows left once `gone` and everything that hangs off it is deleted. */
  function Cascade(rows: Rows, gone: set<Id>): Rows
    decreases rows.Keys - gone
  {
    var hit := set id | id in rows && id !in gone && rows[id].parent.Some? && rows[id].parent.value in gone;
    if hit == {} then rows - gone
    else
      assert rows.Keys - (gone + hit) < rows.Keys - gone by {
        var id :| id in hit;
        assert id in rows.Keys - gone;
      }
      Cascade(rows, gone + hit)
  }

  function DeleteExcept(rows: Rows, kept: set<Id>): Rows {
    Cascade(rows, rows.Keys - kept)
  }

  /** One whole run over a table, from an empty `parent_id_dict`. */
  function Run(granted: set<Code>, rows: Rows, next: Id, items: seq<MenuItem>): Outcome {
    var synced := SyncItems(granted, Progress(rows, next, map[]), items, None);
    if synced.Stopped? then synced
    else Done(synced.state.(rows := DeleteExcept(synced.state.rows, synced.state.ids.Values)))
  }

  // --------------------------------------------------------------- methods

  /** What `pop` leaves of a menu dict once it has been processed. */
  function Consumed(item: MenuItem): MenuItem {
    if Falsy(item.code) then item.(code := None) else MenuItem(None, [], [], item.columns)
  }

  /** How many of `items` a run over them starts on: all of them, or those up to the one it stops at. */
  function Handled(granted: set<Code>, s: Progress, items: seq<MenuItem>): (n: nat)
    ensures n <= |items|
    decreases items
  {
    if items == [] then 0
    else
      var first := SyncItem(granted, s, items[0], None);
      if first.Stopped? then 1 else 1 + Handled(granted, first.state, items[1..])
  }

  /** The menu dicts after the first `n` have been popped from. */
  function Popped(items: seq<MenuItem>, n: nat): (r: seq<MenuItem>)
    requires n <= |items|
    ensures |r| == |items| && forall k :: 0 <= k < |items| ==> r[k] == if k < n then Consumed(items[k]) else items[k]
  {
    seq(n, k requires 0 <= k < n => Consumed(items[k])) + items[n..]
  }

  lemma PopNext(items: seq<MenuItem>, i: nat)
    requires i < |items|
    ensures Popped(items, i)[i := Consumed(items[i])] == Popped(items, i + 1)
  {
  }

  /** The resource table, the permission codes, and the module-level menu list the script consumes. */
  class MenuScript {
    var rows: Rows
    var next: Id
    var ids: map<string, Id>
    var menu: seq<MenuItem>
    const granted: set<Code>

    constructor (rows: Rows, next: Id, granted: set<Code>, menu: seq<MenuItem>)
      ensures this.rows == rows && this.next == next && this.granted == granted && this.menu == menu && ids == map[]
    {
      this.rows, this.next, this.ids, this.granted, this.menu := rows, next, map[], granted, menu;
    }

    function State(): Progress
      reads this
    {
      Progress(rows, next, ids)
    }

    /** The outcome a call reports, with the state it leaves. */
    function Report(error: Option<Error>): Outcome
      reads this
    {
      if error.None? then Done(State()) else Stopped(State(), error.value)
    }

    method CreateSingleMenuAndPerm(item: MenuItem, parent: Option<Id>) returns (error: Option<Error>)
      modifies this`rows, this`next, this`ids
      ensures Report(error) == SyncItem(granted, old(State()), item, parent)
      decreases item, 0
    {
      if Falsy(item.code) {
        return None;
      }
      var code := item.code.value;
      var found := Matching(rows, code, parent);
      if |found| > 1 {
        return Some(MultipleRows(code));
      }
      var id;
      if found == {} {
        id := next;
        rows := rows[id := NewRow(code, parent, item.columns)];
        next := next + 1;
      } else {
        assert |found| == 1;
        id := The(found);
        assert id in found;
        rows := rows[id := UpdatedRow(rows[id], item.columns)];
      }
      ids := ids[code := id];
      var lost := FirstMissing(item.permissions);
      if lost.Some? {
        return Some(MissingPermission(lost.value));
      }
      rows := AddPermissions(rows, id, granted, item.permissions);
      error := CreateMenus(item.children, Some(id));
    }

    method FirstMissing(wanted: seq<Code>) returns (lost: Option<Code>)
      ensures lost == Missing(granted, wanted)
    {
      for i := 0 to |wanted|
        invariant Missing(granted, wanted) == Missing(granted, wanted[i..])
      {
        if wanted[i] !in granted {
          return Some(wanted[i]);
        }
      }
      return None;
    }

    method CreateMenus(items: seq<MenuItem>, parent: Option<Id>) returns (error: Option<Error>)
      modifies this`rows, this`next, this`ids
      ensures Report(error) == SyncItems(granted, old(State()), items, parent)
      decreases items, 1
    {
      for i := 0 to |items|
        invariant SyncItems(granted, old(State()), items, parent) == SyncItems(granted, State(), items[i..], parent)
      {
        assert items[i..][0] == items[i] && items[i..][1..] == items[i + 1..];
        var e := CreateSingleMenuAndPerm(items[i], parent);
        if e.Some? {
          return e;
        }
      }
      return None;
    }

    /** `create_menu_and_perm`: every top-level dict the run starts on is left without code, children and permissions, even if the run stops there. */
    method CreateMenuAndPerm() returns (error: Option<Error>)
      modifies this
      ensures Report(error) == Run(granted, old(rows), old(next), old(menu))
      ensures menu == Popped(old(menu), Handled(granted, Progress(old(rows), old(next), map[]), old(menu)))
      ensures error.None? ==> menu == Popped(old(menu), |old(menu)|)
    {
      ids := map[];
      var items := menu;
      ghost var start := Progress(rows, next, map[]);
      for i := 0 to |items|
        invariant SyncItems(granted, start, items, None) == SyncItems(granted, State(), items[i..], None)
        invariant Handled(granted, start, items) == i + Handled(granted, State(), items[i..])
        invariant menu == Popped(items, i)
      {
        assert items[i..][0] == items[i] && items[i..][1..] == items[i + 1..];
        var e := CreateSingleMenuAndPerm(items[i], None);
        PopNext(items, i);
        menu := menu[i := Consumed(items[i])];
        if e.Some? {
          return e;
        }
      }
      rows := DeleteExcept(rows, ids.Values);
      return None;
    }
  }
}
