/** `kwargs_clean`, `create_obj`, `update_obj`: check every reference first, then write the row and its relations. */
module CrudWrites {
  import opened Optional

  type Id = nat

  datatype Value = Null | Ref(id: Id) | Refs(ids: seq<Id>) | Scalar(text: string)

  /** A field of a model: a plain column, a foreign key, or a many-to-many relation, with the table it points to. */
  datatype Field = Column | ForeignKey(target: string) | ManyToMany(target: string)

  /** `fields_map`: foreign keys are listed under their own name and, as columns, under that name plus `_id`. */
  type Schema = map<string, Field>

  /** The ids that exist in each related table. */
  type Related = map<string, set<Id>>

  datatype Error = Missing(key: string, id: Id) | Unusable(key: string) | Conflict

  datatype Cleaned = Clean(simple: map<string, Value>, relations: map<string, Option<seq<Id>>>) | Refused(error: Error)

  // ----------------------------------------------------- foreign key names

  predicate StartsId(s: string) {
    |s| >= 3 && s[0] == '_' && s[1] == 'i' && s[2] == 'd'
  }

  /** `key.split("_id")[0]` */
  function FirstPart(key: string): string {
    if key == "" || StartsId(key) then "" else [key[0]] + FirstPart(key[1..])
  }

  predicate ContainsId(s: string) {
    s != "" && (StartsId(s) || ContainsId(s[1..]))
  }

  /** The relation is found again from its column name exactly when its own name holds no `_id`. */
  lemma {:induction false} RelationNameIff(name: string)
    ensures FirstPart(name + "_id") == name <==> !ContainsId(name)
  {
    var key := name + "_id";
    if name != "" {
      assert key[1..] == name[1..] + "_id";
      assert StartsId(key) <==> StartsId(name);
      RelationNameIff(name[1..]);
      assert FirstPart(key) == name ==> !StartsId(key);
      assert name == [name[0]] + name[1..];
    } else {
      assert key == "_id";
    }
  }

  predicate IsForeignKeyColumn(schema: Schema, key: string) {
    exists name :: name in schema && schema[name].ForeignKey? && key == name + "_id"
  }

  /** What is found from the column name of every foreign key points to the same table. */
  ghost predicate Resolvable(schema: Schema) {
    forall name :: name in schema && schema[name].ForeignKey? && name + "_id" in schema ==>
      Resolves(schema, FirstPart(name + "_id"), schema[name].target)
  }

  predicate Resolves(schema: Schema, found: string, target: string) {
    found in schema && schema[found] == ForeignKey(target)
  }

  /** Foreign keys without `_id` in their own names are resolved, as themselves. */
  lemma PlainNamesResolve(schema: Schema)
    requires forall name :: name in schema && schema[name].ForeignKey? ==> !ContainsId(name)
    ensures Resolvable(schema)
  {
    forall name | name in schema && schema[name].ForeignKey? && name + "_id" in schema
      ensures Resolves(schema, FirstPart(name + "_id"), schema[name].target)
    {
      RelationNameIff(name);
    }
  }

  // -------------------------------------------------------- one key's check

  function Exists(related: Related, target: string, id: Id): bool {
    target in related && id in related[target]
  }

  function FirstMissing(related: Related, target: string, ids: seq<Id>): Option<Id> {
    if ids == [] then None
    else if !Exists(related, target, ids[0]) then Some(ids[0])
    else FirstMissing(related, target, ids[1..])
  }

  /** A foreign key given as null or 0 is not looked up. */
  predicate Falsy(v: Value) {
    v == Null || v == Ref(0) || v == Refs([]) || v == Scalar("")
  }

  function CheckForeignKey(schema: Schema, related: Related, key: string, v: Value): Option<Error> {
    if Falsy(v) then None
    else
      var name := FirstPart(key);
      if name !in schema || !schema[name].ForeignKey? then Some(Unusable(key))
      else if !v.Ref? then Some(Unusable(key))
      else if Exists(related, schema[name].target, v.id) then None
      else Some(Missing(key, v.id))
  }

  function CheckRelation(related: Related, target: string, key: string, v: Value): Option<Error> {
    match v
    case Null => None
    case Refs(ids) =>
      var lost := FirstMissing(related, target, ids);
      if lost.Some? then Some(Missing(key, lost.value)) else None
    case _ => Some(Unusable(key))
  }

  function CheckKey(schema: Schema, related: Related, key: string, v: Value): Option<Error> {
    if key !in schema then None
    else if IsForeignKeyColumn(schema, key) then CheckForeignKey(schema, related, key, v)
    else if schema[key].ManyToMany? then CheckRelation(related, schema[key].target, key, v)
    else None
  }

  predicate IsRelation(schema: Schema, key: string) {
    key in schema && !IsForeignKeyColumn(schema, key) && schema[key].ManyToMany?
  }

  predicate IsSimple(schema: Schema, key: string) {
    key in schema && !IsRelation(schema, key)
  }

  function AsList(v: Value): Option<seq<Id>> {
    if v.Refs? then Some(v.ids) else None
  }

  // ----------------------------------------------------------- kwargs_clean

  /** The first error along the keys in order. */
  function FirstError(schema: Schema, related: Related, keys: seq<string>, data: map<string, Value>): Option<Error>
    requires forall k :: k in keys ==> k in data
  {
    if keys == [] then None
    else
      var e := CheckKey(schema, related, keys[0], data[keys[0]]);
      if e.Some? then e else FirstError(schema, related, keys[1..], data)
  }

  function SimplePart(schema: Schema, data: map<string, Value>): map<string, Value> {
    map k | k in data && IsSimple(schema, k) :: data[k]
  }

  function RelationPart(schema: Schema, data: map<string, Value>): map<string, Option<seq<Id>>> {
    map k | k in data && IsRelation(schema, k) :: AsList(data[k])
  }

  function CleanedData(schema: Schema, related: Related, keys: seq<string>, data: map<string, Value>): Cleaned
    requires forall k :: k in keys ==> k in data
  {
    var e := FirstError(schema, related, keys, data);
    if e.Some? then Refused(e.value) else Clean(SimplePart(schema, data), RelationPart(schema, data))
  }

  /** `keys` is the order in which the dict `data` is iterated. */
  ghost predicate Iterates(keys: seq<string>, data: map<string, Value>) {
    && (forall k :: k in keys <==> k in data)
    && (forall i, j :: 0 <= i < j < |keys| ==> keys[i] != keys[j])
  }

  method CheckIds(related: Related, target: string, ids: seq<Id>) returns (objs: seq<Id>, lost: Option<Id>)
    ensures lost == FirstMissing(related, target, ids)
    ensures lost.None? ==> objs == ids
  {
    objs, lost := [], None;
    for i := 0 to |ids|
      invariant objs == ids[..i]
      invariant FirstMissing(related, target, ids) == FirstMissing(related, target, ids[i..])
    {
      if !Exists(related, target, ids[i]) {
        return objs, Some(ids[i]);
      }
      objs := objs + [ids[i]];
    }
  }

  /** The branch of the loop for one many-to-many key. */
  method CleanRelation(related: Related, target: string, key: string, v: Value)
    returns (objs: Option<seq<Id>>, e: Option<Error>)
    ensures e == CheckRelation(related, target, key, v)
    ensures e.None? ==> objs == AsList(v)
  {
    if v == Null {
      return None, None;
    }
    if !v.Refs? {
      return None, Some(Unusable(key));
    }
    var found, lost := CheckIds(related, target, v.ids);
    if lost.Some? {
      return None, Some(Missing(key, lost.value));
    }
    return Some(found), None;
  }

  /** The two dicts hold what the keys seen so far contribute. */
  ghost predicate Collected(schema: Schema, seen: seq<string>, data: map<string, Value>,
                            simple: map<string, Value>, relations: map<string, Option<seq<Id>>>)
  {
    && (forall k :: k in simple <==> k in seen && IsSimple(schema, k))
    && (forall k :: k in relations <==> k in seen && IsRelation(schema, k))
    && (forall k :: k in simple && k in data ==> simple[k] == data[k])
    && (forall k :: k in relations && k in data ==> relations[k] == AsList(data[k]))
  }

  lemma CollectedAll(schema: Schema, keys: seq<string>, data: map<string, Value>,
                     simple: map<string, Value>, relations: map<string, Option<seq<Id>>>)
    requires Iterates(keys, data) && Collected(schema, keys, data, simple, relations)
    ensures simple == SimplePart(schema, data) && relations == RelationPart(schema, data)
  {
    assert simple.Keys == SimplePart(schema, data).Keys;
    assert relations.Keys == RelationPart(schema, data).Keys;
  }

  lemma CollectOne(schema: Schema, seen: seq<string>, key: string, data: map<string, Value>,
                   simple: map<string, Value>, relations: map<string, Option<seq<Id>>>)
    requires Collected(schema, seen, data, simple, relations) && key in data
    ensures key !in schema ==> Collected(schema, seen + [key], data, simple, relations)
    ensures IsSimple(schema, key) ==> Collected(schema, seen + [key], data, simple[key := data[key]], relations)
    ensures IsRelation(schema, key) ==> Collected(schema, seen + [key], data, simple, relations[key := AsList(data[key])])
  {
  }

  method KwargsClean(schema: Schema, related: Related, keys: seq<string>, data: map<string, Value>) returns (r: Cleaned)
    requires Iterates(keys, data)
    ensures r == CleanedData(schema, related, keys, data)
  {
    var simple: map<string, Value> := map[];
    var relations: map<string, Option<seq<Id>>> := map[];
    for i := 0 to |keys|
      invariant FirstError(schema, related, keys, data) == FirstError(schema, related, keys[i..], data)
      invariant Collected(schema, keys[..i], data, simple, relations)
    {
      var key := keys[i];
      assert key in keys && keys[..i + 1] == keys[..i] + [key];
      assert keys[i..][0] == key && keys[i..][1..] == keys[i + 1..];
      CollectOne(schema, keys[..i], key, data, simple, relations);
      if key !in schema {
        continue;
      }
      if IsForeignKeyColumn(schema, key) {
        var e := CheckForeignKey(schema, related, key, data[key]);
        if e.Some? {
          return Refused(e.value);
        }
        simple := simple[key := data[key]];
        continue;
      }
      if schema[key].ManyToMany? {
        var objs, e := CleanRelation(related, schema[key].target, key, data[key]);
        if e.Some? {
          return Refused(e.value);
        }
        relations := relations[key := objs];
        continue;
      }
      simple := simple[key := data[key]];
    }
    assert keys[..|keys|] == keys;
    CollectedAll(schema, keys, data, simple, relations);
    r := Clean(simple, relations);
  }

  // ------------------------------------------------------------- references

  predicate Refers(related: Related, target: string, v: Value) {
    v.Ref? && Exists(related, target, v.id)
  }

  /** The rule of the tables: a foreign key is null or its object exists, and every object of a relation exists. */
  ghost predicate References(schema: Schema, related: Related, key: string, v: Value) {
    && (forall name :: name in schema && schema[name].ForeignKey? && key == name + "_id" && key in schema ==>
          v == Null || Refers(related, schema[name].target, v))
    && (IsRelation(schema, key) && v != Null ==>
          v.Refs? && forall id :: id in v.ids ==> Exists(related, schema[key].target, id))
  }

  predicate IsKeyGiven(schema: Schema, key: string) {
    key in schema && IsForeignKeyColumn(schema, key)
  }

  /** A foreign key that refers to nothing, but is not looked up because its value is falsy. */
  ghost predicate Skipped(schema: Schema, related: Related, key: string, v: Value) {
    IsKeyGiven(schema, key) && v in {Ref(0), Refs([]), Scalar("")} && !References(schema, related, key, v)
  }

  /** A value written for a foreign key is neither null nor the id of an object: what FOREIGN KEY forbids. */
  predicate Dangles(schema: Schema, related: Related, simple: map<string, Value>) {
    exists name :: name in schema && schema[name].ForeignKey? && name + "_id" in simple
      && simple[name + "_id"] != Null && !Refers(related, schema[name].target, simple[name + "_id"])
  }

  // --------------------------------------------------------------- writing

  type Row = map<string, Value>
  type Links = map<(string, Id), set<Id>>

  function Linked(links: Links, relation: string, id: Id): set<Id> {
    if (relation, id) in links then links[(relation, id)] else {}
  }

  datatype Written = Done(id: Id) | Failed(error: Error)

  /** The rows after `queryset.filter(pk=id).update(**simple)`. */
  function UpdatedRows(rows: map<Id, Row>, visible: set<Id>, id: Id, simple: map<string, Value>): map<Id, Row> {
    if id in rows && id in visible then rows[id := rows[id] + simple] else rows
  }

  function SetOf(ids: seq<Id>): set<Id> {
    set x | x in ids
  }

  /** What a list given for a relation leaves linked. */
  ghost predicate Replaced(before: Links, after: Links, id: Id, relations: map<string, Option<seq<Id>>>) {
    forall k, i: Id :: Linked(after, k, i) ==
      if i == id && k in relations && relations[k].Some? then SetOf(relations[k].value)
      else Linked(before, k, i)
  }

  /** The same, with the relations in `todo` still to come. */
  ghost predicate ReplacedBut(before: Links, after: Links, id: Id, relations: map<string, Option<seq<Id>>>, todo: set<string>) {
    forall k, i: Id :: Linked(after, k, i) ==
      if i == id && k in relations && k !in todo && relations[k].Some? then SetOf(relations[k].value)
      else Linked(before, k, i)
  }

  lemma OneMoreReplaced(before: Links, mid: Links, after: Links, id: Id,
                        relations: map<string, Option<seq<Id>>>, todo: set<string>, k: string)
    requires ReplacedBut(before, mid, id, relations, todo) && k in todo && k in relations
    requires forall other, i: Id :: (other, i) != (k, id) ==> Linked(after, other, i) == Linked(mid, other, i)
    requires Linked(after, k, id) == if relations[k].Some? then SetOf(relations[k].value) else Linked(mid, k, id)
    ensures ReplacedBut(before, after, id, relations, todo - {k})
  {
  }

  /** Every reference in the data exists. */
  ghost predicate AllExist(schema: Schema, related: Related, data: map<string, Value>) {
    forall k :: k in data ==> References(schema, related, k, data[k])
  }

  /** The given columns have their given values, and every other column is as before. */
  ghost predicate ColumnsReplaced(schema: Schema, data: map<string, Value>, before: Row, after: Row) {
    && (forall k :: k in data && IsSimple(schema, k) ==> k in after && after[k] == data[k])
    && (forall k :: k !in data || !IsSimple(schema, k) ==> (k in after <==> k in before))
    && (forall k :: (k !in data || !IsSimple(schema, k)) && k in before && k in after ==> after[k] == before[k])
  }

  /** A relation given a list holds exactly its objects; a relation given null, or not given, and every other row is linked as before. */
  ghost predicate RelationsReplaced(schema: Schema, data: map<string, Value>, before: Links, after: Links, id: Id) {
    && (forall k :: k in data && IsRelation(schema, k) && data[k].Refs? ==> Linked(after, k, id) == SetOf(data[k].ids))
    && (forall k :: !IsRelation(schema, k) || k !in data || data[k] == Null ==> Linked(after, k, id) == Linked(before, k, id))
    && (forall k, i: Id :: i != id ==> Linked(after, k, i) == Linked(before, k, i))
  }

  class Database {
    var rows: map<Id, Row>
    var links: Links
    var next: Id
    const schema: Schema
    const related: Related
    /** Whether a table content breaks a constraint of the table itself, such as a unique key. */
    const conflicts: map<Id, Row> -> bool

    constructor (schema: Schema, related: Related, conflicts: map<Id, Row> -> bool)
      ensures this.schema == schema && this.related == related && this.conflicts == conflicts
      ensures rows == map[] && links == map[] && next == 1
    {
      this.schema, this.related, this.conflicts := schema, related, conflicts;
      rows, links, next := map[], map[], 1;
    }

    /** Whether the database refuses to write `simple` into the row of `id`, leaving `after`. */
    predicate Rejects(written: bool, simple: map<string, Value>, after: map<Id, Row>) {
      conflicts(after) || (written && Dangles(schema, related, simple))
    }

    method Clear(relation: string, id: Id)
      modifies this`links
      ensures links == old(links)[(relation, id) := {}]
    {
      links := links[(relation, id) := {}];
    }

    method Add(relation: string, id: Id, ids: seq<Id>)
      modifies this`links
      ensures links == old(links)[(relation, id) := Linked(old(links), relation, id) + SetOf(ids)]
    {
      links := links[(relation, id) := Linked(links, relation, id) + SetOf(ids)];
    }

    /** The relation loop of `update_obj`. */
    method ReplaceRelations(id: Id, relations: map<string, Option<seq<Id>>>)
      modifies this`links
      ensures Replaced(old(links), links, id, relations)
    {
      var todo := relations.Keys;
      while todo != {}
        invariant todo <= relations.Keys
        invariant ReplacedBut(old(links), links, id, relations, todo)
        decreases todo
      {
        var k :| k in todo;
        ghost var before := links;
        if relations[k].Some? {
          Clear(k, id);
          assert SetOf([]) == {} && {} + SetOf(relations[k].value) == SetOf(relations[k].value);
          if relations[k].value != [] {
            Add(k, id, relations[k].value);
          }
        }
        OneMoreReplaced(old(links), before, links, id, relations, todo, k);
        todo := todo - {k};
      }
    }

    /**
     `visible` is the queryset the update goes through. A failed update writes nothing, and
     with all references there and no other constraint broken an update does not fail.
     */
    method UpdateObj(id: Id, visible: set<Id>, keys: seq<string>, data: map<string, Value>) returns (r: Written)
      requires Iterates(keys, data)
      modifies this`rows, this`links
      ensures var c := CleanedData(schema, related, keys, data);
              var after := if c.Clean? then UpdatedRows(old(rows), visible, id, c.simple) else old(rows);
              if data == map[] then r == Done(id) && rows == old(rows) && links == old(links)
              else if c.Refused? then r == Failed(c.error) && rows == old(rows) && links == old(links)
              else if c.simple != map[] && Rejects(id in old(rows) && id in visible, c.simple, after) then
                r == Failed(Conflict) && rows == old(rows) && links == old(links)
              else r == Done(id) && rows == after && Replaced(old(links), links, id, c.relations)
      ensures rows.Keys == old(rows).Keys && forall x :: x in rows && x != id ==> rows[x] == old(rows)[x]
      ensures r.Done? && id in rows && id in visible ==> ColumnsReplaced(schema, data, old(rows)[id], rows[id]) && AllExist(schema, related, data)
      ensures r.Done? ==> RelationsReplaced(schema, data, old(links), links, id)
      ensures r.Failed? || id !in visible ==> rows == old(rows)
      ensures r.Failed? ==> links == old(links)
      ensures Resolvable(schema) && AllExist(schema, related, data) && (forall t :: !conflicts(t)) ==> r.Done?
    {
      if data == map[] {
        return Done(id);
      }
      var c := KwargsClean(schema, related, keys, data);
      if Resolvable(schema) && AllExist(schema, related, data) {
        GoodReferencesPass(schema, related, keys, data);
      }
      if c.Refused? {
        return Failed(c.error);
      }
      r := WriteClean(id, visible, c.simple, c.relations);
      if r.Done? {
        UpdateKeepsPromises(schema, related, keys, data, old(rows), visible, id, old(links), links);
      }
    }

    /** The writes of `update_obj`. */
    method WriteClean(id: Id, visible: set<Id>, simple: map<string, Value>, relations: map<string, Option<seq<Id>>>) returns (r: Written)
      modifies this`rows, this`links
      ensures var after := UpdatedRows(old(rows), visible, id, simple);
              if simple != map[] && Rejects(id in old(rows) && id in visible, simple, after) then
                r == Failed(Conflict) && rows == old(rows) && links == old(links)
              else r == Done(id) && rows == after && Replaced(old(links), links, id, relations)
    {
      if simple != map[] {
        var after := UpdatedRows(rows, visible, id, simple);
        if Rejects(id in rows && id in visible, simple, after) {
          return Failed(Conflict);
        }
        rows := after;
      } else {
        NoColumnsNoChange(rows, visible, id);
      }
      ReplaceRelations(id, relations);
      return Done(id);
    }

    /** The relation loop of `create_obj`: only non-empty lists are added. */
    method AddRelations(id: Id, relations: map<string, Option<seq<Id>>>)
      requires forall k :: Linked(links, k, id) == {}
      modifies this`links
      ensures Replaced(old(links), links, id, relations)
    {
      var todo := relations.Keys;
      while todo != {}
        invariant todo <= relations.Keys
        invariant ReplacedBut(old(links), links, id, relations, todo)
        decreases todo
      {
        var k :| k in todo;
        ghost var before := links;
        assert Linked(links, k, id) == {} && SetOf([]) == {};
        if relations[k].Some? && relations[k].value != [] {
          assert {} + SetOf(relations[k].value) == SetOf(relations[k].value);
          Add(k, id, relations[k].value);
        }
        OneMoreReplaced(old(links), before, links, id, relations, todo, k);
        todo := todo - {k};
      }
    }

    /** A failed creation writes nothing; after any other all references in the data exist. */
    method CreateObj(keys: seq<string>, data: map<string, Value>) returns (r: Written)
      requires Iterates(keys, data)
      requires next !in rows && forall k :: Linked(links, k, next) == {}
      modifies this`rows, this`links, this`next
      ensures var c := CleanedData(schema, related, keys, data);
              if c.Refused? then r == Failed(c.error) && rows == old(rows) && links == old(links) && next == old(next)
              else if Rejects(true, c.simple, old(rows)[old(next) := c.simple]) then
                r == Failed(Conflict) && rows == old(rows) && links == old(links) && next == old(next)
              else
                r == Done(old(next)) && rows == old(rows)[old(next) := c.simple] && next == old(next) + 1
                && Replaced(old(links), links, old(next), c.relations)
      ensures r.Done? ==> r.id in rows && ColumnsReplaced(schema, data, map[], rows[r.id]) && AllExist(schema, related, data)
      ensures r.Done? ==> RelationsReplaced(schema, data, old(links), links, r.id)
      ensures forall x :: x in old(rows) ==> x in rows && rows[x] == old(rows)[x]
      ensures r.Failed? ==> rows == old(rows) && links == old(links)
      ensures Resolvable(schema) && AllExist(schema, related, data) && (forall t :: !conflicts(t)) ==> r.Done?
    {
      if Resolvable(schema) && AllExist(schema, related, data) {
        GoodReferencesPass(schema, related, keys, data);
      }
      var c := KwargsClean(schema, related, keys, data);
      if c.Refused? {
        return Failed(c.error);
      }
      var id := next;
      if Rejects(true, c.simple, rows[id := c.simple]) {
        return Failed(Conflict);
      }
      rows := rows[id := c.simple];
      next := next + 1;
      AddRelations(id, c.relations);
      CreateKeepsPromises(schema, related, keys, data, id, old(links), links);
      return Done(id);
    }
  }

  lemma NoColumnsNoChange(rows: map<Id, Row>, visible: set<Id>, id: Id)
    ensures UpdatedRows(rows, visible, id, map[]) == rows
  {
    if id in rows { assert rows[id] + map[] == rows[id]; }
  }

  // ------------------------------------------------------------- properties

  lemma {:induction false} FirstMissingMeaning(related: Related, target: string, ids: seq<Id>)
    ensures FirstMissing(related, target, ids).None? <==> forall id :: id in ids ==> Exists(related, target, id)
  {
    if ids != [] { FirstMissingMeaning(related, target, ids[1..]); }
  }

  lemma SameColumnSameName(a: string, b: string)
    requires a + "_id" == b + "_id"
    ensures a == b
  {
    assert (a + "_id")[..|a|] == a && (b + "_id")[..|b|] == b;
  }

  lemma CheckKeyMeaning(schema: Schema, related: Related, key: string, v: Value)
    requires Resolvable(schema)
    ensures CheckKey(schema, related, key, v).None? <==> References(schema, related, key, v) || Skipped(schema, related, key, v)
  {
    if IsKeyGiven(schema, key) {
      var name :| name in schema && schema[name].ForeignKey? && key == name + "_id";
      assert Resolves(schema, FirstPart(key), schema[name].target);
      forall other | other in schema && schema[other].ForeignKey? && key == other + "_id" ensures other == name {
        SameColumnSameName(name, other);
      }
    } else if IsRelation(schema, key) && v.Refs? {
      FirstMissingMeaning(related, schema[key].target, v.ids);
    }
  }

  /**
   The data is accepted exactly when every reference in it, by any key, exists or is a
   skipped foreign key; so the references all exist exactly when the data is accepted
   and none is skipped.
   */
  lemma {:induction false} AcceptedIffReferencesExist(schema: Schema, related: Related, keys: seq<string>, data: map<string, Value>)
    requires Resolvable(schema) && forall k :: k in keys ==> k in data
    ensures CleanedData(schema, related, keys, data).Clean? <==>
              forall k :: k in keys ==> References(schema, related, k, data[k]) || Skipped(schema, related, k, data[k])
    ensures (forall k :: k in keys ==> References(schema, related, k, data[k])) <==>
              CleanedData(schema, related, keys, data).Clean? && forall k :: k in keys ==> !Skipped(schema, related, k, data[k])
  {
    if keys != [] {
      CheckKeyMeaning(schema, related, keys[0], data[keys[0]]);
      AcceptedIffReferencesExist(schema, related, keys[1..], data);
      assert forall k :: k in keys <==> k == keys[0] || k in keys[1..];
    }
  }

  /** A foreign key of 0, an empty list or an empty text passes the check even when its table is empty. */
  lemma FalsyKeyIsAccepted(schema: Schema, name: string, v: Value)
    requires name in schema && schema[name].ForeignKey? && name + "_id" in schema
    requires v in {Ref(0), Refs([]), Scalar("")}
    ensures var key, nothing := name + "_id", map[];
            && CleanedData(schema, nothing, [key], map[key := v]) == Clean(map[key := v], map[])
            && !References(schema, nothing, key, v)
  {
    var key, nothing: Related := name + "_id", map[];
    var data := map[key := v];
    assert CheckKey(schema, nothing, key, data[key]).None?;
    assert IsForeignKeyColumn(schema, key) && IsSimple(schema, key);
    assert [key][0] == key && [key][1..] == [] && FirstError(schema, nothing, [key], data).None?;
    assert SimplePart(schema, data) == data;
    assert RelationPart(schema, data) == map[];
  }

  /** Whatever exists, the check of a value agrees with the rule of the tables: exactly unless it is a falsy foreign key that is not null. */
  lemma CheckAgreesIffNotFalsyKey(schema: Schema, key: string, v: Value)
    requires Resolvable(schema)
    ensures (forall related :: CheckKey(schema, related, key, v).None? <==> References(schema, related, key, v)) <==>
            !(IsKeyGiven(schema, key) && v in {Ref(0), Refs([]), Scalar("")})
  {
    forall related ensures CheckKey(schema, related, key, v).None? <==>
                             References(schema, related, key, v) || Skipped(schema, related, key, v) {
      CheckKeyMeaning(schema, related, key, v);
    }
    if IsKeyGiven(schema, key) && v in {Ref(0), Refs([]), Scalar("")} {
      var nothing: Related := map[];
      var name :| name in schema && schema[name].ForeignKey? && key == name + "_id";
      assert !References(schema, nothing, key, v);
      assert CheckKey(schema, nothing, key, v).None?;
    }
  }

  /** With the database's own check behind it, nothing written refers to a missing object. */
  lemma WrittenReferencesExist(schema: Schema, related: Related, keys: seq<string>, data: map<string, Value>)
    requires Iterates(keys, data) && CleanedData(schema, related, keys, data).Clean?
    requires !Dangles(schema, related, SimplePart(schema, data))
    ensures AllExist(schema, related, data)
  {
    forall k | k in data ensures References(schema, related, k, data[k]) {
      NoErrorAt(schema, related, keys, data, k);
      if IsRelation(schema, k) && data[k].Refs? {
        FirstMissingMeaning(related, schema[k].target, data[k].ids);
      }
      forall name | name in schema && schema[name].ForeignKey? && k == name + "_id" && k in schema
        ensures data[k] == Null || Refers(related, schema[name].target, data[k])
      {
        assert SimplePart(schema, data)[k] == data[k];
      }
    }
  }

  /** On any other schema some data is refused although all it refers to exists. */
  lemma UnresolvableSchemaRefusesGoodData(schema: Schema) returns (related: Related, key: string, v: Value)
    requires !Resolvable(schema)
    ensures References(schema, related, key, v)
    ensures CleanedData(schema, related, [key], map[key := v]).Refused?
  {
    var name :| name in schema && schema[name].ForeignKey? && name + "_id" in schema
                && !Resolves(schema, FirstPart(name + "_id"), schema[name].target);
    var target := schema[name].target;
    key, v, related := name + "_id", Ref(1), map[target := {1}];
    forall other | other in schema && schema[other].ForeignKey? && key == other + "_id" ensures other == name {
      SameColumnSameName(name, other);
    }
    assert CheckKey(schema, related, key, v).Some?;
    assert [key][0] == key;
  }

  /** The known keys are split in two; nothing else gets through and no value changes. */
  lemma SplitCoversKnownKeys(schema: Schema, related: Related, keys: seq<string>, data: map<string, Value>)
    requires Iterates(keys, data) && CleanedData(schema, related, keys, data).Clean?
    ensures var c := CleanedData(schema, related, keys, data);
            && c.simple.Keys !! c.relations.Keys
            && c.simple.Keys + c.relations.Keys == data.Keys * schema.Keys
            && (forall k :: k in c.relations <==>
                  k in data && k in schema && schema[k].ManyToMany?
                  && forall name :: name in schema && schema[name].ForeignKey? ==> k != name + "_id")
            && (forall k :: k in c.simple ==> c.simple[k] == data[k])
            && (forall k :: k in c.relations ==> (c.relations[k] == None <==> data[k] == Null))
            && (forall k :: k in c.relations && data[k] != Null ==> data[k] == Refs(c.relations[k].value))
  {
    forall k | k in data && IsRelation(schema, k) ensures data[k] == Null || data[k].Refs? {
      NoErrorAt(schema, related, keys, data, k);
    }
  }

  /** A refusal names the first key at fault: a value that cannot be used, or an id given for it that does not exist. */
  lemma {:induction false} RefusalNamesFirstFault(schema: Schema, related: Related, keys: seq<string>, data: map<string, Value>) returns (i: nat)
    requires (forall k :: k in keys ==> k in data) && CleanedData(schema, related, keys, data).Refused?
    ensures i < |keys| && forall j :: 0 <= j < i ==> CheckKey(schema, related, keys[j], data[keys[j]]).None?
    ensures match CleanedData(schema, related, keys, data).error
            case Missing(k, x) =>
              && k == keys[i] && k in schema
              && (|| (IsKeyGiven(schema, k) && data[k] == Ref(x) && IsAbsent(schema, related, FirstPart(k), x))
                  || (IsRelation(schema, k) && data[k].Refs? && x in data[k].ids && IsAbsent(schema, related, k, x)))
            case Unusable(k) => k == keys[i] && k in schema && data[k] != Null
            case Conflict => false
  {
    if CheckKey(schema, related, keys[0], data[keys[0]]).Some? {
      i := 0;
      if IsRelation(schema, keys[0]) && data[keys[0]].Refs? {
        FirstMissingIsAbsent(related, schema[keys[0]].target, data[keys[0]].ids);
      }
    } else {
      var j := RefusalNamesFirstFault(schema, related, keys[1..], data);
      i := j + 1;
    }
  }

  /** The table a field points to has no such id. */
  predicate IsAbsent(schema: Schema, related: Related, field: string, x: Id) {
    field in schema && !schema[field].Column? && (schema[field].target in related ==> x !in related[schema[field].target])
  }

  lemma {:induction false} FirstMissingIsAbsent(related: Related, target: string, ids: seq<Id>)
    ensures var lost := FirstMissing(related, target, ids);
            lost.Some? ==> lost.value in ids && (target in related ==> lost.value !in related[target])
  {
    if ids != [] { FirstMissingIsAbsent(related, target, ids[1..]); }
  }

  /** Data all of whose references exist passes both the check and the database's constraint. */
  lemma GoodReferencesPass(schema: Schema, related: Related, keys: seq<string>, data: map<string, Value>)
    requires Resolvable(schema) && Iterates(keys, data) && AllExist(schema, related, data)
    ensures CleanedData(schema, related, keys, data).Clean? && !Dangles(schema, related, SimplePart(schema, data))
  {
    AcceptedIffReferencesExist(schema, related, keys, data);
  }

  /** What an update leaves of the table. */
  lemma UpdateReplacesGivenColumns(schema: Schema, data: map<string, Value>, rows: map<Id, Row>, visible: set<Id>, id: Id)
    ensures var after := UpdatedRows(rows, visible, id, SimplePart(schema, data));
            && after.Keys == rows.Keys && (forall x :: x in rows && x != id ==> after[x] == rows[x])
            && (id in rows && id in visible ==> ColumnsReplaced(schema, data, rows[id], after[id]))
            && (!(id in rows && id in visible) ==> after == rows)
  {
  }

  lemma UpdateKeepsPromises(schema: Schema, related: Related, keys: seq<string>, data: map<string, Value>,
                            rows: map<Id, Row>, visible: set<Id>, id: Id, before: Links, links: Links)
    requires Iterates(keys, data) && CleanedData(schema, related, keys, data).Clean?
    requires id in rows && id in visible ==> !Dangles(schema, related, SimplePart(schema, data))
    requires Replaced(before, links, id, RelationPart(schema, data))
    ensures var after := UpdatedRows(rows, visible, id, SimplePart(schema, data));
            && after.Keys == rows.Keys && (forall x :: x in rows && x != id ==> after[x] == rows[x])
            && (id in rows && id in visible ==> ColumnsReplaced(schema, data, rows[id], after[id]) && AllExist(schema, related, data))
            && (!(id in rows && id in visible) ==> after == rows)
            && RelationsReplaced(schema, data, before, links, id)
  {
    UpdateReplacesGivenColumns(schema, data, rows, visible, id);
    RelationsEndAsGiven(schema, related, keys, data, before, links, id);
    if id in rows && id in visible {
      WrittenReferencesExist(schema, related, keys, data);
    }
  }

  lemma CreateKeepsPromises(schema: Schema, related: Related, keys: seq<string>, data: map<string, Value>,
                            id: Id, before: Links, links: Links)
    requires Iterates(keys, data) && CleanedData(schema, related, keys, data).Clean?
    requires !Dangles(schema, related, SimplePart(schema, data)) && Replaced(before, links, id, RelationPart(schema, data))
    ensures ColumnsReplaced(schema, data, map[], SimplePart(schema, data)) && AllExist(schema, related, data)
    ensures RelationsReplaced(schema, data, before, links, id)
  {
    RelationsEndAsGiven(schema, related, keys, data, before, links, id);
    WrittenReferencesExist(schema, related, keys, data);
  }

  lemma RelationsEndAsGiven(schema: Schema, related: Related, keys: seq<string>, data: map<string, Value>,
                            before: Links, after: Links, id: Id)
    requires Iterates(keys, data) && CleanedData(schema, related, keys, data).Clean?
    requires Replaced(before, after, id, CleanedData(schema, related, keys, data).relations)
    ensures RelationsReplaced(schema, data, before, after, id)
  {
  }

  lemma {:induction false} NoErrorAt(schema: Schema, related: Related, keys: seq<string>, data: map<string, Value>, k: string)
    requires (forall x :: x in keys ==> x in data) && k in keys
    requires FirstError(schema, related, keys, data).None?
    ensures CheckKey(schema, related, k, data[k]).None?
  {
    if k != keys[0] { NoErrorAt(schema, related, keys[1..], data, k); }
  }

  /** Unknown keys have no effect. */
  lemma {:induction false} UnknownKeysAreIgnored(schema: Schema, related: Related, keys: seq<string>, data: map<string, Value>)
    requires forall k :: k in keys ==> k in data
    ensures var known := map k | k in data && k in schema :: data[k];
            && SimplePart(schema, known) == SimplePart(schema, data)
            && RelationPart(schema, known) == RelationPart(schema, data)
            && (forall k :: k in KnownKeys(schema, keys) ==> k in known)
            && FirstError(schema, related, KnownKeys(schema, keys), known) == FirstError(schema, related, keys, data)
  {
    if keys != [] {
      UnknownKeysAreIgnored(schema, related, keys[1..], data);
      var rest := KnownKeys(schema, keys[1..]);
      var known := map k | k in data && k in schema :: data[k];
      if keys[0] in schema {
        assert KnownKeys(schema, keys) == [keys[0]] + rest && ([keys[0]] + rest)[1..] == rest;
        assert known[keys[0]] == data[keys[0]];
      } else {
        assert KnownKeys(schema, keys) == rest;
      }
    }
  }

  function KnownKeys(schema: Schema, keys: seq<string>): seq<string> {
    if keys == [] then []
    else (if keys[0] in schema then [keys[0]] else []) + KnownKeys(schema, keys[1..])
  }
}
