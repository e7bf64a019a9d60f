/**
 The part of a Redis server the user centre relies on: keys with an optional
 expiry, strings, and sets. The functions give the meaning of one command at one
 instant; class `Redis` is the server itself, updated in place.
 */
module RedisStore {
  import opened Optional
  import opened NumberText
  import opened Scenes

  type AccountId = nat
  type Token = string

  // ---------------------------------------------------------------- keys

  datatype Key =
    | TokenKey(token: Token)
    | AccountTokensKey(account: AccountId, scene: Scene)
    | PermissionsKey(account: AccountId)

  /** The key as the server sees it. */
  function KeyText(key: Key): string {
    match key
    case TokenKey(token) => TOKEN_PREFIX + token
    case AccountTokensKey(account, scene) => ACCOUNT_PREFIX + IdentifierText(account, scene)
    case PermissionsKey(account) => APIS_PREFIX + Decimal(account)
  }

  /** If two texts split at a first ':' the same way, both halves agree. */
  lemma {:induction false} ColonSplitIsUnique(a: string, b: string, c: string, d: string)
    requires a + ":" + b == c + ":" + d
    requires ':' !in a && ':' !in c
    ensures a == c && b == d
  {
    var whole := a + ":" + b;
    assert forall k :: 0 <= k < |a| ==> whole[k] == a[k] != ':';
    assert forall k :: 0 <= k < |c| ==> whole[k] == c[k] != ':';
    assert whole[|a|] == ':' && whole[|c|] == ':';
    assert whole[..|a|] == a && whole[..|a|] == c;
    assert whole[|a| + 1..] == b && whole[|a| + 1..] == d;
  }

  lemma DecimalHasNoColon(n: nat)
    ensures ':' !in Decimal(n)
  {
  }

  lemma IdentifierTextIsInjective(a: AccountId, s: Scene, b: AccountId, r: Scene)
    requires IdentifierText(a, s) == IdentifierText(b, r)
    ensures a == b && s == r
  {
    DecimalHasNoColon(a);
    DecimalHasNoColon(b);
    ColonSplitIsUnique(Decimal(a), SceneText(s), Decimal(b), SceneText(r));
    DecimalIsInjective(a, b);
    SceneTextIsInjective(s, r);
  }

  const TOKEN_PREFIX := "UC:Token:"
  const ACCOUNT_PREFIX := "UC:Account:"
  const APIS_PREFIX := "UC:Account:Apis:"

  /** Which of the three templates a key text was printed with. */
  function Template(text: string): int
    requires |text| > 11
  {
    if text[3] == 'T' then 0 else if text[11] == 'A' then 2 else 1
  }

  lemma KeyTextShowsTemplate(key: Key)
    requires |KeyText(key)| > 11
    ensures Template(KeyText(key)) == match key case TokenKey(_) => 0 case AccountTokensKey(_, _) => 1 case PermissionsKey(_) => 2
  {
  }

  lemma SamePrefixSameRest(p: string, a: string, b: string)
    requires p + a == p + b
    ensures a == b
  {
    assert (p + a)[|p|..] == a && (p + b)[|p|..] == b;
  }

  /** Distinct logical keys never meet in the flat key space of the server. */
  lemma KeyTextIsInjective(a: Key, b: Key)
    requires KeyText(a) == KeyText(b)
    ensures a == b
  {
    if |KeyText(a)| > 11 {
      KeyTextShowsTemplate(a);
      KeyTextShowsTemplate(b);
    } else {
      assert |KeyText(a)| == |KeyText(b)| <= 11;
    }
    match a
    case TokenKey(t) =>
      SamePrefixSameRest(TOKEN_PREFIX, t, b.token);
    case AccountTokensKey(m, s) =>
      SamePrefixSameRest(ACCOUNT_PREFIX, IdentifierText(m, s), IdentifierText(b.account, b.scene));
      IdentifierTextIsInjective(m, s, b.account, b.scene);
    case PermissionsKey(m) =>
      SamePrefixSameRest(APIS_PREFIX, Decimal(m), Decimal(b.account));
      DecimalIsInjective(m, b.account);
  }

  // ------------------------------------------------- token identifiers

  /** The value stored under a token: `account:scene`. */
  function IdentifierText(account: AccountId, scene: Scene): string {
    Decimal(account) + ":" + SceneText(scene)
  }

  function FirstColon(s: string): (i: nat)
    ensures i <= |s|
    ensures i < |s| ==> s[i] == ':'
    ensures ':' !in s[..i]
  {
    if s == [] || s[0] == ':' then 0
    else
      var i := 1 + FirstColon(s[1..]);
      assert s[..i] == [s[0]] + s[1..][..i - 1];
      i
  }

  /** `account_id, scene = text.split(":")`: unpacking fails unless there is exactly one ':'. */
  function SplitIdentifier(text: string): Option<(string, string)> {
    var i := FirstColon(text);
    if i < |text| && ':' !in text[i + 1..] then Some((text[..i], text[i + 1..])) else None
  }

  lemma {:induction false} FirstColonAfter(a: string, b: string)
    requires ':' !in a
    ensures FirstColon(a + (":" + b)) == |a|
  {
    if a != "" {
      assert (a + (":" + b))[1..] == a[1..] + (":" + b);
      FirstColonAfter(a[1..], b);
    } else {
      assert a + (":" + b) == ":" + b;
    }
  }

  lemma SplitAtOnlyColon(a: string, b: string)
    requires ':' !in a && ':' !in b
    ensures SplitIdentifier(a + ":" + b) == Some((a, b))
  {
    var text := a + ":" + b;
    assert text == a + (":" + b);
    FirstColonAfter(a, b);
    assert text[..|a|] == a && text[|a| + 1..] == b;
  }

  lemma SplitInvertsIdentifier(account: AccountId, scene: Scene)
    ensures SplitIdentifier(IdentifierText(account, scene)) == Some((Decimal(account), SceneText(scene)))
  {
    DecimalHasNoColon(account);
    SplitAtOnlyColon(Decimal(account), SceneText(scene));
  }

  // ------------------------------------------------------------ commands

  datatype Value = Text(text: string) | Members(members: set<string>)

  /** `expiry` is the first instant at which the entry no longer exists. */
  datatype Entry = Entry(value: Value, expiry: Option<nat>)

  type Db = map<Key, Entry>

  predicate Live(db: Db, now: nat, key: Key) {
    key in db && (db[key].expiry.Some? ==> now < db[key].expiry.value)
  }

  function Get(db: Db, now: nat, key: Key): Option<string> {
    if Live(db, now, key) && db[key].value.Text? then Some(db[key].value.text) else None
  }

  function MembersOf(db: Db, now: nat, key: Key): set<string> {
    if Live(db, now, key) && db[key].value.Members? then db[key].value.members else {}
  }

  function SetEx(db: Db, now: nat, key: Key, text: string, seconds: nat): Db {
    db[key := Entry(Text(text), Some(now + seconds))]
  }

  function SAdd(db: Db, now: nat, key: Key, items: set<string>): Db {
    if Live(db, now, key) && db[key].value.Members?
    then db[key := Entry(Members(db[key].value.members + items), db[key].expiry)]
    else db[key := Entry(Members(items), None)]
  }

  function SRem(db: Db, now: nat, key: Key, items: set<string>): Db {
    var rest := MembersOf(db, now, key) - items;
    if Live(db, now, key) && db[key].value.Members?
    then if rest == {} then db - {key} else db[key := Entry(Members(rest), db[key].expiry)]
    else db
  }

  function Expire(db: Db, now: nat, key: Key, seconds: nat): Db {
    if Live(db, now, key) then db[key := db[key].(expiry := Some(now + seconds))] else db
  }

  function Delete(db: Db, key: Key): Db {
    db - {key}
  }

  /** A Redis server: its data and its clock. */
  class Redis {
    var db: Db
    var now: nat

    constructor (start: nat)
      ensures db == map[] && now == start
    {
      db, now := map[], start;
    }

    method SetExpiring(key: Key, text: string, seconds: nat)
      modifies this`db
      ensures db == SetEx(old(db), now, key, text, seconds)
    {
      db := db[key := Entry(Text(text), Some(now + seconds))];
    }

    method AddMembers(key: Key, items: set<string>)
      modifies this`db
      ensures db == SAdd(old(db), now, key, items)
    {
      if Live(db, now, key) && db[key].value.Members? {
        db := db[key := db[key].(value := Members(db[key].value.members + items))];
      } else {
        db := db[key := Entry(Members(items), None)];
      }
    }

    method RemoveMembers(key: Key, items: set<string>)
      modifies this`db
      ensures db == SRem(old(db), now, key, items)
    {
      if Live(db, now, key) && db[key].value.Members? {
        var rest := db[key].value.members - items;
        if rest == {} {
          db := db - {key};
        } else {
          db := db[key := db[key].(value := Members(rest))];
        }
      }
    }

    method ExpireIn(key: Key, seconds: nat)
      modifies this`db
      ensures db == Expire(old(db), now, key, seconds)
    {
      if Live(db, now, key) {
        db := db[key := db[key].(expiry := Some(now + seconds))];
      }
    }

    method Remove(key: Key)
      modifies this`db
      ensures db == Delete(old(db), key)
    {
      db := db - {key};
    }
  }
}
