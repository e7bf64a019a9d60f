/**
 The 60-second account cache in front of the account table, with lookups that can be
 overtaken between their query and their insert, and soft deletes at any time.
 */
module AccountCache {
  import opened Optional

  type Id = nat
  type Pid = nat

  const TTL := 60

  /** `deletedAt` is 0 while the account exists; `detail` stands for the other columns. */
  datatype Account = Account(deletedAt: nat, detail: string)

  type Accounts = map<Id, Account>

  predicate Exists(rows: Accounts, id: Id) {
    id in rows && rows[id].deletedAt == 0
  }

  function Hit(rows: Accounts, ids: set<Id>): set<Id> {
    set id | id in ids && Exists(rows, id)
  }

  /** `delete_by_ids`: the default manager of accounts only sees those that exist. */
  function Deleted(rows: Accounts, ids: set<Id>, now: nat): Accounts {
    map id | id in rows :: if id in ids && Exists(rows, id) then rows[id].(deletedAt := now) else rows[id]
  }

  /** `readAt` records when the query behind the entry ran. */
  datatype Entry = Entry(account: Account, insertedAt: nat, readAt: nat)

  type Cache = map<Id, Entry>

  predicate Fresh(cache: Cache, id: Id, now: nat) {
    id in cache && now < cache[id].insertedAt + TTL
  }

  // ------------------------------------------------------- the objects

  class AccountTable {
    var rows: Accounts

    constructor (rows: Accounts)
      ensures this.rows == rows
    {
      this.rows := rows;
    }

    method DeleteByIds(ids: set<Id>, now: nat) returns (count: nat)
      modifies this
      ensures rows == Deleted(old(rows), ids, now)
      ensures rows.Keys == old(rows).Keys
      ensures forall id :: id in rows && id in ids && old(rows)[id].deletedAt == 0 ==> rows[id] == Account(now, old(rows)[id].detail)
      ensures forall id :: id in rows && (id !in ids || old(rows)[id].deletedAt != 0) ==> rows[id] == old(rows)[id]
      ensures count == |set id | id in ids && id in old(rows) && old(rows)[id].deletedAt == 0|
    {
      var hit := Hit(rows, ids);
      count := |hit|;
      var todo := hit;
      while todo != {}
        invariant todo <= hit && rows.Keys == old(rows).Keys
        invariant forall id :: id in rows ==>
                    rows[id] == if id in hit - todo then old(rows)[id].(deletedAt := now) else old(rows)[id]
        decreases todo
      {
        var id :| id in todo;
        rows := rows[id := rows[id].(deletedAt := now)];
        todo := todo - {id};
      }
      assert forall id :: id in rows ==> rows[id] == Deleted(old(rows), ids, now)[id];
      assert hit == set id | id in ids && id in old(rows) && old(rows)[id].deletedAt == 0;
    }

    /** `Account.get_or_none(id=..., deleted_at=0)` */
    function GetOrNone(id: Id): (r: Option<Account>)
      reads this
      ensures r.Some? <==> Exists(rows, id)
      ensures r.Some? ==> r.value == rows[id] && r.value.deletedAt == 0
    {
      if Exists(rows, id) then Some(rows[id]) else None
    }
  }

  class TtlCache {
    var entries: Cache

    constructor ()
      ensures entries == map[]
    {
      entries := map[];
    }

    /** Stores an entry; `evicted` is whatever the size limit pushes out. */
    method Put(id: Id, entry: Entry, evicted: set<Id>)
      modifies this
      ensures entries == (old(entries) - evicted)[id := entry]
    {
      entries := (entries - evicted)[id := entry];
    }
  }

  /** `_get_account_by_id` undisturbed: the table is only asked when no fresh entry exists. */
  method GetAccountById(cache: TtlCache, table: AccountTable, id: Id, now: nat, evicted: set<Id>)
    returns (account: Option<Account>)
    modifies cache
    ensures account == if Fresh(old(cache.entries), id, now) then Some(old(cache.entries)[id].account)
                       else table.GetOrNone(id)
    ensures cache.entries == if Fresh(old(cache.entries), id, now) || !Exists(table.rows, id) then old(cache.entries)
                             else (old(cache.entries) - evicted)[id := Entry(table.rows[id], now, now)]
  {
    if Fresh(cache.entries, id, now) {
      return Some(cache.entries[id].account);
    }
    account := table.GetOrNone(id);
    if account.Some? {
      cache.Put(id, Entry(account.value, now, now), evicted);
    }
  }

  // ------------------------------------------------------- state machine

  datatype Lookup = Querying(id: Id) | Answered(id: Id, account: Account, readAt: nat)

  datatype State = State(rows: Accounts, now: nat, cache: Cache, lookups: map<Pid, Lookup>)

  datatype Action =
    | Tick(seconds: nat)
    | DeleteByIds(ids: set<Id>)
    | Save(id: Id, detail: string)
    | Create(id: Id, detail: string)
    | Ask(pid: Pid, id: Id)
    | Query(pid: Pid)
    | Insert(pid: Pid, evicted: set<Id>)
    | Evict(evicted: set<Id>)
    | Abort(pid: Pid)

  ghost predicate Init(s: State) {
    s.now > 0 && s.cache == map[] && s.lookups == map[]
  }

  ghost predicate Enabled(s: State, act: Action) {
    match act
    case Save(id, _) => id in s.rows
    case Create(id, _) => id !in s.rows
    case Ask(pid, _) => pid !in s.lookups
    case Query(pid) => pid in s.lookups && s.lookups[pid].Querying?
    case Insert(pid, _) => pid in s.lookups && s.lookups[pid].Answered?
    case Abort(pid) => pid in s.lookups
    case _ => true
  }

  function Next(s: State, act: Action): State {
    match act
    case Tick(seconds) => s.(now := s.now + seconds)
    case DeleteByIds(ids) => s.(rows := Deleted(s.rows, ids, s.now))
    case Save(id, detail) => if id in s.rows then s.(rows := s.rows[id := s.rows[id].(detail := detail)]) else s
    case Create(id, detail) => s.(rows := s.rows[id := Account(0, detail)])
    case Ask(pid, id) => if Fresh(s.cache, id, s.now) then s else s.(lookups := s.lookups[pid := Querying(id)])
    case Query(pid) =>
      if pid !in s.lookups then s else
      var id := s.lookups[pid].id;
      if Exists(s.rows, id) then s.(lookups := s.lookups[pid := Answered(id, s.rows[id], s.now)])
      else s.(lookups := s.lookups - {pid})
    case Insert(pid, evicted) =>
      if pid !in s.lookups || !s.lookups[pid].Answered? then s else
      var Answered(id, account, readAt) := s.lookups[pid];
      s.(lookups := s.lookups - {pid}, cache := (s.cache - evicted)[id := Entry(account, s.now, readAt)])
    case Evict(evicted) => s.(cache := s.cache - evicted)
    case Abort(pid) => s.(lookups := s.lookups - {pid})
  }

  /** The account id and row a step hands to its caller, if it does: a cache hit, or a lookup that ends. */
  function Returns(s: State, act: Action): Option<(Id, Account)> {
    match act
    case Ask(_, id) => if Fresh(s.cache, id, s.now) then Some((id, s.cache[id].account)) else None
    case Insert(pid, _) =>
      if pid in s.lookups && s.lookups[pid].Answered? then Some((s.lookups[pid].id, s.lookups[pid].account)) else None
    case _ => None
  }

  /** At any point any time may pass and an account may be saved or created; the cache stays. */
  lemma TimeAndAccountsAreFree(s: State, seconds: nat, id: Id, detail: string)
    ensures Enabled(s, Tick(seconds)) && Next(s, Tick(seconds)) == s.(now := s.now + seconds)
    ensures id in s.rows ==> Next(s, Save(id, detail)) == s.(rows := s.rows[id := Account(s.rows[id].deletedAt, detail)])
    ensures id !in s.rows ==> Next(s, Create(id, detail)) == s.(rows := s.rows[id := Account(0, detail)])
    ensures Enabled(s, if id in s.rows then Save(id, detail) else Create(id, detail))
  {
  }

  /** Without interruption, the steps of a lookup have the effect `GetAccountById` promises. */
  lemma UndisturbedLookup(s: State, pid: Pid, id: Id, evicted: set<Id>)
    requires pid !in s.lookups
    ensures Fresh(s.cache, id, s.now) ==> Next(s, Ask(pid, id)) == s && Returns(s, Ask(pid, id)) == Some((id, s.cache[id].account))
    ensures var asked := Next(s, Ask(pid, id));
            !Fresh(s.cache, id, s.now) && !Exists(s.rows, id) ==> Enabled(asked, Query(pid)) && Next(asked, Query(pid)) == s
    ensures var asked := Next(s, Ask(pid, id));
            var answered := Next(asked, Query(pid));
            !Fresh(s.cache, id, s.now) && Exists(s.rows, id) ==>
              && Enabled(asked, Query(pid)) && Enabled(answered, Insert(pid, evicted))
              && Returns(answered, Insert(pid, evicted)) == Some((id, s.rows[id]))
              && Next(answered, Insert(pid, evicted)) == s.(cache := (s.cache - evicted)[id := Entry(s.rows[id], s.now, s.now)])
  {
    if !Fresh(s.cache, id, s.now) {
      assert s.lookups[pid := Querying(id)] - {pid} == s.lookups;
      if Exists(s.rows, id) {
        assert s.lookups[pid := Querying(id)][pid := Answered(id, s.rows[id], s.now)] - {pid} == s.lookups;
      }
    }
  }

  ghost predicate IsRun(states: seq<State>, acts: seq<Action>) {
    && |states| == |acts| + 1
    && Init(states[0])
    && forall i :: 0 <= i < |acts| ==> Enabled(states[i], acts[i]) && states[i + 1] == Next(states[i], acts[i])
  }

  /** Every lookup inserts at most `latency` seconds after its query. */
  ghost predicate LatencyWithin(states: seq<State>, acts: seq<Action>, latency: nat)
    requires |states| == |acts| + 1
  {
    forall i :: 0 <= i < |acts| && acts[i].Insert? && acts[i].pid in states[i].lookups && states[i].lookups[acts[i].pid].Answered?
      ==> states[i].now <= states[i].lookups[acts[i].pid].readAt + latency
  }

  // ---------------------------------------------------------- invariants

  /** State `m` showed exactly this account, undeleted, at time `readAt`. */
  ghost predicate SeenAt(states: seq<State>, m: nat, id: Id, account: Account, readAt: nat) {
    m < |states| && states[m].now == readAt && Exists(states[m].rows, id) && states[m].rows[id] == account
  }

  ghost predicate Seen(states: seq<State>, upTo: nat, id: Id, account: Account, readAt: nat) {
    exists m: nat :: m <= upTo && SeenAt(states, m, id, account, readAt)
  }

  ghost predicate EntriesSeen(states: seq<State>, i: nat, latency: nat)
    requires i < |states|
  {
    var s := states[i];
    forall id :: id in s.cache ==>
      && Seen(states, i, id, s.cache[id].account, s.cache[id].readAt)
      && s.cache[id].insertedAt <= s.cache[id].readAt + latency
  }

  ghost predicate LookupsSeen(states: seq<State>, i: nat)
    requires i < |states|
  {
    var s := states[i];
    forall p :: p in s.lookups && s.lookups[p].Answered? ==>
      Seen(states, i, s.lookups[p].id, s.lookups[p].account, s.lookups[p].readAt)
  }

  lemma SeenLater(states: seq<State>, i: nat, id: Id, account: Account, readAt: nat)
    requires Seen(states, i, id, account, readAt)
    ensures Seen(states, i + 1, id, account, readAt)
  {
  }

  lemma StepKeepsLookups(states: seq<State>, acts: seq<Action>, i: nat)
    requires IsRun(states, acts) && i < |acts| && LookupsSeen(states, i)
    ensures LookupsSeen(states, i + 1)
  {
    var s, s' := states[i], states[i + 1];
    assert s' == Next(s, acts[i]);
    forall p | p in s'.lookups && s'.lookups[p].Answered?
      ensures Seen(states, i + 1, s'.lookups[p].id, s'.lookups[p].account, s'.lookups[p].readAt)
    {
      if p in s.lookups && s.lookups[p] == s'.lookups[p] {
        SeenLater(states, i, s.lookups[p].id, s.lookups[p].account, s.lookups[p].readAt);
      } else {
        assert SeenAt(states, i, s'.lookups[p].id, s'.lookups[p].account, s'.lookups[p].readAt);
      }
    }
  }

  /** Only an insert puts something new under a key. */
  lemma EntryOrigin(s: State, act: Action, id: Id)
    requires Enabled(s, act) && id in Next(s, act).cache
    ensures var entry := Next(s, act).cache[id];
            || (id in s.cache && s.cache[id] == entry)
            || (act.Insert? && act.pid in s.lookups && s.lookups[act.pid].Answered? && s.lookups[act.pid].id == id
                && entry == Entry(s.lookups[act.pid].account, s.now, s.lookups[act.pid].readAt))
  {
  }

  lemma StepKeepsEntries(states: seq<State>, acts: seq<Action>, i: nat, latency: nat)
    requires IsRun(states, acts) && LatencyWithin(states, acts, latency)
    requires i < |acts| && LookupsSeen(states, i) && EntriesSeen(states, i, latency)
    ensures EntriesSeen(states, i + 1, latency)
  {
    var s, act := states[i], acts[i];
    assert Enabled(s, act) && states[i + 1] == Next(s, act);
    forall id | id in Next(s, act).cache
      ensures Seen(states, i + 1, id, Next(s, act).cache[id].account, Next(s, act).cache[id].readAt)
      ensures Next(s, act).cache[id].insertedAt <= Next(s, act).cache[id].readAt + latency
    {
      EntryOrigin(s, act, id);
      var entry := Next(s, act).cache[id];
      SeenLaterIf(states, i, id, entry.account, entry.readAt);
    }
  }

  lemma SeenLaterIf(states: seq<State>, i: nat, id: Id, account: Account, readAt: nat)
    ensures Seen(states, i, id, account, readAt) ==> Seen(states, i + 1, id, account, readAt)
  {
  }

  lemma {:induction false} RunKeepsSeen(states: seq<State>, acts: seq<Action>, i: nat, latency: nat)
    requires IsRun(states, acts) && LatencyWithin(states, acts, latency) && i < |states|
    ensures LookupsSeen(states, i) && EntriesSeen(states, i, latency)
  {
    if i > 0 {
      RunKeepsSeen(states, acts, i - 1, latency);
      StepKeepsLookups(states, acts, i - 1);
      StepKeepsEntries(states, acts, i - 1, latency);
    }
  }

  // --------------------------------------------------------- the stale bound

  /**
   Whatever a step returns was, exactly so and undeleted, in the table at some earlier
   state, less than 60 seconds plus the query latency ago (or, on a direct answer, at
   most the latency ago).
   */
  lemma ReturnedAccountWasLive(states: seq<State>, acts: seq<Action>, i: nat, latency: nat)
    requires IsRun(states, acts) && LatencyWithin(states, acts, latency)
    requires i < |acts| && Returns(states[i], acts[i]).Some?
    ensures var (id, account) := Returns(states[i], acts[i]).value;
            exists m: nat :: m <= i && SeenAt(states, m, id, account, states[m].now)
              && states[i].now < states[m].now + latency + 60
  {
    RunKeepsSeen(states, acts, i, latency);
    var (id, account) := Returns(states[i], acts[i]).value;
    var readAt := if acts[i].Ask? then states[i].cache[id].readAt else states[i].lookups[acts[i].pid].readAt;
    assert Seen(states, i, id, account, readAt);
    var m: nat :| m <= i && SeenAt(states, m, id, account, readAt);
    assert states[i].now < states[m].now + latency + TTL;
  }

  lemma StepKeepsDeleted(s: State, act: Action, id: Id)
    requires Enabled(s, act) && id in s.rows && !Exists(s.rows, id)
    ensures id in Next(s, act).rows && !Exists(Next(s, act).rows, id)
  {
  }

  lemma StepKeepsTime(s: State, act: Action)
    ensures s.now <= Next(s, act).now
  {
  }

  lemma {:induction false} DeletedStaysDeleted(states: seq<State>, acts: seq<Action>, d: nat, i: nat, id: Id)
    requires IsRun(states, acts) && d <= i < |states|
    requires id in states[d].rows && !Exists(states[d].rows, id)
    ensures id in states[i].rows && !Exists(states[i].rows, id)
  {
    if d < i {
      DeletedStaysDeleted(states, acts, d, i - 1, id);
      StepKeepsDeleted(states[i - 1], acts[i - 1], id);
    }
  }

  lemma {:induction false} ClockIsMonotone(states: seq<State>, acts: seq<Action>, m: nat, n: nat)
    requires IsRun(states, acts) && m <= n < |states|
    ensures states[m].now <= states[n].now && states[0].now > 0
  {
    if m < n {
      ClockIsMonotone(states, acts, m, n - 1);
      StepKeepsTime(states[n - 1], acts[n - 1]);
    }
  }

  /** A deletion spares every account it does not name, and changes nothing of an account but its deletion time. */
  lemma DeletionSparesOthers(s: State, ids: set<Id>, id: Id)
    requires id in s.rows
    ensures var rows := Next(s, DeleteByIds(ids)).rows;
            && id in rows && rows[id].detail == s.rows[id].detail
            && (id !in ids || s.rows[id].deletedAt != 0 ==> rows[id] == s.rows[id])
            && (id in ids && s.rows[id].deletedAt == 0 ==> rows[id].deletedAt == s.now)
  {
  }

  ghost predicate Named(act: Action, id: Id) {
    act.DeleteByIds? && id in act.ids
  }

  /** Over a run, an account exists for good unless a deletion names it, and keeps its detail unless it is saved. */
  lemma {:induction false} ExistsUntilNamed(states: seq<State>, acts: seq<Action>, m: nat, n: nat, id: Id)
    requires IsRun(states, acts) && m <= n < |states|
    requires id in states[m].rows && states[m].rows[id].deletedAt == 0
    ensures id in states[n].rows
    ensures states[n].rows[id].deletedAt == 0 <==> forall k :: m <= k < n ==> !Named(acts[k], id)
    ensures (forall k :: m <= k < n ==> !acts[k].Save?) ==> states[n].rows[id].detail == states[m].rows[id].detail
  {
    if m < n {
      ExistsUntilNamed(states, acts, m, n - 1, id);
      ClockIsMonotone(states, acts, 0, n - 1);
      assert states[n] == Next(states[n - 1], acts[n - 1]) && Enabled(states[n - 1], acts[n - 1]);
    }
  }

  /** Once `delete_by_ids` has run, no step returns the account after 60 seconds plus the query latency. */
  lemma DeletedAccountIsRefusedInTime(states: seq<State>, acts: seq<Action>, d: nat, i: nat, ids: set<Id>, latency: nat)
    requires IsRun(states, acts) && LatencyWithin(states, acts, latency)
    requires d < i < |acts| && acts[d] == DeleteByIds(ids)
    requires Returns(states[i], acts[i]).Some?
    requires var id := Returns(states[i], acts[i]).value.0; id in ids && id in states[d].rows
    ensures states[i].now < states[d].now + latency + 60
  {
    var (id, account) := Returns(states[i], acts[i]).value;
    ReturnedAccountWasLive(states, acts, i, latency);
    var m: nat :| m <= i && SeenAt(states, m, id, account, states[m].now)
                  && states[i].now < states[m].now + latency + TTL;
    ClockIsMonotone(states, acts, 0, d);
    assert states[d + 1] == Next(states[d], acts[d]);
    if m > d {
      DeletedStaysDeleted(states, acts, d + 1, m, id);
    }
    ClockIsMonotone(states, acts, m, d);
  }
}
