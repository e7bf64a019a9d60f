/**
 Login, logout and permission refresh over one Redis server, interleaved at every
 await. One action is one atomic effect: a database query, one Redis command, one
 MULTI/EXEC pipeline, the passing of time, or the loss of a task.
 */
module AuthProtocol {
  import opened Optional
  import opened Scenes
  import opened RedisStore
  import opened PermissionRule

  // ---------------------------------------------------------- pipelines

  function RefreshDb(db: Db, now: nat, account: AccountId, codes: set<Code>): Db {
    var cleared := Delete(db, PermissionsKey(account));
    if codes == {} then cleared else SAdd(cleared, now, PermissionsKey(account), codes)
  }

  function LoginDb(db: Db, now: nat, token: Token, account: AccountId, scene: Scene,
                   codes: set<Code>, lifetime: nat): Db
  {
    var tokens := AccountTokensKey(account, scene);
    var db1 := SetEx(db, now, TokenKey(token), IdentifierText(account, scene), lifetime);
    var db2 := Expire(SAdd(db1, now, tokens, {token}), now, tokens, lifetime);
    RefreshDb(db2, now, account, codes)
  }

  function TokenKeys(ks: seq<Token>): set<Key> {
    set k | k in ks :: TokenKey(k)
  }

  function TokenSet(ks: seq<Token>): set<Token> {
    set k | k in ks
  }

  function LogoutDb(db: Db, now: nat, account: AccountId, scene: Scene, ks: seq<Token>): Db {
    SRem(db, now, AccountTokensKey(account, scene), TokenSet(ks)) - TokenKeys(ks)
  }

  method UpdateCachePermissions(r: Redis, account: AccountId, perms: set<Code>)
    modifies r`db
    ensures r.db == RefreshDb(old(r.db), r.now, account, perms)
  {
    r.Remove(PermissionsKey(account));
    if perms != {} {
      r.AddMembers(PermissionsKey(account), perms);
    }
  }

  method LoginCacheRedis(r: Redis, token: Token, account: AccountId, scene: Scene,
                         perms: set<Code>, lifetime: nat)
    modifies r`db
    ensures r.db == LoginDb(old(r.db), r.now, token, account, scene, perms, lifetime)
  {
    r.SetExpiring(TokenKey(token), IdentifierText(account, scene), lifetime);
    r.AddMembers(AccountTokensKey(account, scene), {token});
    r.ExpireIn(AccountTokensKey(account, scene), lifetime);
    r.Remove(PermissionsKey(account));
    if perms != {} {
      r.AddMembers(PermissionsKey(account), perms);
    }
  }

  /** `scanned` is what `sscan_iter` yields, repeats included. */
  method LogoutCacheRedis(r: Redis, account: AccountId, scene: Scene, scanned: seq<Token>)
    modifies r`db
    ensures r.db == if scanned == [] then old(r.db) else LogoutDb(old(r.db), r.now, account, scene, scanned)
  {
    var ks := [];
    for i := 0 to |scanned|
      invariant ks == scanned[..i]
    {
      ks := ks + [scanned[i]];
    }
    if ks == [] {
      return;
    }
    r.RemoveMembers(AccountTokensKey(account, scene), TokenSet(ks));
    ghost var shrunk := r.db;
    for i := 0 to |ks|
      invariant r.db == shrunk - TokenKeys(ks[..i])
    {
      r.Remove(TokenKey(ks[i]));
      assert TokenKeys(ks[..i + 1]) == TokenKeys(ks[..i]) + {TokenKey(ks[i])};
    }
    assert ks[..|ks|] == ks == scanned;
  }

  // ------------------------------------------------------- state machine

  type Pid = nat

  datatype Goal = ForLogin(token: Token, scene: Scene) | ForRefresh

  /** A finished `get_permission_codes`, with the table versions its reads saw. */
  datatype Call = Call(account: AccountRow, first: nat, second: nat, codes: set<Code>)

  datatype Task =
    | Fetching(account: AccountRow, goal: Goal)
    | Fetched(account: AccountRow, goal: Goal, first: nat, ids: set<ResourceId>)
    | Ready(call: Call, goal: Goal)
    | Scanning(owner: AccountId, scene: Scene, throughout: set<Token>, seen: set<Token>)
    | Deleting(owner: AccountId, scene: Scene, scanned: seq<Token>)
  {
    function Login(): set<Token> {
      if (Fetching? || Fetched? || Ready?) && goal.ForLogin? then {goal.token} else {}
    }
  }

  /**
   `history` lists every version of the resource tables, the current one last.
   `minted`, `owner` and `writes` only record what happened: the tokens generated,
   whom each stored token was issued to, and the call last written per account.
   */
  datatype State = State(
    db: Db, now: nat, lifetime: nat, history: seq<Tables>, tasks: map<Pid, Task>,
    minted: set<Token>, owner: map<Token, (AccountId, Scene)>, writes: map<AccountId, Call>)

  datatype Action =
    | Tick(seconds: nat)
    | ChangeTables(tables: Tables)
    | Begin(pid: Pid, account: AccountRow, goal: Goal)
    | ReadResources(pid: Pid)
    | ReadPermissions(pid: Pid)
    | Commit(pid: Pid)
    | BeginScan(pid: Pid, id: AccountId, scene: Scene)
    | EndScan(pid: Pid, ks: seq<Token>)
    | DeleteTokens(pid: Pid)
    | Abort(pid: Pid)

  ghost predicate Init(s: State) {
    && s.db == map[] && s.lifetime > 0 && |s.history| == 1 && s.tasks == map[]
    && s.minted == {} && s.owner == map[] && s.writes == map[]
  }

  ghost predicate Enabled(s: State, act: Action) {
    match act
    case Tick(_) => true
    case ChangeTables(_) => true
    case Begin(pid, _, goal) => pid !in s.tasks && (goal.ForLogin? ==> goal.token !in s.minted)
    case ReadResources(pid) => pid in s.tasks && s.tasks[pid].Fetching?
    case ReadPermissions(pid) => pid in s.tasks && s.tasks[pid].Fetched?
    case Commit(pid) => pid in s.tasks && s.tasks[pid].Ready?
    case BeginScan(pid, _, _) => pid !in s.tasks
    // the guarantee of SSCAN: nothing present throughout is missed, nothing never present is returned
    case EndScan(pid, ks) =>
      && pid in s.tasks && s.tasks[pid].Scanning?
      && s.tasks[pid].throughout <= TokenSet(ks) <= s.tasks[pid].seen
    case DeleteTokens(pid) => pid in s.tasks && s.tasks[pid].Deleting?
    case Abort(pid) => pid in s.tasks
  }

  function Version(s: State): nat {
    if s.history == [] then 0 else |s.history| - 1
  }

  function Current(s: State): Tables {
    if s.history == [] then map[] else s.history[|s.history| - 1]
  }

  function Effect(s: State, act: Action): State {
    match act
    case Tick(seconds) => s.(now := s.now + seconds)
    case ChangeTables(tables) => s.(history := s.history + [tables])
    case Begin(pid, account, goal) =>
      var task := if account.isSuperAdmin then Ready(Call(account, Version(s), Version(s), {"*"}), goal)
                  else Fetching(account, goal);
      s.(tasks := s.tasks[pid := task], minted := s.minted + task.Login())
    case ReadResources(pid) =>
      if pid !in s.tasks || !s.tasks[pid].Fetching? then s else
      var Fetching(account, goal) := s.tasks[pid];
      var ids := AccountResourceIds(Current(s), account);
      s.(tasks := s.tasks[pid := if ids == {} then Ready(Call(account, Version(s), Version(s), {}), goal)
                                 else Fetched(account, goal, Version(s), ids)])
    case ReadPermissions(pid) =>
      if pid !in s.tasks || !s.tasks[pid].Fetched? then s else
      var Fetched(account, goal, first, ids) := s.tasks[pid];
      s.(tasks := s.tasks[pid := Ready(Call(account, first, Version(s), CodesOf(Current(s), ids)), goal)])
    case Commit(pid) =>
      if pid !in s.tasks || !s.tasks[pid].Ready? then s else
      var Ready(call, goal) := s.tasks[pid];
      var id := call.account.id;
      var done := s.(tasks := s.tasks - {pid}, writes := s.writes[id := call]);
      if goal.ForRefresh? then done.(db := RefreshDb(s.db, s.now, id, call.codes))
      else done.(db := LoginDb(s.db, s.now, goal.token, id, goal.scene, call.codes, s.lifetime),
                 owner := s.owner[goal.token := (id, goal.scene)])
    case BeginScan(pid, id, scene) =>
      var members := MembersOf(s.db, s.now, AccountTokensKey(id, scene));
      s.(tasks := s.tasks[pid := Scanning(id, scene, members, members)])
    case EndScan(pid, ks) =>
      if pid !in s.tasks || !s.tasks[pid].Scanning? then s
      else if ks == [] then s.(tasks := s.tasks - {pid})
      else s.(tasks := s.tasks[pid := Deleting(s.tasks[pid].owner, s.tasks[pid].scene, ks)])
    case DeleteTokens(pid) =>
      if pid !in s.tasks || !s.tasks[pid].Deleting? then s else
      var Deleting(id, scene, ks) := s.tasks[pid];
      s.(tasks := s.tasks - {pid}, db := LogoutDb(s.db, s.now, id, scene, ks))
    case Abort(pid) => s.(tasks := s.tasks - {pid})
  }

  /** A running scan has now also met the current members of its set. */
  function Observe(task: Task, db: Db, now: nat): Task {
    if task.Scanning? then
      var members := MembersOf(db, now, AccountTokensKey(task.owner, task.scene));
      task.(throughout := task.throughout * members, seen := task.seen + members)
    else task
  }

  function Observed(s: State): State {
    s.(tasks := map pid | pid in s.tasks :: Observe(s.tasks[pid], s.db, s.now))
  }

  function Next(s: State, act: Action): State {
    Observed(Effect(s, act))
  }

  ghost predicate IsStep(states: seq<State>, acts: seq<Action>, i: nat)
    requires i < |acts| && |states| == |acts| + 1
  {
    Enabled(states[i], acts[i]) && states[i + 1] == Next(states[i], acts[i])
  }

  ghost predicate IsRun(states: seq<State>, acts: seq<Action>) {
    && |states| == |acts| + 1
    && Init(states[0])
    && forall i: nat :: i < |acts| ==> IsStep(states, acts, i)
  }

  // ---------------------------------------------------------- invariants

  /** Token `t` is stored for its owner and listed in its owner's set, which outlives it. */
  ghost predicate Indexed(s: State, t: Token) {
    && t in s.owner && TokenKey(t) in s.db
    && var key := AccountTokensKey(s.owner[t].0, s.owner[t].1);
       var entry := s.db[TokenKey(t)];
       && entry.value == Text(IdentifierText(s.owner[t].0, s.owner[t].1))
       && Live(s.db, s.now, key)
       && s.db[key].value.Members? && t in s.db[key].value.members
       && entry.expiry.Some? && s.db[key].expiry.Some?
       && entry.expiry.value <= s.db[key].expiry.value
       && entry.expiry.value <= s.now + s.lifetime
  }

  ghost predicate TokensIndexed(s: State) {
    forall t :: Live(s.db, s.now, TokenKey(t)) ==> Indexed(s, t)
  }

  ghost predicate OwnedBy(s: State, ts: set<Token>, id: AccountId, scene: Scene) {
    forall t :: t in ts ==> t in s.owner && s.owner[t] == (id, scene)
  }

  ghost predicate SetsOwned(s: State) {
    forall id, scene :: Live(s.db, s.now, AccountTokensKey(id, scene)) ==>
      && s.db[AccountTokensKey(id, scene)].value.Members?
      && OwnedBy(s, s.db[AccountTokensKey(id, scene)].value.members, id, scene)
  }

  ghost predicate TokensFresh(s: State) {
    && s.owner.Keys <= s.minted
    && (forall p :: p in s.tasks ==> s.tasks[p].Login() <= s.minted - s.owner.Keys)
    && (forall p, q :: p in s.tasks && q in s.tasks && p != q ==> s.tasks[p].Login() !! s.tasks[q].Login())
  }

  /** A logout task holds tokens of its own account and scene only. */
  ghost predicate LogoutOwned(s: State, task: Task) {
    match task
    case Scanning(id, scene, throughout, seen) => throughout <= seen && OwnedBy(s, seen, id, scene)
    case Deleting(id, scene, ks) => OwnedBy(s, TokenSet(ks), id, scene)
    case _ => true
  }

  ghost predicate LogoutsOwned(s: State) {
    forall p :: p in s.tasks ==> LogoutOwned(s, s.tasks[p])
  }

  /** `call` is what one uninterrupted pair of reads returned. */
  ghost predicate WholeCall(history: seq<Tables>, call: Call) {
    && call.first <= call.second < |history|
    && call.codes == PermissionCodes(call.account, history[call.first], history[call.second])
  }

  ghost predicate FetchWhole(history: seq<Tables>, task: Task) {
    match task
    case Fetching(account, _) => !account.isSuperAdmin
    case Fetched(account, _, first, ids) =>
      && !account.isSuperAdmin && first < |history|
      && ids != {} && ids == AccountResourceIds(history[first], account)
    case Ready(call, _) => WholeCall(history, call)
    case _ => true
  }

  ghost predicate CallsWhole(s: State) {
    && |s.history| > 0
    && (forall p :: p in s.tasks ==> FetchWhole(s.history, s.tasks[p]))
    && (forall id :: id in s.writes ==> s.writes[id].account.id == id && WholeCall(s.history, s.writes[id]))
  }

  ghost predicate CacheIsLastWrite(s: State) {
    forall id :: CachedCodes(s, id) == if id in s.writes then s.writes[id].codes else {}
  }

  function CachedCodes(s: State, id: AccountId): set<Code> {
    MembersOf(s.db, s.now, PermissionsKey(id))
  }

  ghost predicate PermissionsPersist(s: State) {
    forall id :: PermissionsKey(id) in s.db ==>
      s.db[PermissionsKey(id)].value.Members? && s.db[PermissionsKey(id)].expiry == None
  }

  ghost predicate Inv(s: State) {
    && s.lifetime > 0
    && TokensIndexed(s) && SetsOwned(s) && TokensFresh(s) && LogoutsOwned(s)
    && CallsWhole(s) && CacheIsLastWrite(s) && PermissionsPersist(s)
  }

  // -------------------------------------------- what a pipeline changes

  /** A refresh replaces exactly one permission set, and leaves it without expiry. */
  ghost predicate OnlyPermissionsChanged(db: Db, now: nat, id: AccountId, codes: set<Code>, after: Db) {
    && (forall i: AccountId :: MembersOf(after, now, PermissionsKey(i)) ==
          if i == id then codes else MembersOf(db, now, PermissionsKey(i)))
    && (forall i: AccountId :: PermissionsKey(i) in after ==>
          if i == id then after[PermissionsKey(i)] == Entry(Members(codes), None)
          else PermissionsKey(i) in db && after[PermissionsKey(i)] == db[PermissionsKey(i)])
  }

  lemma RefreshDbMeaning(db: Db, now: nat, id: AccountId, codes: set<Code>)
    ensures OnlyPermissionsChanged(db, now, id, codes, RefreshDb(db, now, id, codes))
  {
  }

  lemma LoginDbPermissions(db: Db, now: nat, token: Token, id: AccountId, scene: Scene, codes: set<Code>, lifetime: nat)
    ensures OnlyPermissionsChanged(db, now, id, codes, LoginDb(db, now, token, id, scene, codes, lifetime))
  {
    var tokens := AccountTokensKey(id, scene);
    var db1 := SetEx(db, now, TokenKey(token), IdentifierText(id, scene), lifetime);
    var db2 := Expire(SAdd(db1, now, tokens, {token}), now, tokens, lifetime);
    assert forall i: AccountId :: PermissionsKey(i) in db2 <==> PermissionsKey(i) in db;
    assert forall i: AccountId :: PermissionsKey(i) in db ==> db2[PermissionsKey(i)] == db[PermissionsKey(i)];
    RefreshDbMeaning(db2, now, id, codes);
  }

  lemma LoginDbMeaning(db: Db, now: nat, token: Token, id: AccountId, scene: Scene, codes: set<Code>, lifetime: nat)
    requires lifetime > 0
    requires Live(db, now, AccountTokensKey(id, scene)) ==> db[AccountTokensKey(id, scene)].value.Members?
    ensures var after := LoginDb(db, now, token, id, scene, codes, lifetime);
            var key := AccountTokensKey(id, scene);
            && TokenKey(token) in after && key in after
            && after[TokenKey(token)] == Entry(Text(IdentifierText(id, scene)), Some(now + lifetime))
            && after[key] == Entry(Members(MembersOf(db, now, key) + {token}), Some(now + lifetime))
            && forall k :: k != TokenKey(token) && k != key && k != PermissionsKey(id) ==>
                 (k in after <==> k in db) && (k in db ==> after[k] == db[k])
  {
    var key := AccountTokensKey(id, scene);
    var db1 := SetEx(db, now, TokenKey(token), IdentifierText(id, scene), lifetime);
    assert Live(db1, now, key) <==> Live(db, now, key);
    assert !Live(db, now, key) ==> MembersOf(db, now, key) + {token} == {token};
  }

  lemma LogoutDbMeaning(db: Db, now: nat, id: AccountId, scene: Scene, ks: seq<Token>)
    ensures var after := LogoutDb(db, now, id, scene, ks);
            && (forall t :: TokenKey(t) in after <==> TokenKey(t) in db && t !in ks)
            && (forall k :: k in after && k != AccountTokensKey(id, scene) ==> k in db && after[k] == db[k])
            && (forall k :: k in db && k != AccountTokensKey(id, scene) && !k.TokenKey? ==> k in after)
    ensures var after := LogoutDb(db, now, id, scene, ks);
            var key := AccountTokensKey(id, scene);
            if Live(db, now, key) && db[key].value.Members? then
              && (key in after <==> db[key].value.members - TokenSet(ks) != {})
              && (key in after ==> after[key] == Entry(Members(db[key].value.members - TokenSet(ks)), db[key].expiry))
            else (key in after <==> key in db) && (key in db ==> after[key] == db[key])
  {
  }

  // ------------------------------------------------ each action keeps Inv

  lemma LoginKeepsIndex(s: State, token: Token, id: AccountId, scene: Scene, codes: set<Code>, after: State)
    requires TokensIndexed(s) && SetsOwned(s) && s.lifetime > 0 && token !in s.owner
    requires after.db == LoginDb(s.db, s.now, token, id, scene, codes, s.lifetime)
    requires after.now == s.now && after.lifetime == s.lifetime && after.owner == s.owner[token := (id, scene)]
    ensures TokensIndexed(after) && SetsOwned(after)
  {
    LoginDbMeaning(s.db, s.now, token, id, scene, codes, s.lifetime);
    forall t | Live(after.db, after.now, TokenKey(t))
      ensures Indexed(after, t)
    {
      if t != token {
        assert Live(s.db, s.now, TokenKey(t));
        assert Indexed(s, t);
      }
    }
    forall i: AccountId, c | Live(after.db, after.now, AccountTokensKey(i, c))
      ensures after.db[AccountTokensKey(i, c)].value.Members?
      ensures OwnedBy(after, after.db[AccountTokensKey(i, c)].value.members, i, c)
    {
      if (i, c) != (id, scene) {
        assert Live(s.db, s.now, AccountTokensKey(i, c));
      }
    }
  }

  lemma LogoutKeepsIndex(s: State, id: AccountId, scene: Scene, ks: seq<Token>, after: State)
    requires TokensIndexed(s) && SetsOwned(s) && OwnedBy(s, TokenSet(ks), id, scene)
    requires after.db == LogoutDb(s.db, s.now, id, scene, ks)
    requires after.now == s.now && after.lifetime == s.lifetime && after.owner == s.owner
    ensures TokensIndexed(after) && SetsOwned(after)
  {
    LogoutDbMeaning(s.db, s.now, id, scene, ks);
    forall t | Live(after.db, after.now, TokenKey(t))
      ensures Indexed(after, t)
    {
      assert Live(s.db, s.now, TokenKey(t));
      assert Indexed(s, t);
      assert (s.owner[t].0, s.owner[t].1) == (id, scene) ==>
        t in s.db[AccountTokensKey(id, scene)].value.members - TokenSet(ks);
    }
    forall i: AccountId, c | Live(after.db, after.now, AccountTokensKey(i, c))
      ensures after.db[AccountTokensKey(i, c)].value.Members?
      ensures OwnedBy(after, after.db[AccountTokensKey(i, c)].value.members, i, c)
    {
      assert Live(s.db, s.now, AccountTokensKey(i, c));
    }
  }

  lemma SameSessionsKeepIndex(s: State, after: State)
    requires TokensIndexed(s) && SetsOwned(s)
    requires after.lifetime == s.lifetime && after.owner == s.owner && after.now >= s.now
    requires forall k: Key :: !k.PermissionsKey? ==> (k in after.db <==> k in s.db) && (k in s.db ==> after.db[k] == s.db[k])
    ensures TokensIndexed(after) && SetsOwned(after)
  {
  }

  lemma EffectKeepsSessions(s: State, act: Action)
    requires s.lifetime > 0 && TokensIndexed(s) && SetsOwned(s) && TokensFresh(s) && LogoutsOwned(s) && Enabled(s, act)
    ensures TokensIndexed(Effect(s, act)) && SetsOwned(Effect(s, act))
  {
    var after := Effect(s, act);
    if act.Commit? && s.tasks[act.pid].goal.ForLogin? {
      var Ready(call, goal) := s.tasks[act.pid];
      assert goal.token in s.tasks[act.pid].Login();
      LoginKeepsIndex(s, goal.token, call.account.id, goal.scene, call.codes, after);
    } else if act.DeleteTokens? {
      var Deleting(id, scene, ks) := s.tasks[act.pid];
      assert LogoutOwned(s, s.tasks[act.pid]);
      LogoutKeepsIndex(s, id, scene, ks, after);
    } else {
      SameSessionsKeepIndex(s, after);
    }
  }

  /** A step moves login tokens between tasks, mints one, or spends one on a commit. */
  lemma LoginTokenOrigin(s: State, act: Action, p: Pid)
    requires Enabled(s, act) && p in Effect(s, act).tasks
    ensures var after := Effect(s, act);
            if p in s.tasks then after.tasks[p].Login() <= s.tasks[p].Login()
            else (act.Begin? || act.BeginScan?) && p == act.pid
                 && after.tasks[p].Login() <= after.minted && after.tasks[p].Login() !! s.minted
  {
  }

  lemma EffectKeepsFresh(s: State, act: Action)
    requires TokensFresh(s) && Enabled(s, act)
    ensures TokensFresh(Effect(s, act))
  {
    var after := Effect(s, act);
    ghost var spent := if act.Commit? then s.tasks[act.pid].Login() else {};
    assert after.owner.Keys == s.owner.Keys + spent;
    assert s.minted <= after.minted;
    forall p | p in after.tasks
      ensures after.tasks[p].Login() <= after.minted - after.owner.Keys
    {
      LoginTokenOrigin(s, act, p);
      if p in s.tasks {
        assert act.Commit? ==> p != act.pid;
      } else {
        assert spent == {};
      }
    }
    forall p, q | p in after.tasks && q in after.tasks && p != q
      ensures after.tasks[p].Login() !! after.tasks[q].Login()
    {
      LoginTokenOrigin(s, act, p);
      LoginTokenOrigin(s, act, q);
    }
  }

  lemma OwnersAreKept(s: State, act: Action)
    requires TokensFresh(s) && Enabled(s, act)
    ensures forall t :: t in s.owner ==> t in Effect(s, act).owner && Effect(s, act).owner[t] == s.owner[t]
  {
  }

  ghost predicate OwnersExtend(s: State, after: State) {
    forall t :: t in s.owner ==> t in after.owner && after.owner[t] == s.owner[t]
  }

  lemma LogoutStaysOwned(s: State, after: State, task: Task)
    requires LogoutOwned(s, task) && OwnersExtend(s, after)
    ensures LogoutOwned(after, task)
  {
  }

  lemma ScanBeginsOwned(s: State, after: State, id: AccountId, scene: Scene)
    requires SetsOwned(s) && OwnersExtend(s, after)
    ensures var members := MembersOf(s.db, s.now, AccountTokensKey(id, scene));
            LogoutOwned(after, Scanning(id, scene, members, members))
  {
  }

  lemma ScanEndsOwned(s: State, after: State, task: Task, ks: seq<Token>)
    requires task.Scanning? && LogoutOwned(s, task) && TokenSet(ks) <= task.seen && OwnersExtend(s, after)
    ensures LogoutOwned(after, Deleting(task.owner, task.scene, ks))
  {
  }

  /** A step leaves a task alone, starts or ends its scan, or makes it something other than a logout. */
  lemma LogoutTaskOrigin(s: State, act: Action, p: Pid)
    requires Enabled(s, act) && p in Effect(s, act).tasks
    ensures var task := Effect(s, act).tasks[p];
            || (p in s.tasks && task == s.tasks[p])
            || (act.BeginScan? && var members := MembersOf(s.db, s.now, AccountTokensKey(act.id, act.scene));
                                  task == Scanning(act.id, act.scene, members, members))
            || (act.EndScan? && p in s.tasks && s.tasks[p].Scanning? && TokenSet(act.ks) <= s.tasks[p].seen
                && task == Deleting(s.tasks[p].owner, s.tasks[p].scene, act.ks))
            || !(task.Scanning? || task.Deleting?)
  {
  }

  lemma EffectKeepsLogouts(s: State, act: Action)
    requires TokensFresh(s) && SetsOwned(s) && LogoutsOwned(s) && Enabled(s, act)
    ensures LogoutsOwned(Effect(s, act))
  {
    var after := Effect(s, act);
    OwnersAreKept(s, act);
    forall p | p in after.tasks
      ensures LogoutOwned(after, after.tasks[p])
    {
      LogoutTaskOrigin(s, act, p);
      if p in s.tasks && after.tasks[p] == s.tasks[p] {
        LogoutStaysOwned(s, after, s.tasks[p]);
      } else if act.BeginScan? {
        ScanBeginsOwned(s, after, act.id, act.scene);
      } else if act.EndScan? {
        ScanEndsOwned(s, after, s.tasks[p], act.ks);
      }
    }
  }

  lemma HistoryGrows(s: State, act: Action, task: Task, call: Call)
    ensures FetchWhole(s.history, task) ==> FetchWhole(Effect(s, act).history, task)
    ensures WholeCall(s.history, call) ==> WholeCall(Effect(s, act).history, call)
  {
  }

  lemma ReadsAreWhole(s: State, act: Action, p: Pid)
    requires CallsWhole(s) && Enabled(s, act) && p in Effect(s, act).tasks
    requires p !in s.tasks || Effect(s, act).tasks[p] != s.tasks[p]
    ensures FetchWhole(s.history, Effect(s, act).tasks[p])
  {
    if p in s.tasks {
      assert FetchWhole(s.history, s.tasks[p]);
    }
  }

  lemma WritesAreWhole(s: State, act: Action, id: AccountId)
    requires CallsWhole(s) && Enabled(s, act) && id in Effect(s, act).writes
    ensures Effect(s, act).writes[id].account.id == id && WholeCall(s.history, Effect(s, act).writes[id])
  {
    if act.Commit? {
      assert FetchWhole(s.history, s.tasks[act.pid]);
    }
  }

  lemma EffectKeepsCalls(s: State, act: Action)
    requires CallsWhole(s) && Enabled(s, act)
    ensures CallsWhole(Effect(s, act))
  {
    var after := Effect(s, act);
    var anyCall := Call(AccountRow(0, false, false, 0), 0, 0, {});
    assert |after.history| > 0;
    forall p | p in after.tasks
      ensures FetchWhole(after.history, after.tasks[p])
    {
      HistoryGrows(s, act, after.tasks[p], anyCall);
      if p !in s.tasks || after.tasks[p] != s.tasks[p] {
        ReadsAreWhole(s, act, p);
      }
    }
    forall id | id in after.writes
      ensures after.writes[id].account.id == id && WholeCall(after.history, after.writes[id])
    {
      WritesAreWhole(s, act, id);
      HistoryGrows(s, act, Ready(anyCall, ForRefresh), after.writes[id]);
    }
  }

  lemma CommitKeepsCache(s: State, pid: Pid)
    requires CacheIsLastWrite(s) && PermissionsPersist(s) && Enabled(s, Commit(pid))
    ensures CacheIsLastWrite(Effect(s, Commit(pid))) && PermissionsPersist(Effect(s, Commit(pid)))
  {
    var Ready(call, goal) := s.tasks[pid];
    var id := call.account.id;
    RefreshDbMeaning(s.db, s.now, id, call.codes);
    if goal.ForLogin? {
      LoginDbPermissions(s.db, s.now, goal.token, id, goal.scene, call.codes, s.lifetime);
    }
    var after := Effect(s, Commit(pid));
    assert OnlyPermissionsChanged(s.db, s.now, id, call.codes, after.db);
    forall i
      ensures CachedCodes(after, i) == if i in after.writes then after.writes[i].codes else {}
    {
      assert i != id ==> CachedCodes(after, i) == CachedCodes(s, i);
    }
  }

  lemma EffectKeepsCache(s: State, act: Action)
    requires CacheIsLastWrite(s) && PermissionsPersist(s) && Enabled(s, act)
    ensures CacheIsLastWrite(Effect(s, act)) && PermissionsPersist(Effect(s, act))
  {
    if act.Commit? {
      CommitKeepsCache(s, act.pid);
    } else {
      var after := Effect(s, act);
      if act.DeleteTokens? {
        var Deleting(id, scene, ks) := s.tasks[act.pid];
        LogoutDbMeaning(s.db, s.now, id, scene, ks);
      }
      forall i
        ensures PermissionsKey(i) in after.db ==> PermissionsKey(i) in s.db && after.db[PermissionsKey(i)] == s.db[PermissionsKey(i)]
        ensures CachedCodes(after, i) == CachedCodes(s, i)
      {
      }
    }
  }

  lemma ObservedKeepsLogouts(s: State)
    requires SetsOwned(s) && LogoutsOwned(s)
    ensures LogoutsOwned(Observed(s))
  {
    var after := Observed(s);
    forall p | p in after.tasks
      ensures LogoutOwned(after, after.tasks[p])
    {
      assert LogoutOwned(s, s.tasks[p]);
    }
  }

  lemma ObservedKeepsIndex(s: State)
    requires TokensIndexed(s) && SetsOwned(s)
    ensures TokensIndexed(Observed(s)) && SetsOwned(Observed(s))
  {
  }

  lemma ObservedKeepsFresh(s: State)
    requires TokensFresh(s)
    ensures TokensFresh(Observed(s))
  {
    assert forall p :: p in s.tasks ==> Observed(s).tasks[p].Login() == s.tasks[p].Login();
  }

  lemma ObservedKeepsCalls(s: State)
    requires CallsWhole(s)
    ensures CallsWhole(Observed(s))
  {
  }

  lemma ObservedKeepsCache(s: State)
    requires CacheIsLastWrite(s) && PermissionsPersist(s)
    ensures CacheIsLastWrite(Observed(s)) && PermissionsPersist(Observed(s))
  {
  }

  lemma NextKeepsInv(s: State, act: Action)
    requires Inv(s) && Enabled(s, act)
    ensures Inv(Next(s, act))
  {
    EffectKeepsSessions(s, act);
    EffectKeepsFresh(s, act);
    EffectKeepsLogouts(s, act);
    EffectKeepsCalls(s, act);
    EffectKeepsCache(s, act);
    var after := Effect(s, act);
    ObservedKeepsIndex(after);
    ObservedKeepsFresh(after);
    ObservedKeepsCalls(after);
    ObservedKeepsLogouts(after);
    ObservedKeepsCache(after);
  }

  lemma {:induction false} RunKeepsInv(states: seq<State>, acts: seq<Action>, i: nat)
    requires IsRun(states, acts) && i < |states|
    ensures Inv(states[i])
  {
    if i > 0 {
      RunKeepsInv(states, acts, i - 1);
      assert IsStep(states, acts, i - 1);
      NextKeepsInv(states[i - 1], acts[i - 1]);
    }
  }
}
