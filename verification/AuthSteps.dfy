/** The steps of the login protocol, taken without interruption, do what the methods promise. */
module AuthSteps {
  import opened Scenes
  import opened RedisStore
  import opened PermissionRule
  import opened AuthProtocol
  import opened AuthSafety

  /** At any point any time may pass and the tables may become anything; the store stays. */
  lemma TimeAndTablesAreFree(s: State, seconds: nat, tables: Tables)
    ensures Enabled(s, Tick(seconds)) && Next(s, Tick(seconds)).now == s.now + seconds && Next(s, Tick(seconds)).db == s.db
    ensures Enabled(s, ChangeTables(tables)) && Current(Next(s, ChangeTables(tables))) == tables
    ensures Next(s, ChangeTables(tables)).history == s.history + [tables] && Next(s, ChangeTables(tables)).db == s.db
  {
  }

  // ------------------------------------------- one call's steps, undisturbed

  /** The steps can be taken one after the other, and end in `after`. */
  ghost predicate Leads(s: State, acts: seq<Action>, after: State)
    decreases |acts|
  {
    if acts == [] then after == s else Enabled(s, acts[0]) && Leads(Next(s, acts[0]), acts[1..], after)
  }

  lemma OneStepLeads(s: State, act: Action)
    requires Enabled(s, act)
    ensures Leads(s, [act], Next(s, act))
  {
  }

  lemma {:induction false} LeadsOn(s: State, acts: seq<Action>, mid: State, act: Action)
    requires Leads(s, acts, mid) && Enabled(mid, act)
    ensures Leads(s, acts + [act], Next(mid, act))
    decreases |acts|
  {
    if acts == [] {
      OneStepLeads(s, act);
    } else {
      LeadsOn(Next(s, acts[0]), acts[1..], mid, act);
      assert (acts + [act])[1..] == acts[1..] + [act];
    }
  }

  ghost predicate SameStore(s: State, after: State) {
    after.db == s.db && after.now == s.now && after.lifetime == s.lifetime && after.history == s.history
  }

  /** A call of `get_permission_codes` without interruption returns the codes of the current tables. */
  lemma UndisturbedFetch(s: State, pid: Pid, account: AccountRow, goal: Goal) returns (acts: seq<Action>, ready: State)
    requires s.history != [] && Enabled(s, Begin(pid, account, goal))
    ensures Leads(s, acts, ready) && SameStore(s, ready) && pid in ready.tasks
    ensures ready.tasks[pid] == Ready(Call(account, Version(s), Version(s), PermissionCodes(account, Current(s), Current(s))), goal)
  {
    acts, ready := [Begin(pid, account, goal)], Next(s, Begin(pid, account, goal));
    OneStepLeads(s, Begin(pid, account, goal));
    if !account.isSuperAdmin {
      assert ready.tasks[pid] == Fetching(account, goal);
      LeadsOn(s, acts, ready, ReadResources(pid));
      acts, ready := acts + [ReadResources(pid)], Next(ready, ReadResources(pid));
      var ids := AccountResourceIds(Current(s), account);
      if ids != {} {
        assert ready.tasks[pid] == Fetched(account, goal, Version(s), ids);
        LeadsOn(s, acts, ready, ReadPermissions(pid));
        acts, ready := acts + [ReadPermissions(pid)], Next(ready, ReadPermissions(pid));
      }
    }
  }

  /** Without interruption, the steps of a login have the effect of `LoginCacheRedis` with the current permissions. */
  lemma UndisturbedLogin(s: State, pid: Pid, account: AccountRow, token: Token, scene: Scene) returns (acts: seq<Action>, after: State)
    requires s.history != [] && pid !in s.tasks && token !in s.minted
    ensures Leads(s, acts, after) && after.now == s.now
    ensures after.db == LoginDb(s.db, s.now, token, account.id, scene, PermissionCodes(account, Current(s), Current(s)), s.lifetime)
  {
    acts, after := UndisturbedFetch(s, pid, account, ForLogin(token, scene));
    LeadsOn(s, acts, after, Commit(pid));
    acts, after := acts + [Commit(pid)], Next(after, Commit(pid));
  }

  /** Without interruption, the steps of a refresh have the effect of `UpdateCachePermissions` with the current permissions. */
  lemma UndisturbedRefresh(s: State, pid: Pid, account: AccountRow) returns (acts: seq<Action>, after: State)
    requires s.history != [] && pid !in s.tasks
    ensures Leads(s, acts, after) && after.now == s.now
    ensures after.db == RefreshDb(s.db, s.now, account.id, PermissionCodes(account, Current(s), Current(s)))
  {
    acts, after := UndisturbedFetch(s, pid, account, ForRefresh);
    LeadsOn(s, acts, after, Commit(pid));
    acts, after := acts + [Commit(pid)], Next(after, Commit(pid));
  }

  /** Without interruption, the scan returns the members, and the steps of a logout have the effect of `LogoutCacheRedis`. */
  lemma UndisturbedLogout(s: State, pid: Pid, id: AccountId, scene: Scene, ks: seq<Token>) returns (acts: seq<Action>, after: State)
    requires pid !in s.tasks && TokenSet(ks) == MembersOf(s.db, s.now, AccountTokensKey(id, scene))
    ensures Leads(s, acts, after) && after.now == s.now
    ensures after.db == if ks == [] then s.db else LogoutDb(s.db, s.now, id, scene, ks)
  {
    var members := MembersOf(s.db, s.now, AccountTokensKey(id, scene));
    acts, after := [BeginScan(pid, id, scene)], Next(s, BeginScan(pid, id, scene));
    OneStepLeads(s, BeginScan(pid, id, scene));
    assert after.tasks[pid] == Scanning(id, scene, members * members, members + members);
    LeadsOn(s, acts, after, EndScan(pid, ks));
    acts, after := acts + [EndScan(pid, ks)], Next(after, EndScan(pid, ks));
    if ks != [] {
      assert after.tasks[pid] == Deleting(id, scene, ks);
      LeadsOn(s, acts, after, DeleteTokens(pid));
      acts, after := acts + [DeleteTokens(pid)], Next(after, DeleteTokens(pid));
    }
  }

  lemma {:induction false} LeadsIsRun(s: State, acts: seq<Action>, after: State) returns (states: seq<State>)
    requires Leads(s, acts, after)
    ensures |states| == |acts| + 1 && states[0] == s && states[|acts|] == after
    ensures forall i: nat :: i < |acts| ==> IsStep(states, acts, i)
    decreases |acts|
  {
    if acts == [] {
      states := [s];
    } else {
      var rest := LeadsIsRun(Next(s, acts[0]), acts[1..], after);
      states := [s] + rest;
      forall i: nat | i < |acts| ensures IsStep(states, acts, i) {
        if i > 0 {
          assert IsStep(rest, acts[1..], i - 1);
        }
      }
    }
  }

  /** From any initial state some run logs the account in: its session is live and listed at the end. */
  lemma SomeRunLogsIn(s: State, account: AccountRow, token: Token, scene: Scene) returns (states: seq<State>, acts: seq<Action>)
    requires Init(s)
    ensures IsRun(states, acts) && states[0] == s && Session(states[|acts|], token, account.id, scene)
  {
    var after;
    acts, after := UndisturbedLogin(s, 0, account, token, scene);
    states := LeadsIsRun(s, acts, after);
    LoginDbMeaning(s.db, s.now, token, account.id, scene, PermissionCodes(account, Current(s), Current(s)), s.lifetime);
  }
}
