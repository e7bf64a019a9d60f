/** What holds over every run of the login, logout and refresh protocol. */
module AuthSafety {
  import opened Optional
  import opened NumberText
  import opened Scenes
  import opened RedisStore
  import opened PermissionRule
  import opened AuthProtocol

  /** Token `t` is stored, unexpired, for this account and scene. */
  predicate Session(s: State, t: Token, id: AccountId, scene: Scene) {
    Get(s.db, s.now, TokenKey(t)) == Some(IdentifierText(id, scene))
  }

  lemma SessionOwner(s: State, t: Token, id: AccountId, scene: Scene)
    requires Inv(s) && Session(s, t, id, scene)
    ensures Indexed(s, t) && s.owner[t] == (id, scene)
  {
    assert Live(s.db, s.now, TokenKey(t));
    IdentifierTextIsInjective(id, scene, s.owner[t].0, s.owner[t].1);
  }

  /** The two indexes agree: a live token sits in the live set of its account and scene, which outlives it. */
  lemma TokenIsListedUntilItExpires(states: seq<State>, acts: seq<Action>, i: nat, t: Token, id: AccountId, scene: Scene)
    requires IsRun(states, acts) && i < |states|
    requires Session(states[i], t, id, scene)
    ensures var s := states[i];
            && t in MembersOf(s.db, s.now, AccountTokensKey(id, scene))
            && s.db[TokenKey(t)].expiry.Some? && s.db[AccountTokensKey(id, scene)].expiry.Some?
            && s.db[TokenKey(t)].expiry.value <= s.db[AccountTokensKey(id, scene)].expiry.value
    ensures forall other: AccountId, c :: (other, c) != (id, scene) ==>
              t !in MembersOf(states[i].db, states[i].now, AccountTokensKey(other, c))
  {
    RunKeepsInv(states, acts, i);
    SessionOwner(states[i], t, id, scene);
    forall other: AccountId, c | t in MembersOf(states[i].db, states[i].now, AccountTokensKey(other, c))
      ensures (other, c) == (id, scene)
    {
      assert OwnedBy(states[i], states[i].db[AccountTokensKey(other, c)].value.members, other, c);
    }
  }

  // --------------------------------------------------------- validation

  datatype Verdict = Accepted(account: string, scene: string) | Unauthorized | Crashed

  /** `_validate_jwt_token` up to the account lookup; `header` is the front-scene header, if any. */
  function Validate(db: Db, now: nat, token: Token, header: Option<string>): Verdict {
    match Get(db, now, TokenKey(token))
    case None => Unauthorized
    case Some("") => Unauthorized
    case Some(text) =>
      match SplitIdentifier(text)
      case None => Crashed
      case Some((account, scene)) =>
        if header.Some? && header.value != "" && scene != header.value then Unauthorized
        else Accepted(account, scene)
  }

  /** Reading a token never crashes, and accepts exactly the live sessions whose scene the header allows. */
  lemma ValidateAcceptsSessions(states: seq<State>, acts: seq<Action>, i: nat, t: Token, header: Option<string>)
    requires IsRun(states, acts) && i < |states|
    ensures var v := Validate(states[i].db, states[i].now, t, header);
            && v != Crashed
            && forall id: AccountId, scene :: v == Accepted(Decimal(id), SceneText(scene)) <==>
                 Session(states[i], t, id, scene) && (header in {None, Some(""), Some(SceneText(scene))})
    ensures var v := Validate(states[i].db, states[i].now, t, header);
            v.Accepted? ==> exists id: AccountId, scene :: v == Accepted(Decimal(id), SceneText(scene))
  {
    var s := states[i];
    RunKeepsInv(states, acts, i);
    var v := Validate(s.db, s.now, t, header);
    if Live(s.db, s.now, TokenKey(t)) {
      assert Indexed(s, t);
      var (id, scene) := s.owner[t];
      SplitInvertsIdentifier(id, scene);
      assert Session(s, t, id, scene);
      assert v.Accepted? ==> v == Accepted(Decimal(id), SceneText(scene));
      forall other: AccountId, c
        ensures v == Accepted(Decimal(other), SceneText(c)) <==>
                Session(s, t, other, c) && (header in {None, Some(""), Some(SceneText(c))})
      {
        if v == Accepted(Decimal(other), SceneText(c)) {
          DecimalIsInjective(other, id);
          SceneTextIsInjective(c, scene);
        }
        if Session(s, t, other, c) {
          IdentifierTextIsInjective(other, c, id, scene);
        }
      }
    }
  }

  // ------------------------------------------------------------- logout

  /** A commit can only store a token that was never stored before. */
  lemma CommitStoresFreshToken(s: State, pid: Pid, t: Token)
    requires Inv(s) && Enabled(s, Commit(pid)) && t in s.owner
    ensures var after := Effect(s, Commit(pid));
            TokenKey(t) in after.db ==> TokenKey(t) in s.db && after.db[TokenKey(t)] == s.db[TokenKey(t)]
  {
    var Ready(call, goal) := s.tasks[pid];
    if goal.ForLogin? {
      assert goal.token in s.tasks[pid].Login();
      var key := AccountTokensKey(call.account.id, goal.scene);
      assert Live(s.db, s.now, key) ==> s.db[key].value.Members?;
      LoginDbMeaning(s.db, s.now, goal.token, call.account.id, goal.scene, call.codes, s.lifetime);
    }
  }

  lemma DeadTokenStaysDead(s: State, act: Action, t: Token)
    requires Inv(s) && Enabled(s, act)
    requires t in s.owner && !Live(s.db, s.now, TokenKey(t))
    ensures t in Next(s, act).owner && !Live(Next(s, act).db, Next(s, act).now, TokenKey(t))
  {
    OwnersAreKept(s, act);
    match act
    case Commit(pid) =>
      CommitStoresFreshToken(s, pid, t);
    case DeleteTokens(pid) =>
      LogoutDbMeaning(s.db, s.now, s.tasks[pid].owner, s.tasks[pid].scene, s.tasks[pid].scanned);
    case _ =>
  }

  lemma {:induction false} DeadTokenStaysDeadInRun(states: seq<State>, acts: seq<Action>, m: nat, n: nat, t: Token)
    requires IsRun(states, acts) && m <= n < |states|
    requires t in states[m].owner && !Live(states[m].db, states[m].now, TokenKey(t))
    ensures t in states[n].owner && !Live(states[n].db, states[n].now, TokenKey(t))
  {
    if m < n {
      DeadTokenStaysDeadInRun(states, acts, m, n - 1, t);
      RunKeepsInv(states, acts, n - 1);
      assert IsStep(states, acts, n - 1);
      DeadTokenStaysDead(states[n - 1], acts[n - 1], t);
    }
  }

  /** Between steps `b` and `e` task `pid` neither finishes its scan nor is lost. */
  ghost predicate StillScanning(acts: seq<Action>, pid: Pid, b: nat, e: nat)
    requires e <= |acts|
  {
    forall m :: b < m < e ==> acts[m] != Abort(pid) && !(acts[m].EndScan? && acts[m].pid == pid)
  }

  predicate Scans(s: State, pid: Pid, id: AccountId, scene: Scene) {
    pid in s.tasks && s.tasks[pid].Scanning? && s.tasks[pid].owner == id && s.tasks[pid].scene == scene
  }

  ghost predicate SessionFrom(states: seq<State>, t: Token, id: AccountId, scene: Scene, from: nat, to: nat)
    requires to < |states|
  {
    forall m :: from <= m <= to ==> Session(states[m], t, id, scene)
  }

  /** A token that is a member before and after a step of the scan stays among those SSCAN must return. */
  lemma ScanStepKeepsMember(s: State, act: Action, pid: Pid, id: AccountId, scene: Scene, t: Token)
    requires Enabled(s, act) && t in MembersOf(Next(s, act).db, Next(s, act).now, AccountTokensKey(id, scene))
    requires if act.BeginScan? && act.pid == pid then
               act.id == id && act.scene == scene && t in MembersOf(s.db, s.now, AccountTokensKey(id, scene))
             else
               Scans(s, pid, id, scene) && t in s.tasks[pid].throughout && act != Abort(pid) && !(act.EndScan? && act.pid == pid)
    ensures Scans(Next(s, act), pid, id, scene) && t in Next(s, act).tasks[pid].throughout
  {
    var mid := Effect(s, act);
    assert !(act.BeginScan? && act.pid == pid) ==> mid.tasks[pid] == s.tasks[pid];
    assert Next(s, act).tasks[pid] == Observe(mid.tasks[pid], mid.db, mid.now);
  }

  /** A token live in every state of a scan so far is among those SSCAN must return. */
  lemma {:induction false} LiveTokenIsThroughout(states: seq<State>, acts: seq<Action>, pid: Pid, id: AccountId,
                                                 scene: Scene, b: nat, e: nat, t: Token)
    requires IsRun(states, acts) && b < e < |states|
    requires acts[b] == BeginScan(pid, id, scene) && StillScanning(acts, pid, b, e)
    requires SessionFrom(states, t, id, scene, b, e)
    ensures Scans(states[e], pid, id, scene) && t in states[e].tasks[pid].throughout
  {
    SessionIsMember(states, acts, e - 1, t, id, scene);
    SessionIsMember(states, acts, e, t, id, scene);
    if b + 1 < e {
      LiveTokenIsThroughout(states, acts, pid, id, scene, b, e - 1, t);
    }
    assert IsStep(states, acts, e - 1);
    ScanStepKeepsMember(states[e - 1], acts[e - 1], pid, id, scene, t);
  }

  lemma SessionIsMember(states: seq<State>, acts: seq<Action>, i: nat, t: Token, id: AccountId, scene: Scene)
    requires IsRun(states, acts) && i < |states| && Session(states[i], t, id, scene)
    ensures t in MembersOf(states[i].db, states[i].now, AccountTokensKey(id, scene))
  {
    TokenIsListedUntilItExpires(states, acts, i, t, id, scene);
  }

  lemma {:induction false} DeletingPersists(states: seq<State>, acts: seq<Action>, pid: Pid, id: AccountId, scene: Scene,
                                            ks: seq<Token>, from: nat, to: nat)
    requires IsRun(states, acts) && from <= to < |states|
    requires pid in states[from].tasks && states[from].tasks[pid] == Deleting(id, scene, ks)
    requires forall m :: from <= m < to ==> acts[m] != DeleteTokens(pid) && acts[m] != Abort(pid)
    ensures pid in states[to].tasks && states[to].tasks[pid] == Deleting(id, scene, ks)
  {
    if from < to {
      DeletingPersists(states, acts, pid, id, scene, ks, from, to - 1);
      assert IsStep(states, acts, to - 1);
      assert Effect(states[to - 1], acts[to - 1]).tasks[pid] == Deleting(id, scene, ks);
    }
  }

  /**
   Logout ends sessions. Whatever else runs meanwhile, once the delete pipeline of a
   logout is through, every session that was live from the start of its scan to the
   end of it is gone for good: no later state has the token at all.
   */
  lemma LogoutEndsSessions(states: seq<State>, acts: seq<Action>, pid: Pid, id: AccountId, scene: Scene, ks: seq<Token>,
                           b: nat, e: nat, d: nat, n: nat, t: Token)
    requires IsRun(states, acts) && b < e < d < n < |states|
    requires acts[b] == BeginScan(pid, id, scene) && StillScanning(acts, pid, b, e)
    requires acts[e] == EndScan(pid, ks)
    requires forall m :: e < m < d ==> acts[m] != DeleteTokens(pid) && acts[m] != Abort(pid)
    requires acts[d] == DeleteTokens(pid)
    requires SessionFrom(states, t, id, scene, b, e)
    ensures Get(states[n].db, states[n].now, TokenKey(t)) == None
    ensures forall header :: Validate(states[n].db, states[n].now, t, header) == Unauthorized
  {
    LiveTokenIsThroughout(states, acts, pid, id, scene, b, e, t);
    assert IsStep(states, acts, e) && t in ks;
    RunKeepsInv(states, acts, e);
    assert Session(states[e], t, id, scene);
    SessionOwner(states[e], t, id, scene);
    OwnerPersists(states, acts, e, d, t);
    DeletingPersists(states, acts, pid, id, scene, ks, e + 1, d);
    RunKeepsInv(states, acts, d);
    assert IsStep(states, acts, d);
    OwnersAreKept(states[d], acts[d]);
    LogoutDbMeaning(states[d].db, states[d].now, id, scene, ks);
    DeadTokenStaysDeadInRun(states, acts, d + 1, n, t);
  }

  lemma {:induction false} OwnerPersists(states: seq<State>, acts: seq<Action>, m: nat, n: nat, t: Token)
    requires IsRun(states, acts) && m <= n < |states| && t in states[m].owner
    ensures t in states[n].owner && states[n].owner[t] == states[m].owner[t]
  {
    if m < n {
      OwnerPersists(states, acts, m, n - 1, t);
      RunKeepsInv(states, acts, n - 1);
      assert IsStep(states, acts, n - 1);
      OwnersAreKept(states[n - 1], acts[n - 1]);
    }
  }

  // -------------------------------------------------------- a session's life

  /** This step ends a login of (id, scene) with token `t`. */
  predicate EndsLogin(s: State, act: Action, t: Token, id: AccountId, scene: Scene) {
    act.Commit? && act.pid in s.tasks && s.tasks[act.pid].Ready?
    && s.tasks[act.pid].goal == ForLogin(t, scene) && s.tasks[act.pid].call.account.id == id
  }

  /** This step is the delete pipeline of a logout whose scan returned `t`. */
  predicate DeletesToken(s: State, act: Action, t: Token) {
    act.DeleteTokens? && act.pid in s.tasks && s.tasks[act.pid].Deleting? && t in s.tasks[act.pid].scanned
  }

  predicate StoredUntil(s: State, t: Token, id: AccountId, scene: Scene, expiry: nat) {
    TokenKey(t) in s.db && s.db[TokenKey(t)] == Entry(Text(IdentifierText(id, scene)), Some(expiry))
  }

  /** A login that ends has started a session, for the lifetime from now on. */
  lemma LoginStartsSession(s: State, act: Action, t: Token, id: AccountId, scene: Scene)
    requires Inv(s) && Enabled(s, act) && EndsLogin(s, act, t, id, scene)
    ensures StoredUntil(Next(s, act), t, id, scene, s.now + s.lifetime)
    ensures Session(Next(s, act), t, id, scene) && t in Next(s, act).owner
  {
    var key := AccountTokensKey(id, scene);
    LoginCommitDb(s, act, t, id, scene);
    assert Live(s.db, s.now, key) ==> s.db[key].value.Members?;
    LoginDbMeaning(s.db, s.now, t, id, scene, s.tasks[act.pid].call.codes, s.lifetime);
  }

  lemma LoginCommitDb(s: State, act: Action, t: Token, id: AccountId, scene: Scene)
    requires Enabled(s, act) && EndsLogin(s, act, t, id, scene)
    ensures var after := Next(s, act);
            && after.db == LoginDb(s.db, s.now, t, id, scene, s.tasks[act.pid].call.codes, s.lifetime)
            && after.now == s.now && t in after.owner
  {
  }

  /** Every step but a delete of the token itself leaves its entry alone: a refresh logs nobody out, nor does another login. */
  lemma StepKeepsEntry(s: State, act: Action, t: Token)
    requires Inv(s) && Enabled(s, act) && !DeletesToken(s, act, t)
    requires t in s.owner && TokenKey(t) in s.db
    ensures TokenKey(t) in Next(s, act).db && Next(s, act).db[TokenKey(t)] == s.db[TokenKey(t)]
  {
    match act
    case Commit(pid) =>
      CommitKeepsEntry(s, pid, t);
    case DeleteTokens(pid) =>
      LogoutDbMeaning(s.db, s.now, s.tasks[pid].owner, s.tasks[pid].scene, s.tasks[pid].scanned);
    case _ =>
  }

  lemma CommitKeepsEntry(s: State, pid: Pid, t: Token)
    requires Inv(s) && Enabled(s, Commit(pid)) && t in s.owner && TokenKey(t) in s.db
    ensures TokenKey(t) in Effect(s, Commit(pid)).db && Effect(s, Commit(pid)).db[TokenKey(t)] == s.db[TokenKey(t)]
  {
    var Ready(call, goal) := s.tasks[pid];
    if goal.ForLogin? {
      assert goal.token in s.tasks[pid].Login();
      LoginDbMeaning(s.db, s.now, goal.token, call.account.id, goal.scene, call.codes, s.lifetime);
    }
  }

  /** No logout deletes `t` between steps `c` and `n`. */
  ghost predicate Spared(states: seq<State>, acts: seq<Action>, c: nat, n: nat, t: Token)
    requires n <= |acts| && |states| == |acts| + 1
  {
    forall m :: c < m < n ==> !DeletesToken(states[m], acts[m], t)
  }

  lemma DeleteRemovesEntry(s: State, act: Action, t: Token)
    requires Enabled(s, act) && DeletesToken(s, act, t)
    ensures TokenKey(t) !in Next(s, act).db
  {
  }

  /** One step in the life of a token. */
  lemma TokenStep(s: State, act: Action, t: Token, id: AccountId, scene: Scene, expiry: nat, spared: bool)
    requires Inv(s) && Enabled(s, act) && t in s.owner
    requires if spared then StoredUntil(s, t, id, scene, expiry) else !Live(s.db, s.now, TokenKey(t))
    ensures t in Next(s, act).owner
    ensures if spared && !DeletesToken(s, act, t) then StoredUntil(Next(s, act), t, id, scene, expiry)
            else !Live(Next(s, act).db, Next(s, act).now, TokenKey(t))
  {
    OwnersAreKept(s, act);
    if !spared {
      DeadTokenStaysDead(s, act, t);
    } else if DeletesToken(s, act, t) {
      DeleteRemovesEntry(s, act, t);
    } else {
      StepKeepsEntry(s, act, t);
    }
  }

  lemma SparedOneMore(states: seq<State>, acts: seq<Action>, c: nat, n: nat, t: Token)
    requires |states| == |acts| + 1 && c < n < |acts|
    ensures Spared(states, acts, c, n + 1, t) <==> Spared(states, acts, c, n, t) && !DeletesToken(states[n], acts[n], t)
  {
  }

  ghost predicate Status(s: State, t: Token, id: AccountId, scene: Scene, expiry: nat, spared: bool) {
    t in s.owner && if spared then StoredUntil(s, t, id, scene, expiry) else !Live(s.db, s.now, TokenKey(t))
  }

  lemma RunTokenStep(states: seq<State>, acts: seq<Action>, i: nat, t: Token, id: AccountId, scene: Scene, expiry: nat, spared: bool)
    requires IsRun(states, acts) && i < |acts| && Status(states[i], t, id, scene, expiry, spared)
    ensures Status(states[i + 1], t, id, scene, expiry, spared && !DeletesToken(states[i], acts[i], t))
  {
    RunKeepsInv(states, acts, i);
    assert IsStep(states, acts, i);
    TokenStep(states[i], acts[i], t, id, scene, expiry, spared);
  }

  lemma RunLogin(states: seq<State>, acts: seq<Action>, c: nat, t: Token, id: AccountId, scene: Scene)
    requires IsRun(states, acts) && c < |acts| && EndsLogin(states[c], acts[c], t, id, scene)
    ensures Status(states[c + 1], t, id, scene, states[c].now + states[c].lifetime, true)
  {
    RunKeepsInv(states, acts, c);
    assert IsStep(states, acts, c);
    LoginStartsSession(states[c], acts[c], t, id, scene);
  }

  lemma {:induction false} TokenAfterLogin(states: seq<State>, acts: seq<Action>, c: nat, n: nat, t: Token, id: AccountId, scene: Scene)
    requires IsRun(states, acts) && c < n < |states| && EndsLogin(states[c], acts[c], t, id, scene)
    ensures Status(states[n], t, id, scene, states[c].now + states[c].lifetime, Spared(states, acts, c, n, t))
  {
    if n == c + 1 {
      RunLogin(states, acts, c, t, id, scene);
    } else {
      TokenAfterLogin(states, acts, c, n - 1, t, id, scene);
      RunTokenStep(states, acts, n - 1, t, id, scene, states[c].now + states[c].lifetime, Spared(states, acts, c, n - 1, t));
      SparedOneMore(states, acts, c, n - 1, t);
    }
  }

  lemma SessionIsAccepted(s: State, t: Token, id: AccountId, scene: Scene)
    ensures Session(s, t, id, scene) ==> Validate(s.db, s.now, t, None) == Accepted(Decimal(id), SceneText(scene))
    ensures !Live(s.db, s.now, TokenKey(t)) ==> forall header :: Validate(s.db, s.now, t, header) == Unauthorized
  {
    SplitInvertsIdentifier(id, scene);
  }

  /**
   A session lives exactly its life: from the login that stored its token, in every later
   state, it is live and validates if and only if its lifetime has not passed and no
   logout has deleted the token; otherwise it is refused.
   */
  lemma SessionLivesExactly(states: seq<State>, acts: seq<Action>, c: nat, n: nat, t: Token, id: AccountId, scene: Scene)
    requires IsRun(states, acts) && c < n < |states| && EndsLogin(states[c], acts[c], t, id, scene)
    ensures var s := states[n];
            var lives := s.now < states[c].now + states[c].lifetime && Spared(states, acts, c, n, t);
            && (Session(s, t, id, scene) <==> lives)
            && (lives ==> Validate(s.db, s.now, t, None) == Accepted(Decimal(id), SceneText(scene)))
            && (!lives ==> forall header :: Validate(s.db, s.now, t, header) == Unauthorized)
  {
    TokenAfterLogin(states, acts, c, n, t, id, scene);
    SessionIsAccepted(states[n], t, id, scene);
  }

  /** This step is the delete pipeline of a logout of (id, scene). */
  predicate Deletes(s: State, act: Action, id: AccountId, scene: Scene) {
    act.DeleteTokens? && act.pid in s.tasks && s.tasks[act.pid].Deleting?
    && s.tasks[act.pid].owner == id && s.tasks[act.pid].scene == scene
  }

  /** A logout touches nothing of another account or another scene, and no permission set. */
  lemma LogoutSparesOthers(states: seq<State>, acts: seq<Action>, d: nat, id: AccountId, scene: Scene)
    requires IsRun(states, acts) && d < |acts| && Deletes(states[d], acts[d], id, scene)
    ensures var db, db' := states[d].db, states[d + 1].db;
            && (forall t, i: AccountId, c :: Session(states[d], t, i, c) && (i, c) != (id, scene) ==>
                  TokenKey(t) in db' && db'[TokenKey(t)] == db[TokenKey(t)])
            && (forall k :: k in db && !k.TokenKey? && k != AccountTokensKey(id, scene) ==> k in db' && db'[k] == db[k])
            && (forall k :: k in db' ==> k in db)
  {
    var s := states[d];
    RunKeepsInv(states, acts, d);
    assert IsStep(states, acts, d);
    var ks := s.tasks[acts[d].pid].scanned;
    LogoutDbMeaning(s.db, s.now, id, scene, ks);
    assert LogoutOwned(s, s.tasks[acts[d].pid]);
    forall t, i: AccountId, c | Session(s, t, i, c) && (i, c) != (id, scene)
      ensures t !in ks
    {
      SessionOwner(s, t, i, c);
      assert t in ks ==> t in TokenSet(ks);
    }
  }

  /** The early return is taken only when no session was live through the whole scan. */
  lemma EmptyScanMeansNoSession(states: seq<State>, acts: seq<Action>, pid: Pid, id: AccountId, scene: Scene,
                                b: nat, e: nat, t: Token)
    requires IsRun(states, acts) && b < e < |acts|
    requires acts[b] == BeginScan(pid, id, scene) && StillScanning(acts, pid, b, e)
    requires acts[e] == EndScan(pid, [])
    ensures !SessionFrom(states, t, id, scene, b, e)
  {
    assert IsStep(states, acts, e);
    if SessionFrom(states, t, id, scene, b, e) {
      LiveTokenIsThroughout(states, acts, pid, id, scene, b, e, t);
    }
  }

  // --------------------------------------------------- permission cache

  /** The cached set is empty and unwritten, or the outcome of one whole call: never a mixture. */
  lemma CacheIsOneWholeCall(states: seq<State>, acts: seq<Action>, i: nat, id: AccountId)
    requires IsRun(states, acts) && i < |states|
    ensures var s := states[i];
            || (id !in s.writes && CachedCodes(s, id) == {})
            || (exists call: Call :: call.account.id == id && WholeCall(s.history, call) && CachedCodes(s, id) == call.codes)
  {
    RunKeepsInv(states, acts, i);
    var s := states[i];
    assert CachedCodes(s, id) == if id in s.writes then s.writes[id].codes else {};
  }

  /** This step stores the outcome of `call`. */
  predicate Commits(s: State, act: Action, call: Call) {
    act.Commit? && act.pid in s.tasks && s.tasks[act.pid].Ready? && s.tasks[act.pid].call == call
  }

  predicate WritesPermissionsOf(s: State, act: Action, id: AccountId) {
    act.Commit? && act.pid in s.tasks && s.tasks[act.pid].Ready? && s.tasks[act.pid].call.account.id == id
  }

  lemma {:induction false} LastWritePersists(states: seq<State>, acts: seq<Action>, c: nat, n: nat, call: Call)
    requires IsRun(states, acts) && c < n < |states|
    requires Commits(states[c], acts[c], call)
    requires forall m :: c < m < n ==> !WritesPermissionsOf(states[m], acts[m], call.account.id)
    ensures call.account.id in states[n].writes && states[n].writes[call.account.id] == call
  {
    assert IsStep(states, acts, n - 1);
    if c + 1 < n {
      LastWritePersists(states, acts, c, n - 1, call);
      assert !WritesPermissionsOf(states[n - 1], acts[n - 1], call.account.id);
    }
  }

  /**
   The cache refines the rule. After a login or refresh committed `call`, as long as the
   tables are still the ones its first read saw and nobody wrote the account's set
   again, the cached check admits exactly the requests the tables allow.
   */
  lemma CheckAgreesWithRule(states: seq<State>, acts: seq<Action>, c: nat, n: nat, call: Call, app: string, checked: Code)
    requires IsRun(states, acts) && c < n < |states|
    requires Commits(states[c], acts[c], call)
    requires forall m :: c < m < n ==> !WritesPermissionsOf(states[m], acts[m], call.account.id)
    requires forall v :: call.first <= v < |states[n].history| ==> states[n].history[v] == Current(states[n])
    ensures Admits(call.account, CachedCodes(states[n], call.account.id), app, checked)
       <==> MayCall(Current(states[n]), call.account, app, checked)
  {
    LastWritePersists(states, acts, c, n, call);
    RunKeepsInv(states, acts, n);
    var s := states[n];
    assert CachedCodes(s, call.account.id) == call.codes;
    assert WholeCall(s.history, call);
    WholeCallAgreesWithRule(Current(s), call.account, app, checked);
  }
}
