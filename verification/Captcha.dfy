/**
 Captcha codes: generate (look, then store) and verify (look, then delete), each two
 Redis commands with an await between them.
 */
module Captcha {
  import opened Optional

  type Key = string
  type Pid = nat

  /** `serial` numbers the codes in the order they were stored, to tell equal texts apart. */
  datatype Entry = Entry(code: string, expiry: nat, serial: nat)

  type Store = map<Key, Entry>

  predicate Live(store: Store, now: nat, key: Key) {
    key in store && now < store[key].expiry
  }

  /** `await r.get(key)`, as an `if` sees it: an empty text counts as nothing. */
  function Found(store: Store, now: nat, key: Key): Option<Entry> {
    if Live(store, now, key) && store[key].code != "" then Some(store[key]) else None
  }

  // ------------------------------------------------- one call, undisturbed

  datatype Generated = Sent(code: string) | TooFrequent

  class CodeStore {
    var store: Store
    var now: nat
    var stored: nat
    const lower: string -> string

    constructor (lower: string -> string)
      ensures this.lower == lower && store == map[] && stored == 0
    {
      this.lower, store, stored, now := lower, map[], 0, 0;
    }

    method GenerateCaptchaCode(key: Key, code: string, seconds: nat) returns (r: Generated)
      modifies this`store, this`stored
      ensures if key in old(store) && now < old(store)[key].expiry && old(store)[key].code != "" then
                r == TooFrequent && store == old(store)
              else r == Sent(code) && store == old(store)[key := Entry(code, now + seconds, old(stored))]
      ensures stored == old(stored) + if r.Sent? then 1 else 0
    {
      if Found(store, now, key).Some? {
        return TooFrequent;
      }
      store := store[key := Entry(code, now + seconds, stored)];
      stored := stored + 1;
      return Sent(code);
    }

    method VerifyCaptchaCode(key: Key, code: string) returns (ok: bool)
      modifies this`store
      ensures ok <==> key in old(store) && now < old(store)[key].expiry && old(store)[key].code != ""
                      && lower(old(store)[key].code) == lower(code)
      ensures store == if ok then old(store) - {key} else old(store)
    {
      var cached := Found(store, now, key);
      if cached.None? {
        return false;
      }
      ok := lower(cached.value.code) == lower(code);
      if ok {
        store := store - {key};
      }
    }
  }

  // ------------------------------------------------------- state machine

  datatype Task =
    | Storing(key: Key, code: string, seconds: nat)
    | Deleting(key: Key, given: string, serial: nat, readAt: nat)

  datatype Issue = Issue(key: Key, code: string, expiry: nat)

  /** A verification that returned true. */
  datatype Acceptance = Acceptance(key: Key, given: string, serial: nat, readAt: nat)

  /** `issued[n]` is the n-th code stored; `accepted` the verifications that succeeded, in order. */
  datatype State = State(
    store: Store, now: nat, tasks: map<Pid, Task>, lower: string -> string,
    issued: seq<Issue>, accepted: seq<Acceptance>)

  datatype Action =
    | Tick(seconds: nat)
    | BeginGenerate(pid: Pid, key: Key, code: string, seconds: nat)
    | StoreCode(pid: Pid)
    | BeginVerify(pid: Pid, key: Key, given: string)
    | DeleteCode(pid: Pid)
    | Abort(pid: Pid)

  ghost predicate Init(s: State) {
    s.store == map[] && s.tasks == map[] && s.issued == [] && s.accepted == []
  }

  ghost predicate Enabled(s: State, act: Action) {
    match act
    case Tick(_) => true
    case BeginGenerate(pid, _, _, _) => pid !in s.tasks
    case StoreCode(pid) => pid in s.tasks && s.tasks[pid].Storing?
    case BeginVerify(pid, _, _) => pid !in s.tasks
    case DeleteCode(pid) => pid in s.tasks && s.tasks[pid].Deleting?
    case Abort(pid) => pid in s.tasks
  }

  /** Whether a verification that reads now will succeed. */
  predicate Matches(s: State, key: Key, given: string) {
    Found(s.store, s.now, key).Some? && s.lower(s.store[key].code) == s.lower(given)
  }

  function Next(s: State, act: Action): State {
    match act
    case Tick(seconds) => s.(now := s.now + seconds)
    case BeginGenerate(pid, key, code, seconds) =>
      if Found(s.store, s.now, key).Some? then s
      else s.(tasks := s.tasks[pid := Storing(key, code, seconds)])
    case StoreCode(pid) =>
      if pid !in s.tasks || !s.tasks[pid].Storing? then s else
      var Storing(key, code, seconds) := s.tasks[pid];
      s.(tasks := s.tasks - {pid},
         store := s.store[key := Entry(code, s.now + seconds, |s.issued|)],
         issued := s.issued + [Issue(key, code, s.now + seconds)])
    case BeginVerify(pid, key, given) =>
      if Matches(s, key, given) then s.(tasks := s.tasks[pid := Deleting(key, given, s.store[key].serial, s.now)])
      else s
    case DeleteCode(pid) =>
      if pid !in s.tasks || !s.tasks[pid].Deleting? then s else
      var Deleting(key, given, serial, readAt) := s.tasks[pid];
      s.(tasks := s.tasks - {pid}, store := s.store - {key},
         accepted := s.accepted + [Acceptance(key, given, serial, readAt)])
    case Abort(pid) => s.(tasks := s.tasks - {pid})
  }

  ghost predicate IsStep(states: seq<State>, acts: seq<Action>, i: nat)
    requires i < |acts| && |states| == |acts| + 1
  {
    Enabled(states[i], acts[i]) && states[i + 1] == Next(states[i], acts[i])
  }

  ghost predicate IsRun(states: seq<State>, acts: seq<Action>) {
    && |states| == |acts| + 1
    && Init(states[0])
    && forall i: nat :: i < |acts| ==> IsStep(states, acts, i)
  }

  // ---------------------------------------------------------- invariants

  /** A match is against a stored code of this key, read before it expired. */
  ghost predicate Sound(s: State, key: Key, given: string, serial: nat, readAt: nat) {
    && serial < |s.issued| && s.issued[serial].key == key && s.issued[serial].code != ""
    && s.lower(s.issued[serial].code) == s.lower(given) && readAt < s.issued[serial].expiry
  }

  ghost predicate TaskSound(s: State, task: Task) {
    task.Deleting? ==> Sound(s, task.key, task.given, task.serial, task.readAt)
  }

  ghost predicate EntryIssued(s: State, key: Key) {
    key in s.store ==>
      var e := s.store[key];
      e.serial < |s.issued| && s.issued[e.serial] == Issue(key, e.code, e.expiry)
  }

  ghost predicate Inv(s: State) {
    && (forall key :: EntryIssued(s, key))
    && (forall p :: p in s.tasks ==> TaskSound(s, s.tasks[p]))
    && (forall a :: a in s.accepted ==> Sound(s, a.key, a.given, a.serial, a.readAt))
    // an accepted code is gone from the store
    && (forall a, key :: a in s.accepted && key in s.store ==> s.store[key].serial != a.serial)
  }

  lemma StoreKeepsInv(s: State, act: Action)
    requires Inv(s) && Enabled(s, act) && act.StoreCode?
    ensures Inv(Next(s, act))
  {
    var s' := Next(s, act);
    assert forall n :: 0 <= n < |s.issued| ==> s'.issued[n] == s.issued[n];
    forall key ensures EntryIssued(s', key) {
      assert EntryIssued(s, key);
    }
    forall p | p in s'.tasks ensures TaskSound(s', s'.tasks[p]) {
      assert TaskSound(s, s.tasks[p]);
    }
  }

  lemma DeleteKeepsInv(s: State, act: Action)
    requires Inv(s) && Enabled(s, act) && act.DeleteCode?
    ensures Inv(Next(s, act))
  {
    var s' := Next(s, act);
    var Deleting(k, given, serial, readAt) := s.tasks[act.pid];
    assert TaskSound(s, s.tasks[act.pid]);
    forall key ensures EntryIssued(s', key) {
      assert EntryIssued(s, key);
    }
    forall a, key | a in s'.accepted && key in s'.store ensures s'.store[key].serial != a.serial {
      assert EntryIssued(s, key);
    }
    forall p | p in s'.tasks ensures TaskSound(s', s'.tasks[p]) {
      assert TaskSound(s, s.tasks[p]);
    }
  }

  lemma BeginKeepsInv(s: State, act: Action)
    requires Inv(s) && Enabled(s, act) && !act.StoreCode? && !act.DeleteCode?
    ensures Inv(Next(s, act))
  {
    var s' := Next(s, act);
    forall key ensures EntryIssued(s', key) {
      assert EntryIssued(s, key);
    }
    forall p | p in s'.tasks ensures TaskSound(s', s'.tasks[p]) {
      if p in s.tasks && s.tasks[p] == s'.tasks[p] {
        assert TaskSound(s, s.tasks[p]);
      } else if act.BeginVerify? {
        assert EntryIssued(s, act.key);
      }
    }
  }

  lemma {:induction false} RunKeepsInv(states: seq<State>, acts: seq<Action>, i: nat)
    requires IsRun(states, acts) && i < |states|
    ensures Inv(states[i])
  {
    if i > 0 {
      RunKeepsInv(states, acts, i - 1);
      assert IsStep(states, acts, i - 1);
      var s, act := states[i - 1], acts[i - 1];
      if act.StoreCode? { StoreKeepsInv(s, act); }
      else if act.DeleteCode? { DeleteKeepsInv(s, act); }
      else { BeginKeepsInv(s, act); }
    }
  }

  // ------------------------------------------------------------- any overlap

  /** Every acceptance, however calls overlap, matches a code stored for that key and read before it expired. */
  lemma AcceptanceMatchesIssuedCode(states: seq<State>, acts: seq<Action>, i: nat, a: Acceptance)
    requires IsRun(states, acts) && i < |states| && a in states[i].accepted
    ensures Sound(states[i], a.key, a.given, a.serial, a.readAt)
  {
    RunKeepsInv(states, acts, i);
  }

  /** Once a verification has accepted a code, no verification that starts later can match the same one. */
  lemma AcceptedCodeNeverMatchesAgain(states: seq<State>, acts: seq<Action>, i: nat, a: Acceptance, key: Key, given: string)
    requires IsRun(states, acts) && i < |states| && a in states[i].accepted
    requires Matches(states[i], key, given)
    ensures states[i].store[key].serial != a.serial
  {
    RunKeepsInv(states, acts, i);
  }

  // ------------------------------------------- one call's steps, undisturbed

  /** At any point any time may pass. */
  lemma TimeIsFree(s: State, seconds: nat)
    ensures Enabled(s, Tick(seconds)) && Next(s, Tick(seconds)) == s.(now := s.now + seconds)
  {
  }

  /** Without interruption, look and store have the effect `GenerateCaptchaCode` promises. */
  lemma UndisturbedGenerate(s: State, pid: Pid, key: Key, code: string, seconds: nat)
    requires pid !in s.tasks
    ensures var looked := Next(s, BeginGenerate(pid, key, code, seconds));
            if key in s.store && s.now < s.store[key].expiry && s.store[key].code != "" then looked == s
            else Enabled(looked, StoreCode(pid)) &&
                 Next(looked, StoreCode(pid)) == s.(store := s.store[key := Entry(code, s.now + seconds, |s.issued|)],
                                                    issued := s.issued + [Issue(key, code, s.now + seconds)])
  {
  }

  /** Without interruption, look and delete have the effect `VerifyCaptchaCode` promises. */
  lemma UndisturbedVerify(s: State, pid: Pid, key: Key, given: string)
    requires pid !in s.tasks
    ensures var looked := Next(s, BeginVerify(pid, key, given));
            if key in s.store && s.now < s.store[key].expiry && s.store[key].code != "" && s.lower(s.store[key].code) == s.lower(given)
            then Enabled(looked, DeleteCode(pid)) &&
                 Next(looked, DeleteCode(pid)) ==
                   s.(store := s.store - {key}, accepted := s.accepted + [Acceptance(key, given, s.store[key].serial, s.now)])
            else looked == s
  {
    if Matches(s, key, given) {
      assert s.tasks[pid := Deleting(key, given, s.store[key].serial, s.now)] - {pid} == s.tasks;
    }
  }

  // ------------------------------------------------- what may still follow

  /** The second run is the first one, carried on. */
  ghost predicate Continues(states: seq<State>, acts: seq<Action>, more: seq<State>, moreActs: seq<Action>) {
    && IsRun(more, moreActs) && |states| == |acts| + 1 && |acts| <= |moreActs|
    && more[..|states|] == states && moreActs[..|acts|] == acts
  }

  /** A run can be carried on by any enabled step. */
  lemma OneMoreStep(states: seq<State>, acts: seq<Action>, act: Action) returns (more: seq<State>, moreActs: seq<Action>)
    requires IsRun(states, acts) && Enabled(states[|acts|], act)
    ensures moreActs == acts + [act] && more == states + [Next(states[|acts|], act)]
    ensures IsRun(more, moreActs)
  {
    more, moreActs := states + [Next(states[|acts|], act)], acts + [act];
    forall j: nat | j < |moreActs| ensures IsStep(more, moreActs, j) {
      if j < |acts| {
        assert IsStep(states, acts, j);
      }
    }
  }

  lemma PrefixIsRun(states: seq<State>, acts: seq<Action>, i: nat)
    requires IsRun(states, acts) && i <= |acts|
    ensures IsRun(states[..i + 1], acts[..i])
  {
    var part, partActs := states[..i + 1], acts[..i];
    forall j: nat | j < i ensures IsStep(part, partActs, j) {
      assert IsStep(states, acts, j);
    }
  }

  lemma TwoMoreSteps(states: seq<State>, acts: seq<Action>, i: nat, a: Action, b: Action)
    returns (more: seq<State>, moreActs: seq<Action>)
    requires IsRun(states, acts) && i <= |acts|
    requires Enabled(states[i], a) && Enabled(Next(states[i], a), b)
    ensures Continues(states[..i + 1], acts[..i], more, moreActs)
    ensures moreActs == acts[..i] + [a, b]
    ensures more == states[..i + 1] + [Next(states[i], a), Next(Next(states[i], a), b)]
  {
    PrefixIsRun(states, acts, i);
    more, moreActs := OneMoreStep(states[..i + 1], acts[..i], a);
    more, moreActs := OneMoreStep(more, moreActs, b);
  }

  // -------------------------------------------------- accepted at most once

  ghost predicate DistinctSerials(accepted: seq<Acceptance>) {
    forall m, n :: 0 <= m < n < |accepted| ==> accepted[m].serial != accepted[n].serial
  }

  /** The guard of a verification: if it matches, nobody is about to delete the same code. */
  ghost predicate VerifiesAlone(s: State, act: Action) {
    act.BeginVerify? && Matches(s, act.key, act.given) ==>
      forall p :: p in s.tasks && s.tasks[p].Deleting? ==> s.tasks[p].serial != s.store[act.key].serial
  }

  ghost predicate AllVerifyAlone(states: seq<State>, acts: seq<Action>)
    requires |states| == |acts| + 1
  {
    forall i :: 0 <= i < |acts| ==> VerifiesAlone(states[i], acts[i])
  }

  /** No code is accepted twice, now or by the verifications in flight. */
  ghost predicate NoTwins(s: State) {
    && DistinctSerials(s.accepted)
    && (forall p, q :: p in s.tasks && q in s.tasks && p != q && s.tasks[p].Deleting? && s.tasks[q].Deleting? ==>
          s.tasks[p].serial != s.tasks[q].serial)
    && (forall p, a :: p in s.tasks && s.tasks[p].Deleting? && a in s.accepted ==> s.tasks[p].serial != a.serial)
  }

  lemma StepKeepsNoTwins(s: State, act: Action)
    requires Inv(s) && NoTwins(s) && Enabled(s, act) && VerifiesAlone(s, act)
    ensures NoTwins(Next(s, act))
  {
  }

  lemma {:induction false} AloneMeansNoTwins(states: seq<State>, acts: seq<Action>, i: nat)
    requires IsRun(states, acts) && i < |states|
    requires forall j :: 0 <= j < i ==> VerifiesAlone(states[j], acts[j])
    ensures NoTwins(states[i])
  {
    if i > 0 {
      AloneMeansNoTwins(states, acts, i - 1);
      RunKeepsInv(states, acts, i - 1);
      assert IsStep(states, acts, i - 1);
      StepKeepsNoTwins(states[i - 1], acts[i - 1]);
    }
  }

  /** However the calls in flight end, as long as no further verification starts, no code is accepted twice. */
  ghost predicate StaysSingle(states: seq<State>, acts: seq<Action>) {
    forall more: seq<State>, moreActs: seq<Action> :: Continues(states, acts, more, moreActs)
      && (forall i :: |acts| <= i < |moreActs| ==> !moreActs[i].BeginVerify?)
      ==> DistinctSerials(more[|moreActs|].accepted)
  }

  /** Two verifications of one code, both past their look, can both accept it. */
  lemma TwinsCanBothAccept(states: seq<State>, acts: seq<Action>, i: nat)
    requires IsRun(states, acts) && i < |acts| && !VerifiesAlone(states[i], acts[i])
    ensures !StaysSingle(states[..i + 2], acts[..i + 1])
  {
    var s, act := states[i], acts[i];
    assert IsStep(states, acts, i);
    var p :| p in s.tasks && s.tasks[p].Deleting? && s.tasks[p].serial == s.store[act.key].serial;
    var more, moreActs := TwoMoreSteps(states, acts, i + 1, DeleteCode(p), DeleteCode(act.pid));
    var accepted := more[|moreActs|].accepted;
    var n := |states[i + 1].accepted|;
    assert |accepted| == n + 2 && accepted[n].serial == accepted[n + 1].serial;
    assert forall k :: i + 1 <= k < |moreActs| ==> moreActs[k] == DeleteCode(p) || moreActs[k] == DeleteCode(act.pid);
  }

  lemma AloneStaysSingle(states: seq<State>, acts: seq<Action>, i: nat)
    requires IsRun(states, acts) && AllVerifyAlone(states, acts) && i <= |acts|
    ensures StaysSingle(states[..i + 1], acts[..i])
  {
    forall more: seq<State>, moreActs: seq<Action> | Continues(states[..i + 1], acts[..i], more, moreActs)
      && (forall k :: i <= k < |moreActs| ==> !moreActs[k].BeginVerify?)
      ensures DistinctSerials(more[|moreActs|].accepted)
    {
      forall j | 0 <= j < |moreActs| ensures VerifiesAlone(more[j], moreActs[j]) {
        if j < i {
          assert more[..i + 1][j] == states[j] && moreActs[..i][j] == acts[j];
        }
      }
      AloneMeansNoTwins(more, moreActs, |moreActs|);
    }
  }

  /**
   Single acceptance, exactly: a run meets the guard at every verification if and only
   if at no point of it the calls in flight can still end with a code accepted twice.
   */
  lemma AcceptedOnceIffVerifiedAlone(states: seq<State>, acts: seq<Action>)
    requires IsRun(states, acts)
    ensures AllVerifyAlone(states, acts) <==> forall i :: 0 <= i <= |acts| ==> StaysSingle(states[..i + 1], acts[..i])
  {
    if AllVerifyAlone(states, acts) {
      forall i | 0 <= i <= |acts| ensures StaysSingle(states[..i + 1], acts[..i]) {
        AloneStaysSingle(states, acts, i);
      }
    } else {
      var i :| 0 <= i < |acts| && !VerifiesAlone(states[i], acts[i]);
      TwinsCanBothAccept(states, acts, i);
      assert !StaysSingle(states[..(i + 1) + 1], acts[..i + 1]);
    }
  }

  // ------------------------------------------- a live code is not replaced

  /** A code that a later look would find. */
  predicate Lasting(code: string, seconds: nat) {
    code != "" && seconds > 0
  }

  /** The guard of a generation: if it finds nothing, nobody is about to store under the key, unless neither code would be found. */
  ghost predicate GeneratesAlone(s: State, act: Action) {
    act.BeginGenerate? && Found(s.store, s.now, act.key).None? ==>
      forall p :: p in s.tasks && s.tasks[p].Storing? && s.tasks[p].key == act.key ==>
        !Lasting(act.code, act.seconds) && !Lasting(s.tasks[p].code, s.tasks[p].seconds)
  }

  ghost predicate AllGenerateAlone(states: seq<State>, acts: seq<Action>)
    requires |states| == |acts| + 1
  {
    forall i :: 0 <= i < |acts| ==> GeneratesAlone(states[i], acts[i])
  }

  predicate ReplacesLive(s: State, act: Action) {
    act.StoreCode? && act.pid in s.tasks && s.tasks[act.pid].Storing? && Found(s.store, s.now, s.tasks[act.pid].key).Some?
  }

  predicate SameKeyStores(a: Task, b: Task) {
    a.Storing? && b.Storing? && a.key == b.key
  }

  /** Every pending store still finds its key free, and does not take it from another pending store. */
  ghost predicate Calm(s: State) {
    && (forall p :: p in s.tasks && s.tasks[p].Storing? ==> Found(s.store, s.now, s.tasks[p].key).None?)
    && (forall p, q :: p in s.tasks && q in s.tasks && p != q && SameKeyStores(s.tasks[p], s.tasks[q]) ==>
          !Lasting(s.tasks[p].code, s.tasks[p].seconds))
  }

  lemma StepKeepsCalm(s: State, act: Action)
    requires Calm(s) && Enabled(s, act) && GeneratesAlone(s, act)
    ensures Calm(Next(s, act))
  {
  }

  lemma {:induction false} AloneMeansCalm(states: seq<State>, acts: seq<Action>, i: nat)
    requires IsRun(states, acts) && i < |states|
    requires forall j :: 0 <= j < i ==> GeneratesAlone(states[j], acts[j])
    ensures Calm(states[i])
  {
    if i > 0 {
      AloneMeansCalm(states, acts, i - 1);
      assert IsStep(states, acts, i - 1);
      StepKeepsCalm(states[i - 1], acts[i - 1]);
    }
  }

  /** However the calls in flight end, as long as no further generation starts, no store replaces a live code. */
  ghost predicate StaysUnreplaced(states: seq<State>, acts: seq<Action>) {
    forall more: seq<State>, moreActs: seq<Action> :: Continues(states, acts, more, moreActs)
      && (forall i :: |acts| <= i < |moreActs| ==> !moreActs[i].BeginGenerate?)
      ==> forall i :: 0 <= i < |moreActs| ==> !ReplacesLive(more[i], moreActs[i])
  }

  /** Of two pending stores under one key, the second replaces what the first stored, if that lasts. */
  lemma TwoStoresReplace(s: State, p: Pid, q: Pid)
    requires p in s.tasks && q in s.tasks && p != q && s.tasks[p].Storing? && s.tasks[q].Storing?
    requires s.tasks[p].key == s.tasks[q].key && Lasting(s.tasks[p].code, s.tasks[p].seconds)
    ensures Enabled(s, StoreCode(p)) && Enabled(Next(s, StoreCode(p)), StoreCode(q))
    ensures ReplacesLive(Next(s, StoreCode(p)), StoreCode(q))
  {
  }

  lemma PendingStoresCanReplace(states: seq<State>, acts: seq<Action>, i: nat)
    requires IsRun(states, acts) && i < |acts| && !GeneratesAlone(states[i], acts[i])
    ensures !StaysUnreplaced(states[..i + 2], acts[..i + 1])
  {
    var s, act := states[i], acts[i];
    assert IsStep(states, acts, i);
    var p :| p in s.tasks && s.tasks[p].Storing? && s.tasks[p].key == act.key
             && (Lasting(act.code, act.seconds) || Lasting(s.tasks[p].code, s.tasks[p].seconds));
    var x, y := if Lasting(act.code, act.seconds) then act.pid else p, if Lasting(act.code, act.seconds) then p else act.pid;
    TwoStoresReplace(states[i + 1], x, y);
    var more, moreActs := TwoMoreSteps(states, acts, i + 1, StoreCode(x), StoreCode(y));
    assert more[i + 2] == Next(states[i + 1], StoreCode(x)) && moreActs[i + 2] == StoreCode(y);
    assert forall k :: i + 1 <= k < |moreActs| ==> moreActs[k] == StoreCode(x) || moreActs[k] == StoreCode(y);
  }

  lemma AloneStaysUnreplaced(states: seq<State>, acts: seq<Action>, i: nat)
    requires IsRun(states, acts) && AllGenerateAlone(states, acts) && i <= |acts|
    ensures StaysUnreplaced(states[..i + 1], acts[..i])
  {
    forall more: seq<State>, moreActs: seq<Action>, n: nat | Continues(states[..i + 1], acts[..i], more, moreActs)
      && (forall k :: i <= k < |moreActs| ==> !moreActs[k].BeginGenerate?) && n < |moreActs|
      ensures !ReplacesLive(more[n], moreActs[n])
    {
      forall j | 0 <= j < |moreActs| ensures GeneratesAlone(more[j], moreActs[j]) {
        if j < i {
          assert more[..i + 1][j] == states[j] && moreActs[..i][j] == acts[j];
        }
      }
      AloneMeansCalm(more, moreActs, n);
    }
  }

  /**
   Replacement, exactly: a run meets the guard at every generation if and only if at no
   point of it the calls in flight can still end with a live code replaced.
   */
  lemma NeverReplacedIffGeneratedAlone(states: seq<State>, acts: seq<Action>)
    requires IsRun(states, acts)
    ensures AllGenerateAlone(states, acts) <==> forall i :: 0 <= i <= |acts| ==> StaysUnreplaced(states[..i + 1], acts[..i])
  {
    if AllGenerateAlone(states, acts) {
      forall i | 0 <= i <= |acts| ensures StaysUnreplaced(states[..i + 1], acts[..i]) {
        AloneStaysUnreplaced(states, acts, i);
      }
    } else {
      var i :| 0 <= i < |acts| && !GeneratesAlone(states[i], acts[i]);
      PendingStoresCanReplace(states, acts, i);
      assert !StaysUnreplaced(states[..(i + 1) + 1], acts[..i + 1]);
    }
  }

  // ------------------------------------------------- no overlap on one key

  /** No call on a key starts before the one before it on that key ended. */
  ghost predicate NonOverlapping(states: seq<State>, acts: seq<Action>)
    requires |states| == |acts| + 1
  {
    forall i :: 0 <= i < |acts| && (acts[i].BeginGenerate? || acts[i].BeginVerify?) ==>
      forall p :: p in states[i].tasks ==> states[i].tasks[p].key != acts[i].key
  }

  /** Without overlap on a key both guards are met. */
  lemma NonOverlappingIsAlone(states: seq<State>, acts: seq<Action>)
    requires IsRun(states, acts) && NonOverlapping(states, acts)
    ensures AllVerifyAlone(states, acts) && AllGenerateAlone(states, acts)
  {
    forall i | 0 <= i < |acts| ensures VerifiesAlone(states[i], acts[i]) {
      RunKeepsInv(states, acts, i);
      if acts[i].BeginVerify? {
        assert EntryIssued(states[i], acts[i].key);
        assert forall p :: p in states[i].tasks ==> TaskSound(states[i], states[i].tasks[p]);
      }
    }
  }

  /** A live code is never replaced. */
  lemma LiveCodeIsNotReplaced(states: seq<State>, acts: seq<Action>, i: nat)
    requires IsRun(states, acts) && NonOverlapping(states, acts)
    requires i < |acts|
    ensures !ReplacesLive(states[i], acts[i])
  {
    NonOverlappingIsAlone(states, acts);
    AloneMeansCalm(states, acts, i);
  }

  /** Each stored code is accepted at most once. */
  lemma CodeIsAcceptedOnce(states: seq<State>, acts: seq<Action>, i: nat)
    requires IsRun(states, acts) && NonOverlapping(states, acts) && i < |states|
    ensures DistinctSerials(states[i].accepted)
  {
    NonOverlappingIsAlone(states, acts);
    AloneMeansNoTwins(states, acts, i);
  }

  /** Every pending delete still meets the code it matched. */
  ghost predicate Undisturbed(s: State) {
    && (forall p, q :: p in s.tasks && q in s.tasks && p != q ==> s.tasks[p].key != s.tasks[q].key)
    && (forall p :: p in s.tasks && s.tasks[p].Deleting? ==>
          s.tasks[p].key in s.store && s.store[s.tasks[p].key].serial == s.tasks[p].serial)
  }

  lemma StepKeepsUndisturbed(s: State, act: Action)
    requires Undisturbed(s) && Enabled(s, act)
    requires act.BeginGenerate? || act.BeginVerify? ==> forall p :: p in s.tasks ==> s.tasks[p].key != act.key
    ensures Undisturbed(Next(s, act))
  {
  }

  lemma {:induction false} NonOverlappingIsUndisturbed(states: seq<State>, acts: seq<Action>, i: nat)
    requires IsRun(states, acts) && NonOverlapping(states, acts) && i < |states|
    ensures Undisturbed(states[i])
  {
    if i > 0 {
      NonOverlappingIsUndisturbed(states, acts, i - 1);
      assert IsStep(states, acts, i - 1);
      StepKeepsUndisturbed(states[i - 1], acts[i - 1]);
    }
  }

  predicate Holds(s: State, key: Key, e: Entry) {
    key in s.store && s.store[key] == e
  }

  ghost predicate AcceptedSerial(s: State, serial: nat) {
    exists a :: a in s.accepted && a.serial == serial
  }

  /** Acceptances are never forgotten. */
  lemma AcceptedStays(s: State, act: Action, serial: nat)
    requires AcceptedSerial(s, serial)
    ensures AcceptedSerial(Next(s, act), serial)
  {
  }

  lemma LiveCodeFalls(s: State, act: Action, key: Key, e: Entry)
    requires Inv(s) && Calm(s) && Undisturbed(s) && Enabled(s, act)
    requires e.code != "" && Next(s, act).now < e.expiry && Holds(s, key, e)
    ensures !Holds(Next(s, act), key, e) ==> AcceptedSerial(Next(s, act), e.serial)
  {
  }

  lemma LiveCodeStep(s: State, act: Action, key: Key, e: Entry)
    requires Inv(s) && Calm(s) && Undisturbed(s) && Enabled(s, act) && Inv(Next(s, act))
    requires e.code != "" && Next(s, act).now < e.expiry
    requires Holds(s, key, e) || AcceptedSerial(s, e.serial)
    ensures Holds(Next(s, act), key, e) <==> !AcceptedSerial(Next(s, act), e.serial)
  {
    if AcceptedSerial(s, e.serial) {
      AcceptedStays(s, act, e.serial);
    } else {
      LiveCodeFalls(s, act, key, e);
    }
  }

  /**
   A live code leaves the store exactly by being accepted: until it expires it stands
   unchanged if and only if no verification has accepted it. Failed verifications and
   refused generations, in particular, change nothing.
   */
  lemma {:induction false} LiveCodeStandsUntilAccepted(states: seq<State>, acts: seq<Action>, m: nat, n: nat, key: Key, e: Entry)
    requires IsRun(states, acts) && NonOverlapping(states, acts) && m <= n < |states|
    requires Holds(states[m], key, e) && e.code != "" && states[n].now < e.expiry
    ensures Holds(states[n], key, e) <==> !AcceptedSerial(states[n], e.serial)
  {
    RunKeepsInv(states, acts, n);
    if m < n {
      assert IsStep(states, acts, n - 1);
      LiveCodeStandsUntilAccepted(states, acts, m, n - 1, key, e);
      RunKeepsInv(states, acts, n - 1);
      NonOverlappingIsAlone(states, acts);
      AloneMeansCalm(states, acts, n - 1);
      NonOverlappingIsUndisturbed(states, acts, n - 1);
      LiveCodeStep(states[n - 1], acts[n - 1], key, e);
    }
  }

  // ------------------------------------------------------ a run that overlaps

  /** One code accepted twice: both verifications read before either deletes. */
  lemma OverlapCanAcceptTwice(s0: State, key: Key, code: string) returns (states: seq<State>, acts: seq<Action>)
    requires Init(s0) && code != ""
    ensures IsRun(states, acts) && states[0] == s0
    ensures !DistinctSerials(states[|acts|].accepted)
  {
    states, acts := [s0], [];
    states, acts := OneMoreStep(states, acts, BeginGenerate(0, key, code, 60));
    states, acts := OneMoreStep(states, acts, StoreCode(0));
    var s := states[2];
    assert s.store[key] == Entry(code, s.now + 60, 0) && Matches(s, key, code) && s.tasks == map[];
    states, acts := OneMoreStep(states, acts, BeginVerify(1, key, code));
    states, acts := OneMoreStep(states, acts, BeginVerify(2, key, code));
    var twin := Deleting(key, code, 0, s.now);
    assert states[4] == s.(tasks := map[1 := twin, 2 := twin]);
    states, acts := OneMoreStep(states, acts, DeleteCode(1));
    states, acts := OneMoreStep(states, acts, DeleteCode(2));
    var a := Acceptance(key, code, 0, s.now);
    var accepted := states[|acts|].accepted;
    assert accepted == [a, a] && accepted[0].serial == accepted[1].serial;
  }
}
