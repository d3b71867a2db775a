/** What every run of the request protocol keeps, whatever fails, crashes or overlaps. */
module RequestSafety {
  import opened Common
  import opened Books
  import opened Wallet
  import opened Requests

  // ---------------------------------------------------------------- the invariant

  predicate Early(phase: Phase) {
    phase.Starting? || phase.Checking? || phase.Reserved?
  }

  function PidOf(phase: Phase): Option<nat> {
    match phase
    case Debited(pid) => Some(pid)
    case Calling(pid) => Some(pid)
    case WalletFailed(pid) => Some(pid)
    case Sent(pid) => Some(pid)
    case Settled(pid) => Some(pid)
    case _ => None
  }

  ghost predicate HasEffect(effects: seq<Effect>, slot: Slot) {
    exists i :: 0 <= i < |effects| && effects[i].slot == Some(slot)
  }

  ghost predicate EffectRecorded(effects: seq<Effect>, aid: nat, slot: Option<Slot>, pid: nat) {
    exists i :: 0 <= i < |effects| && effects[i].aid == aid && effects[i].slot == slot && effects[i].pid == Some(pid)
  }

  /** An effect belongs to an attempt that is past its transaction, and refers to existing rows. */
  ghost predicate EffectOk(s: State, e: Effect) {
    && e.aid in s.attempts && e.slot == SlotOf(s.attempts[e.aid]) && !Early(s.attempts[e.aid].phase)
    && (e.pid.Some? ==> e.pid.value < |s.db.withdrawals|)
    && (e.payment.Some? ==> e.payment.value in s.db.routes)
  }

  /** No two effects share an attempt, a withdrawal row or a hub payment. */
  predicate Apart(a: Effect, b: Effect) {
    && a.aid != b.aid
    && (a.pid.Some? ==> a.pid != b.pid)
    && (a.payment.Some? ==> a.payment != b.payment)
  }

  ghost predicate EffectsOk(s: State) {
    && (forall i :: 0 <= i < |s.effects| ==> EffectOk(s, s.effects[i]))
    && (forall i, j :: 0 <= i < j < |s.effects| ==> Apart(s.effects[i], s.effects[j]))
  }

  /** The idempotency row exists exactly when the effect does. */
  ghost predicate RowsOk(s: State) {
    forall slot :: slot in s.db.idem <==> HasEffect(s.effects, slot)
  }

  ghost predicate PidsOk(s: State) {
    forall aid :: aid in s.attempts ==> PidOk(s, aid)
  }

  ghost predicate PidOk(s: State, aid: nat)
    requires aid in s.attempts
  {
    var a := s.attempts[aid];
    PidOf(a.phase).Some? ==> EffectRecorded(s.effects, aid, SlotOf(a), PidOf(a.phase).value)
  }

  /** No call before its turn, and no success that the wallet has not reported. */
  predicate WalletFits(calls: map<nat, seq<Post>>, request: Request, phase: Phase) {
    match phase
    case Debited(pid) => pid !in calls
    case Calling(pid) => pid in calls
    case Sent(pid) => Confirmed(calls, pid)
    case Settled(pid) => OnChain(request) ==> Confirmed(calls, pid)
    case _ => true
  }

  ghost predicate CallOk(s: State, pid: nat)
    requires pid in s.calls
  {
    pid < |s.db.withdrawals| && IsCall(s.calls[pid])
  }

  /** Each call is for a committed withdrawal and posts as one call may. */
  ghost predicate WalletOk(s: State) {
    && (forall pid :: pid in s.calls ==> CallOk(s, pid))
    && (forall aid :: aid in s.attempts ==> WalletFits(s.calls, s.attempts[aid].request, s.attempts[aid].phase))
    && (forall pid :: pid in s.stale ==> pid < |s.db.withdrawals|)
  }

  ghost predicate Inv(s: State) {
    Sound(s.db) && EffectsOk(s) && RowsOk(s) && PidsOk(s) && WalletOk(s)
  }

  // ---------------------------------------------------------------- each kind of step

  /** Phases only move forward: no new withdrawal row, and never back before the transaction. */
  predicate Forward(before: Phase, after: Phase) {
    && (Early(after) ==> Early(before))
    && (PidOf(after).Some? ==> PidOf(after) == PidOf(before))
  }

  lemma MoveKeeps(s: State, cache: Cache, aid: nat, phase: Phase)
    requires Inv(s) && aid in s.attempts && Forward(s.attempts[aid].phase, phase)
    requires WalletFits(s.calls, s.attempts[aid].request, phase)
    ensures Inv(Move(s.(cache := cache), aid, phase))
  {
    var t := Move(s.(cache := cache), aid, phase);
    forall i | 0 <= i < |t.effects| ensures EffectOk(t, t.effects[i]) {
      assert EffectOk(s, s.effects[i]);
    }
    forall b | b in t.attempts ensures PidOk(t, b) {
      assert PidOk(s, b);
    }
  }

  lemma BeginKeeps(s: State, aid: nat, a: Attempt)
    requires Inv(s) && aid !in s.attempts && a.phase == Starting
    ensures Inv(s.(attempts := s.attempts[aid := a]))
  {
    var t := s.(attempts := s.attempts[aid := a]);
    forall i | 0 <= i < |t.effects| ensures EffectOk(t, t.effects[i]) {
      assert EffectOk(s, s.effects[i]);
    }
    forall b | b in t.attempts ensures PidOk(t, b) {
      if b != aid { assert PidOk(s, b); }
    }
  }

  lemma CacheKeeps(s: State, cache: Cache)
    requires Inv(s)
    ensures Inv(s.(cache := cache))
  {
    SameTablesKeep(s, s.(cache := cache));
  }

  /** Cache, posts and findings of the recovery loop may change without touching any effect. */
  lemma SameTablesKeep(s: State, t: State)
    requires Inv(s) && WalletOk(t)
    requires t.db == s.db && t.attempts == s.attempts && t.effects == s.effects
    ensures Inv(t)
  {
    forall i | 0 <= i < |t.effects| ensures EffectOk(t, t.effects[i]) { assert EffectOk(s, s.effects[i]); }
    forall b | b in t.attempts ensures PidOk(t, b) { assert PidOk(s, b); }
  }

  /** Changing the status of a row, or rewriting a response that exists, touches nothing above. */
  lemma DbKeeps(s: State, db: Db)
    requires Inv(s) && Sound(db)
    requires |db.withdrawals| == |s.db.withdrawals| && db.routes == s.db.routes && db.idem.Keys == s.db.idem.Keys
    ensures Inv(s.(db := db))
  {
    var t := s.(db := db);
    forall i | 0 <= i < |t.effects| ensures EffectOk(t, t.effects[i]) { assert EffectOk(s, s.effects[i]); }
    forall b | b in t.attempts ensures PidOk(t, b) { assert PidOk(s, b); }
    forall slot ensures slot in t.db.idem <==> HasEffect(t.effects, slot) {
      assert slot in t.db.idem.Keys <==> slot in s.db.idem.Keys;
    }
  }

  lemma HasEffectAfter(effects: seq<Effect>, e: Effect, slot: Slot)
    ensures HasEffect(effects + [e], slot) <==> HasEffect(effects, slot) || e.slot == Some(slot)
  {
    var after := effects + [e];
    if HasEffect(effects, slot) {
      var i :| 0 <= i < |effects| && effects[i].slot == Some(slot);
      assert after[i].slot == Some(slot);
    }
    if e.slot == Some(slot) { assert after[|effects|].slot == Some(slot); }
  }

  lemma RecordedAfter(effects: seq<Effect>, e: Effect, aid: nat, slot: Option<Slot>, pid: nat)
    requires EffectRecorded(effects, aid, slot, pid) || (e.aid == aid && e.slot == slot && e.pid == Some(pid))
    ensures EffectRecorded(effects + [e], aid, slot, pid)
  {
    var after := effects + [e];
    if EffectRecorded(effects, aid, slot, pid) {
      var i :| 0 <= i < |effects| && effects[i].aid == aid && effects[i].slot == slot && effects[i].pid == Some(pid);
      assert after[i].aid == aid && after[i].slot == slot && after[i].pid == Some(pid);
    } else {
      assert after[|effects|] == e;
    }
  }

  /** What a transaction that changes the tables adds to them. */
  lemma TransactAdds(db: Db, agent: AgentId, request: Request, slot: Option<Slot>, hash: string)
    requires Transact(db, agent, request, slot, hash).Changed?
    ensures var after := Transact(db, agent, request, slot, hash).db;
      && |after.withdrawals| == |db.withdrawals| + (if request.Withdraw? then 1 else 0)
      && db.routes.Keys <= after.routes.Keys
      && after.idem.Keys == db.idem.Keys + (if slot.Some? then {slot.value} else {})
      && (request.Pay? ==>
            var payment := PaymentOf(agent, request.to, request.amount, slot, request.nonce);
            payment !in db.routes && payment in after.routes)
  {
  }

  lemma CommitKeepsEffects(s: State, aid: nat)
    requires Inv(s) && aid in s.attempts && s.attempts[aid].phase == Reserved
    requires var a := s.attempts[aid]; Transact(s.db, a.agent, a.request, SlotOf(a), a.hash).Changed?
    ensures EffectsOk(DoTransaction(s, aid, s.attempts[aid], true))
  {
    var a, t := s.attempts[aid], DoTransaction(s, aid, s.attempts[aid], true);
    var e := EffectOf(s, aid, a);
    TransactAdds(s.db, a.agent, a.request, SlotOf(a), a.hash);
    forall i | 0 <= i < |s.effects|
      ensures EffectOk(t, t.effects[i]) && Apart(t.effects[i], e)
    {
      assert EffectOk(s, s.effects[i]) && t.effects[i] == s.effects[i];
    }
    assert t.effects[|s.effects|] == e && EffectOk(t, e);
    forall i, j | 0 <= i < j < |t.effects| ensures Apart(t.effects[i], t.effects[j]) {
      if j < |s.effects| { assert Apart(s.effects[i], s.effects[j]); }
    }
  }

  lemma CommitKeepsRows(s: State, aid: nat)
    requires Inv(s) && aid in s.attempts && s.attempts[aid].phase == Reserved
    requires var a := s.attempts[aid]; Transact(s.db, a.agent, a.request, SlotOf(a), a.hash).Changed?
    ensures RowsOk(DoTransaction(s, aid, s.attempts[aid], true))
    ensures PidsOk(DoTransaction(s, aid, s.attempts[aid], true))
  {
    var a, t := s.attempts[aid], DoTransaction(s, aid, s.attempts[aid], true);
    var e := EffectOf(s, aid, a);
    TransactAdds(s.db, a.agent, a.request, SlotOf(a), a.hash);
    forall slot ensures slot in t.db.idem <==> HasEffect(t.effects, slot) {
      HasEffectAfter(s.effects, e, slot);
      assert slot in t.db.idem.Keys <==> slot in s.db.idem.Keys || e.slot == Some(slot);
    }
    forall b | b in t.attempts ensures PidOk(t, b) {
      if b != aid { assert PidOk(s, b); }
      var phase := t.attempts[b].phase;
      if PidOf(phase).Some? {
        RecordedAfter(s.effects, e, b, SlotOf(t.attempts[b]), PidOf(phase).value);
      }
    }
  }

  lemma CommitKeepsWallet(s: State, aid: nat)
    requires Inv(s) && aid in s.attempts && s.attempts[aid].phase == Reserved
    requires var a := s.attempts[aid]; Transact(s.db, a.agent, a.request, SlotOf(a), a.hash).Changed?
    ensures WalletOk(DoTransaction(s, aid, s.attempts[aid], true))
  {
    var a, t := s.attempts[aid], DoTransaction(s, aid, s.attempts[aid], true);
    TransactAdds(s.db, a.agent, a.request, SlotOf(a), a.hash);
    assert forall pid :: pid in s.calls ==> CallOk(s, pid) && pid < |s.db.withdrawals|;
    forall pid | pid in t.calls ensures CallOk(t, pid) { assert CallOk(s, pid); }
  }

  lemma TransactionKeeps(s: State, aid: nat, commits: bool)
    requires Inv(s) && aid in s.attempts && s.attempts[aid].phase == Reserved
    ensures Inv(DoTransaction(s, aid, s.attempts[aid], commits))
  {
    var a := s.attempts[aid];
    var outcome := Transact(s.db, a.agent, a.request, SlotOf(a), a.hash);
    match outcome {
      case Refused(why) => MoveKeeps(s, s.cache, aid, Failing(Refusal(why)));
      case Unchanged(answer) => MoveKeeps(s, s.cache, aid, Finished(Ok(answer)));
      case Changed(db, answer) =>
        if commits {
          CommitKeepsEffects(s, aid);
          CommitKeepsRows(s, aid);
          CommitKeepsWallet(s, aid);
          TransactKeepsSound(s.db, a.agent, a.request, SlotOf(a), a.hash);
        } else {
          MoveKeeps(s, Remembered(s.cache, SlotOf(a), answer), aid, Failing(CommitFailed));
        }
    }
  }

  lemma SameEffect(s: State, i: nat, j: nat)
    requires EffectsOk(s) && i < |s.effects| && j < |s.effects|
    requires (s.effects[i].pid.Some? && s.effects[i].pid == s.effects[j].pid)
          || (s.effects[i].payment.Some? && s.effects[i].payment == s.effects[j].payment)
    ensures i == j
  {
  }

  /** Only one attempt is in charge of a withdrawal row. */
  lemma OneOwner(s: State, a: nat, b: nat, pid: nat)
    requires EffectsOk(s) && PidsOk(s) && a in s.attempts && b in s.attempts
    requires PidOf(s.attempts[a].phase) == Some(pid) == PidOf(s.attempts[b].phase)
    ensures a == b && pid < |s.db.withdrawals|
  {
    assert PidOk(s, a) && PidOk(s, b);
    var k :| 0 <= k < |s.effects| && s.effects[k].aid == a && s.effects[k].pid == Some(pid);
    var m :| 0 <= m < |s.effects| && s.effects[m].aid == b && s.effects[m].pid == Some(pid);
    SameEffect(s, k, m);
    assert EffectOk(s, s.effects[k]);
  }

  /** An attempt's call starts with no posts, under a withdrawal that has none. */
  lemma StartCallKeeps(s: State, aid: nat)
    requires Inv(s) && aid in s.attempts && s.attempts[aid].phase.Debited?
    ensures var pid := s.attempts[aid].phase.pid;
      Inv(Move(s.(calls := s.calls[pid := []]), aid, Calling(pid)))
  {
    var pid := s.attempts[aid].phase.pid;
    OneOwner(s, aid, aid, pid);
    var moved := Move(s, aid, Failing(Interrupted));
    MoveKeeps(s, s.cache, aid, Failing(Interrupted));
    var called := moved.(calls := s.calls[pid := []]);
    forall p | p in called.calls ensures CallOk(called, p) { if p != pid { assert CallOk(s, p); } }
    forall b | b in called.attempts
      ensures WalletFits(called.calls, called.attempts[b].request, called.attempts[b].phase)
    {
      assert WalletFits(s.calls, s.attempts[b].request, s.attempts[b].phase);
      if s.attempts[b].phase == Debited(pid) { OneOwner(s, aid, b, pid); }
    }
    SameTablesKeep(moved, called);
    StartedKeeps(s, called, aid, pid);
  }

  /** The same state with the attempt waiting for its call. */
  lemma StartedKeeps(s: State, called: State, aid: nat, pid: nat)
    requires Inv(s) && Inv(called) && aid in s.attempts && s.attempts[aid].phase == Debited(pid)
    requires called == Move(s.(calls := s.calls[pid := []]), aid, Failing(Interrupted))
    ensures Inv(Move(called, aid, Calling(pid)))
    ensures Move(called, aid, Calling(pid)) == Move(s.(calls := s.calls[pid := []]), aid, Calling(pid))
  {
    var t := Move(called, aid, Calling(pid));
    assert t.attempts == s.attempts[aid := s.attempts[aid].(phase := Calling(pid))];
    forall i | 0 <= i < |t.effects| ensures EffectOk(t, t.effects[i]) { assert EffectOk(called, called.effects[i]); }
    forall b | b in t.attempts ensures PidOk(t, b) { assert PidOk(s, b) && PidOk(called, b); }
    forall p | p in t.calls ensures CallOk(t, p) { assert CallOk(called, p); }
  }

  lemma PostKeeps(s: State, pid: nat, post: Post)
    requires Inv(s) && pid in s.calls && MayPost(s.calls[pid])
    ensures Inv(s.(calls := s.calls[pid := s.calls[pid] + [post]]))
  {
    var t := s.(calls := s.calls[pid := s.calls[pid] + [post]]);
    assert CallOk(s, pid);
    NextPost(s.calls[pid], post);
    forall p | p in t.calls ensures CallOk(t, p) { assert CallOk(s, p); }
    forall b | b in t.attempts ensures WalletFits(t.calls, t.attempts[b].request, t.attempts[b].phase) {
      assert WalletFits(s.calls, s.attempts[b].request, s.attempts[b].phase);
    }
    SameTablesKeep(s, t);
  }

  lemma SetRowKeeps(s: State, pid: nat, status: WithdrawalStatus, commits: bool)
    requires Inv(s)
    ensures Inv(SetRow(s, pid, status, commits))
  {
    if commits && pid < |s.db.withdrawals| {
      StatusKeepsSound(s.db, pid, status);
      DbKeeps(s, SetStatus(s.db, pid, status));
    }
  }

  lemma StoreFinalKeeps(s: State, aid: nat, pid: nat, commits: bool)
    requires Inv(s) && aid in s.attempts && s.attempts[aid].phase == Settled(pid)
    ensures Inv(DoStoreFinal(s, aid, s.attempts[aid], pid, commits))
  {
    var a := s.attempts[aid];
    var slot, body := SlotOf(a), Withdrawn(pid, if a.request.Withdraw? then a.request.amount else 0);
    if !commits {
      MoveKeeps(s, Remembered(s.cache, slot, body), aid, Failing(CommitFailed));
    } else {
      var idem := StoreRow(s.db.idem, slot, IdemRow(a.hash, 200, body));
      RowAlreadyThere(s, aid, pid, IdemRow(a.hash, 200, body));
      SoundIgnoresRows(s.db, idem);
      DbKeeps(s, s.db.(idem := idem));
      MoveKeeps(s.(db := s.db.(idem := idem)), Remembered(s.cache, slot, body), aid, Answering(body));
    }
  }

  /** The final response of a withdrawal replaces the in-progress row; it never adds one. */
  lemma RowAlreadyThere(s: State, aid: nat, pid: nat, row: IdemRow)
    requires Inv(s) && aid in s.attempts && s.attempts[aid].phase == Settled(pid)
    ensures StoreRow(s.db.idem, SlotOf(s.attempts[aid]), row).Keys == s.db.idem.Keys
  {
    var slot := SlotOf(s.attempts[aid]);
    assert PidOk(s, aid);
    if slot.Some? {
      assert HasEffect(s.effects, slot.value);
    }
  }

  lemma SoundIgnoresRows(db: Db, idem: map<Slot, IdemRow>)
    requires Sound(db)
    ensures Sound(db.(idem := idem))
  {
    forall a ensures ReconciledFor(db.(idem := idem), a) { assert ReconciledFor(db, a); }
  }

  // ---------------------------------------------------------------- every run

  lemma ReserveKeeps(s: State, aid: nat)
    requires Inv(s) && aid in s.attempts && s.attempts[aid].phase == Starting
    ensures Inv(DoReserveKey(s, aid, s.attempts[aid]))
  {
    var slot := SlotOf(s.attempts[aid]);
    if slot.None? {
      MoveKeeps(s, s.cache, aid, Reserved);
    } else {
      var (cache, r) := LookInCache(s.cache, slot.value);
      MoveKeeps(s, cache, aid, PhaseFor(r, Checking));
    }
  }

  lemma CheckKeeps(s: State, aid: nat)
    requires Inv(s) && aid in s.attempts && s.attempts[aid].phase == Checking && s.attempts[aid].key.Some?
    ensures Inv(DoCheckRow(s, aid, s.attempts[aid]))
  {
    var a := s.attempts[aid];
    var slot := SlotOf(a).value;
    var (cache, r) := LookInTable(s.cache, slot, RowOf(s.db.idem, slot), a.hash);
    MoveKeeps(s, cache, aid, PhaseFor(r, Reserved));
  }

  lemma RowStepKeeps(s: State, aid: nat, pid: nat, status: WithdrawalStatus, commits: bool, phase: Phase)
    requires Inv(s) && aid in s.attempts && Forward(s.attempts[aid].phase, phase)
    requires WalletFits(s.calls, s.attempts[aid].request, phase)
    ensures Inv(Move(SetRow(s, pid, status, commits), aid, phase))
  {
    SetRowKeeps(s, pid, status, commits);
    var t := SetRow(s, pid, status, commits);
    MoveKeeps(t, t.cache, aid, phase);
  }

  lemma FrontStepKeeps(s: State, step: Step, aid: nat)
    requires Inv(s) && aid in s.attempts && OfAttempt(step) && !AfterDebit(step)
    ensures Inv(NextOf(s, step, aid, s.attempts[aid]))
  {
    if step.Return? || step.Fail? || step.ReleaseKey? || step.Crash? {
      EndStepKeeps(s, step, aid);
    } else {
      StartStepKeeps(s, step, aid);
    }
  }

  lemma StartStepKeeps(s: State, step: Step, aid: nat)
    requires Inv(s) && aid in s.attempts
    requires step.ReserveKey? || step.LoseRace? || step.CheckRow? || step.RunTransaction?
    ensures Inv(NextOf(s, step, aid, s.attempts[aid]))
  {
    match (step, s.attempts[aid].phase)
    case (ReserveKey(_), Starting) => ReserveKeeps(s, aid);
    case (LoseRace(_), Starting) => MoveKeeps(s, s.cache, aid, Failing(Busy));
    case (CheckRow(_), Checking) => if s.attempts[aid].key.Some? { CheckKeeps(s, aid); }
    case (RunTransaction(_, commits), Reserved) => TransactionKeeps(s, aid, commits);
    case _ =>
  }

  lemma EndStepKeeps(s: State, step: Step, aid: nat)
    requires Inv(s) && aid in s.attempts && (step.Return? || step.Fail? || step.ReleaseKey? || step.Crash?)
    ensures Inv(NextOf(s, step, aid, s.attempts[aid]))
  {
    var a := s.attempts[aid];
    match (step, a.phase)
    case (Return(_), Answering(body)) => MoveKeeps(s, s.cache, aid, Finished(Ok(body)));
    case (Fail(_), _) => MoveKeeps(s, s.cache, aid, Failing(Interrupted));
    case (ReleaseKey(_), Failing(why)) => MoveKeeps(s, Released(s.cache, SlotOf(a)), aid, Finished(Err(why)));
    case (Crash(_), _) => MoveKeeps(s, s.cache, aid, Crashed);
    case _ =>
  }

  lemma WalletStepKeeps(s: State, step: Step, aid: nat)
    requires Inv(s) && aid in s.attempts && (step.StartCall? || step.WalletReturns? || step.WalletFails?)
    ensures Inv(NextOf(s, step, aid, s.attempts[aid]))
  {
    match (step, s.attempts[aid].phase)
    case (StartCall(_), Debited(pid)) => StartCallKeeps(s, aid);
    case (WalletReturns(_), Calling(pid)) =>
      if Confirmed(s.calls, pid) { MoveKeeps(s, s.cache, aid, Phase.Sent(pid)); }
    case (WalletFails(_), Calling(pid)) => MoveKeeps(s, s.cache, aid, WalletFailed(pid));
    case _ =>
  }

  lemma BackStepKeeps(s: State, step: Step, aid: nat)
    requires Inv(s) && aid in s.attempts && (step.MarkNeedsReview? || step.MarkCompleted? || step.StoreFinal?)
    ensures Inv(NextOf(s, step, aid, s.attempts[aid]))
  {
    match (step, s.attempts[aid].phase)
    case (MarkNeedsReview(_, commits), WalletFailed(pid)) =>
      RowStepKeeps(s, aid, pid, NeedsReview, commits, Failing(if commits then WalletError else CommitFailed));
    case (MarkCompleted(_, commits), Sent(pid)) =>
      RowStepKeeps(s, aid, pid, Completed, commits, if commits then Settled(pid) else Failing(CommitFailed));
    case (MarkCompleted(_, commits), Debited(pid)) =>
      if !OnChain(s.attempts[aid].request) {
        RowStepKeeps(s, aid, pid, Completed, commits, if commits then Settled(pid) else Failing(CommitFailed));
      }
    case (StoreFinal(_, commits), Settled(pid)) => StoreFinalKeeps(s, aid, pid, commits);
    case _ =>
  }

  lemma StaleKeeps(s: State, stale: set<nat>)
    requires Inv(s) && forall pid :: pid in stale ==> pid < |s.db.withdrawals|
    ensures Inv(s.(stale := stale))
  {
    var t := s.(stale := stale);
    forall pid | pid in t.calls ensures CallOk(t, pid) { assert CallOk(s, pid); }
    SameTablesKeep(s, t);
  }

  lemma ReconcileKeeps(s: State, pid: nat, matched: bool, commits: bool)
    requires Inv(s)
    ensures Inv(DoReconcile(s, pid, matched, commits))
  {
    SetRowKeeps(s, pid, if matched then Completed else NeedsReview, commits);
    var t := SetRow(s, pid, if matched then Completed else NeedsReview, commits);
    StaleKeeps(t, t.stale - {pid});
  }

  /** The steps that no attempt takes. */
  lemma OutsideStepKeeps(s: State, step: Step)
    requires Inv(s) && !OfAttempt(step)
    ensures Inv(Next(s, step))
  {
    if step.Scan? || step.Reconcile? {
      RecoveryStepKeeps(s, step);
    } else {
      match step
      case Begin(aid, agent, key, hash, request) =>
        if aid !in s.attempts { BeginKeeps(s, aid, Attempt(agent, key, hash, request, Starting)); }
      case Forget(slot) => CacheKeeps(s, s.cache - {slot});
      case PostTransfer(pid, post) => if pid in s.calls && MayPost(s.calls[pid]) { PostKeeps(s, pid, post); }
    }
  }

  lemma RecoveryStepKeeps(s: State, step: Step)
    requires Inv(s) && (step.Scan? || step.Reconcile?)
    ensures Inv(Next(s, step))
  {
    match step
    case Scan(pids) => StaleKeeps(s, s.stale + PendingAmong(s.db, pids));
    case Reconcile(pid, matched, commits) => if pid in s.stale { ReconcileKeeps(s, pid, matched, commits); }
  }

  lemma NextKeeps(s: State, step: Step)
    requires Inv(s)
    ensures Inv(Next(s, step))
  {
    if !OfAttempt(step) {
      OutsideStepKeeps(s, step);
    } else if step.aid in s.attempts {
      if step.StartCall? || step.WalletReturns? || step.WalletFails? {
        WalletStepKeeps(s, step, step.aid);
      } else if AfterDebit(step) {
        BackStepKeeps(s, step, step.aid);
      } else {
        FrontStepKeeps(s, step, step.aid);
      }
    }
  }

  /**
   Over every run, with any failures, lost commits, crashes, cache losses, overlaps and
   interventions of the recovery loop: the books are sound, an idempotency row exists exactly
   when its effect does, every attempt has at most one effect, and the wallet is only ever
   called for a committed withdrawal and only reports what it answered.
   */
  lemma {:induction false} RunKeeps(steps: seq<Step>)
    ensures Inv(Run(INITIAL, steps))
  {
    if steps == [] {
      EmptySound();
    } else {
      RunKeeps(steps[..|steps| - 1]);
      NextKeeps(Run(INITIAL, steps[..|steps| - 1]), steps[|steps| - 1]);
    }
  }

  /** Two attempts to pay the same recipient the same amount under the same key: one effect at most. */
  lemma HubPaymentOnce(steps: seq<Step>, i: nat, j: nat, payment: PaymentId)
    requires var effects := Run(INITIAL, steps).effects;
      && i < |effects| && j < |effects|
      && effects[i].payment == Some(payment) && effects[j].payment == Some(payment)
    ensures i == j
  {
    RunKeeps(steps);
    SameEffect(Run(INITIAL, steps), i, j);
  }

  /** Over every run a withdrawal to the chain is completed by its handler only after the wallet answered a post. */
  lemma SettledOnlyIfAnswered(steps: seq<Step>, aid: nat)
    requires var s := Run(INITIAL, steps);
      && aid in s.attempts && s.attempts[aid].phase.Settled?
      && s.attempts[aid].request.Withdraw? && s.attempts[aid].request.onchain
    ensures var s := Run(INITIAL, steps);
      var pid := s.attempts[aid].phase.pid;
      pid in s.calls && s.calls[pid] != [] && s.calls[pid][|s.calls[pid]| - 1] == Answered
  {
    RunKeeps(steps);
    var s := Run(INITIAL, steps);
    assert WalletFits(s.calls, s.attempts[aid].request, s.attempts[aid].phase);
  }

  /** Over every run no attempt has two effects, and no withdrawal row two owners. */
  lemma OneEffectEach(steps: seq<Step>, i: nat, j: nat)
    requires var effects := Run(INITIAL, steps).effects;
      && i < |effects| && j < |effects|
      && (effects[i].aid == effects[j].aid || (effects[i].pid.Some? && effects[i].pid == effects[j].pid))
    ensures i == j
  {
    RunKeeps(steps);
    var effects := Run(INITIAL, steps).effects;
    assert i < j ==> Apart(effects[i], effects[j]);
    assert j < i ==> Apart(effects[j], effects[i]);
  }

  // ---------------------------------------------------------------- the wallet over whole runs

  lemma OtherStepsPostNothing(s: State, step: Step)
    requires !step.PostTransfer? && !(step.StartCall? && step.aid in s.attempts)
    ensures Next(s, step).calls == s.calls
  {
    if OfAttempt(step) && !AfterDebit(step) { FrontStepPostsNothing(s, step); }
  }

  lemma FrontStepPostsNothing(s: State, step: Step)
    requires OfAttempt(step) && !AfterDebit(step)
    ensures Next(s, step).calls == s.calls
  {
  }

  /** A call is never started over: its posts are only added to. */
  lemma CallsOnlyGrow(s: State, step: Step, pid: nat)
    requires Inv(s) && pid in s.calls
    ensures pid in Next(s, step).calls && s.calls[pid] <= Next(s, step).calls[pid]
  {
    if step.StartCall? && step.aid in s.attempts {
      assert WalletFits(s.calls, s.attempts[step.aid].request, s.attempts[step.aid].phase);
    } else if !step.PostTransfer? {
      OtherStepsPostNothing(s, step);
    }
  }

  lemma {:induction false} OneCallPerWithdrawal(steps: seq<Step>, n: nat, pid: nat)
    requires n <= |steps| && pid in Run(INITIAL, steps[..n]).calls
    ensures var s, t := Run(INITIAL, steps[..n]), Run(INITIAL, steps);
      pid in t.calls && s.calls[pid] <= t.calls[pid]
  {
    if n == |steps| {
      assert steps[..n] == steps;
    } else {
      var before := steps[..|steps| - 1];
      assert before[..n] == steps[..n];
      OneCallPerWithdrawal(before, n, pid);
      RunKeeps(before);
      CallsOnlyGrow(Run(INITIAL, before), steps[|steps| - 1], pid);
    }
  }

  /**
   Over every run a withdrawal's transfer is posted in one call, three times at most, more than
   once exactly when an earlier post timed out or lost its connection, and carried out more
   than once exactly when that happened to a post that the wallet did carry out.
   */
  lemma PostsExactly(steps: seq<Step>, pid: nat)
    requires pid in Run(INITIAL, steps).calls
    ensures var posts := Run(INITIAL, steps).calls[pid];
      && pid < |Run(INITIAL, steps).db.withdrawals|
      && TimesSent(posts) <= |posts| <= 3
      && (|posts| > 1 <==> exists i :: 0 <= i < |posts| - 1 && Transient(posts[i]))
      && (TimesSent(posts) > 1 <==> SentTwice(posts))
  {
    RunKeeps(steps);
    assert CallOk(Run(INITIAL, steps), pid);
    RepeatsExactly(Run(INITIAL, steps).calls[pid]);
  }
}
