/**
 The recovery loop (sthrip/services/withdrawal_recovery.py) beside the handlers. It sets the
 status of withdrawals that it found pending some time before, without looking again: what
 clients were told is done, or can be told from a row or the cache, and the status of its
 withdrawal agree exactly as long as that overrules none of it.
 */
module RequestStatus {
  import opened Common
  import opened Books
  import opened Requests
  import opened RequestSafety
  import opened RequestOnce
  import opened RequestTruth
  import opened RequestAnswers

  /** The phases in which an attempt no longer sets the status of its withdrawal. */
  predicate StatusFinal(phase: Phase) {
    !phase.Debited? && !phase.Calling? && !phase.WalletFailed? && !phase.Sent?
  }

  predicate IsCompleted(db: Db, pid: nat) {
    pid < |db.withdrawals| && db.withdrawals[pid].status == Completed
  }

  ghost predicate Unattended(s: State, pid: nat) {
    forall b :: b in s.attempts && PidOf(s.attempts[b].phase) == Some(pid) ==> StatusFinal(s.attempts[b].phase)
  }

  predicate IsDone(body: Response, pid: nat) {
    body.Withdrawn? && body.pid == pid
  }

  predicate RowSays(idem: map<Slot, IdemRow>, slot: Slot, pid: nat) {
    slot in idem && IsDone(idem[slot].body, pid)
  }

  predicate CacheSays(cache: Cache, slot: Slot, pid: nat) {
    slot in cache && cache[slot].Cached? && IsDone(cache[slot].body, pid)
  }

  predicate AttemptSays(a: Attempt, pid: nat) {
    Said(a.phase).Some? && IsDone(Said(a.phase).value, pid)
  }

  /** A row, the cache or an attempt, with a key or without, says that the withdrawal is done. */
  ghost predicate Told(s: State, pid: nat) {
    || (exists slot :: RowSays(s.db.idem, slot, pid))
    || (exists slot :: CacheSays(s.cache, slot, pid))
    || (exists b :: b in s.attempts && AttemptSays(s.attempts[b], pid))
  }

  /** A withdrawal that is told to be done is completed, and so is one that is about to be. */
  ghost predicate StatusesAgree(s: State) {
    && (forall pid: nat :: Told(s, pid) ==> IsCompleted(s.db, pid) && Unattended(s, pid))
    && (forall b, pid: nat :: b in s.attempts && s.attempts[b].phase == Settled(pid) ==> IsCompleted(s.db, pid))
  }

  /** Some final answer rests on this withdrawal, or is about to. */
  ghost predicate Relied(s: State, pid: nat) {
    Told(s, pid) || (exists b :: b in s.attempts && s.attempts[b].phase == Settled(pid))
  }

  /** The recovery loop marks a withdrawal for review that a final answer rests on. */
  ghost predicate Overrules(s: State, step: Step) {
    step.Reconcile? && !step.matched && step.commits && step.pid in s.stale && Relied(s, step.pid)
  }

  // ---------------------------------------------------------------- one step

  ghost predicate StatusesKept(before: seq<Withdrawal>, after: seq<Withdrawal>, touched: Option<nat>) {
    && |before| <= |after|
    && forall p :: 0 <= p < |before| && Some(p) != touched ==> after[p].status == before[p].status
  }

  /** Whoever can still set a status could before, or has a withdrawal of its own that is new. */
  ghost predicate NobodyNew(s: State, t: State) {
    forall b, pid: nat ::
      b in t.attempts && PidOf(t.attempts[b].phase) == Some(pid) && !StatusFinal(t.attempts[b].phase) ==>
      || pid >= |s.db.withdrawals|
      || (b in s.attempts && PidOf(s.attempts[b].phase) == Some(pid) && !StatusFinal(s.attempts[b].phase))
  }

  /** Nothing is told to be done that was not, except for `own`. */
  ghost predicate ToldBefore(s: State, t: State, own: Option<nat>) {
    && (forall slot, pid: nat :: RowSays(t.db.idem, slot, pid) ==> Told(s, pid) || own == Some(pid))
    && (forall slot, pid: nat :: CacheSays(t.cache, slot, pid) ==> Told(s, pid) || own == Some(pid))
    && (forall b, pid: nat :: b in t.attempts && AttemptSays(t.attempts[b], pid) ==> Told(s, pid) || own == Some(pid))
  }

  lemma WasTold(s: State, t: State, own: Option<nat>, pid: nat)
    requires ToldBefore(s, t, own) && Told(t, pid) && own != Some(pid)
    ensures Told(s, pid)
  {
  }

  lemma CompletedStays(s: State, t: State, touched: Option<nat>, pid: nat)
    requires StatusesAgree(s) && StatusesKept(s.db.withdrawals, t.db.withdrawals, touched) && NobodyNew(s, t)
    requires touched.Some? && Relied(s, touched.value) ==> IsCompleted(t.db, touched.value)
    requires Relied(s, pid)
    ensures IsCompleted(t.db, pid) && (Told(s, pid) ==> Unattended(t, pid))
  {
    assert IsCompleted(s.db, pid);
  }

  lemma AgreeStays(s: State, t: State, touched: Option<nat>, own: Option<nat>)
    requires StatusesAgree(s) && StatusesKept(s.db.withdrawals, t.db.withdrawals, touched) && NobodyNew(s, t)
    requires touched.Some? && Relied(s, touched.value) ==> IsCompleted(t.db, touched.value)
    requires ToldBefore(s, t, own) && (own.Some? ==> IsCompleted(t.db, own.value) && Unattended(t, own.value))
    requires forall b, pid: nat :: b in t.attempts && t.attempts[b].phase == Settled(pid) ==>
      (b in s.attempts && s.attempts[b].phase == Settled(pid)) || IsCompleted(t.db, pid)
    ensures StatusesAgree(t)
  {
    forall pid: nat | Told(t, pid) ensures IsCompleted(t.db, pid) && Unattended(t, pid) {
      if own != Some(pid) {
        WasTold(s, t, own, pid);
        CompletedStays(s, t, touched, pid);
      }
    }
    forall b, pid: nat | b in t.attempts && t.attempts[b].phase == Settled(pid) ensures IsCompleted(t.db, pid) {
      if b in s.attempts && s.attempts[b].phase == Settled(pid) { CompletedStays(s, t, touched, pid); }
    }
  }

  /** The step of one attempt, of which only its own phase, the rows and the cache matter. */
  lemma OneToldBefore(s: State, t: State, aid: nat, own: Option<nat>)
    requires aid in s.attempts && MovesOnly(s, t, aid)
    requires forall slot, pid: nat ::
      RowSays(t.db.idem, slot, pid) ==> RowSays(s.db.idem, slot, pid) || own == Some(pid)
    requires forall slot, pid: nat :: CacheSays(t.cache, slot, pid) ==> Told(s, pid) || own == Some(pid)
    requires forall pid: nat :: AttemptSays(t.attempts[aid], pid) ==> Told(s, pid) || own == Some(pid)
    ensures ToldBefore(s, t, own)
  {
  }

  /** An attempt that may still set a status has given no final answer about it, and nobody else has. */
  lemma NotRelied(s: State, aid: nat, pid: nat)
    requires Inv(s) && StatusesAgree(s) && aid in s.attempts
    requires PidOf(s.attempts[aid].phase) == Some(pid) && !StatusFinal(s.attempts[aid].phase)
    ensures !Relied(s, pid)
  {
    if b :| b in s.attempts && s.attempts[b].phase == Settled(pid) { OneOwner(s, aid, b, pid); }
  }

  lemma CachedIsTold(s: State)
    ensures forall slot, pid: nat :: CacheSays(s.cache, slot, pid) ==> Told(s, pid)
  {
  }

  /** The part of a marking step that is not about its own withdrawal. */
  ghost predicate Marks(s: State, t: State, aid: nat, pid: nat)
    requires aid in s.attempts
  {
    && MovesOnly(s, t, aid) && t.db.idem == s.db.idem && StatusesKept(s.db.withdrawals, t.db.withdrawals, Some(pid))
    && (t.attempts[aid].phase.Settled? ==> t.attempts[aid].phase == Settled(pid) && IsCompleted(t.db, pid))
    && (t.attempts[aid].phase.Settled? || PidOf(t.attempts[aid].phase).None?)
    && t.cache == s.cache && Said(t.attempts[aid].phase).None?
  }

  lemma MarkingAgrees(s: State, t: State, aid: nat, pid: nat)
    requires Inv(s) && StatusesAgree(s) && aid in s.attempts
    requires PidOf(s.attempts[aid].phase) == Some(pid) && !StatusFinal(s.attempts[aid].phase)
    requires Marks(s, t, aid, pid)
    ensures StatusesAgree(t)
  {
    NotRelied(s, aid, pid);
    CachedIsTold(s);
    OneToldBefore(s, t, aid, None);
    AgreeStays(s, t, Some(pid), None);
  }

  predicate SetsStatus(step: Step, phase: Phase) {
    || (step.MarkNeedsReview? && phase.WalletFailed?)
    || (step.MarkCompleted? && (phase.Sent? || phase.Debited?))
  }

  /** A marking step sets the status of its withdrawal and moves its attempt past all that. */
  lemma StepSetsStatus(s: State, step: Step)
    requires OfAttempt(step) && step.aid in s.attempts && SetsStatus(step, s.attempts[step.aid].phase)
    ensures var t, pid := Next(s, step), s.attempts[step.aid].phase.pid;
      t == s || (
        && step.aid in t.attempts
        && var after := t.attempts[step.aid].phase;
           && t == Move(SetRow(s, pid, if step.MarkCompleted? then Completed else NeedsReview, step.commits),
                        step.aid, after)
           && (after.Failing? || (after == Settled(pid) && step.MarkCompleted? && step.commits)))
  {
  }

  lemma SetStatusMarks(s: State, aid: nat, pid: nat, status: WithdrawalStatus, commits: bool, after: Phase)
    requires aid in s.attempts && pid < |s.db.withdrawals| && PidOf(s.attempts[aid].phase) == Some(pid)
    requires after.Failing? || (after == Settled(pid) && status == Completed && commits)
    ensures Marks(s, Move(SetRow(s, pid, status, commits), aid, after), aid, pid)
  {
  }

  lemma StepMarks(s: State, step: Step)
    requires Inv(s) && OfAttempt(step) && step.aid in s.attempts && SetsStatus(step, s.attempts[step.aid].phase)
    ensures Next(s, step) == s || Marks(s, Next(s, step), step.aid, s.attempts[step.aid].phase.pid)
  {
    var pid := s.attempts[step.aid].phase.pid;
    OneOwner(s, step.aid, step.aid, pid);
    StepSetsStatus(s, step);
    if Next(s, step) != s {
      SetStatusMarks(s, step.aid, pid, if step.MarkCompleted? then Completed else NeedsReview, step.commits,
                     Next(s, step).attempts[step.aid].phase);
    }
  }

  lemma TransactStatuses(db: Db, agent: AgentId, request: Request, slot: Option<Slot>, hash: string)
    requires Transact(db, agent, request, slot, hash).Changed?
    ensures var after := Transact(db, agent, request, slot, hash).db;
      && StatusesKept(db.withdrawals, after.withdrawals, None)
      && forall k, pid: nat :: RowSays(after.idem, k, pid) ==> RowSays(db.idem, k, pid)
  {
  }

  lemma TransactionAgrees(s: State, step: Step)
    requires Inv(s) && StatusesAgree(s) && step.RunTransaction? && step.aid in s.attempts
    ensures StatusesAgree(Next(s, step))
  {
    var a, t := s.attempts[step.aid], Next(s, step);
    if a.phase == Reserved {
      if Transact(s.db, a.agent, a.request, SlotOf(a), a.hash).Changed? {
        TransactStatuses(s.db, a.agent, a.request, SlotOf(a), a.hash);
      }
      StepMoves(s, step);
      TransactionPhase(s, step);
      TransactionTellsNothing(s, step);
      TransactedAgrees(s, t, step.aid);
    }
  }

  lemma TransactionPhase(s: State, step: Step)
    requires step.RunTransaction? && step.aid in s.attempts && s.attempts[step.aid].phase == Reserved
    ensures step.aid in Next(s, step).attempts
    ensures var phase := Next(s, step).attempts[step.aid].phase;
      PidOf(phase).None? || phase == Debited(|s.db.withdrawals|)
  {
  }

  /** The answer of a transaction never calls a withdrawal done. */
  lemma TransactionTellsNothing(s: State, step: Step)
    requires step.RunTransaction? && step.aid in s.attempts && s.attempts[step.aid].phase == Reserved
    ensures var t := Next(s, step);
      && (forall slot, pid: nat :: CacheSays(t.cache, slot, pid) ==> CacheSays(s.cache, slot, pid))
      && step.aid in t.attempts && forall pid: nat :: !AttemptSays(t.attempts[step.aid], pid)
  {
  }

  lemma TransactedAgrees(s: State, t: State, aid: nat)
    requires StatusesAgree(s) && aid in s.attempts && MovesOnly(s, t, aid)
    requires StatusesKept(s.db.withdrawals, t.db.withdrawals, None)
    requires forall k, pid: nat :: RowSays(t.db.idem, k, pid) ==> RowSays(s.db.idem, k, pid)
    requires forall k, pid: nat :: CacheSays(t.cache, k, pid) ==> CacheSays(s.cache, k, pid)
    requires forall pid: nat :: !AttemptSays(t.attempts[aid], pid)
    requires var phase := t.attempts[aid].phase; PidOf(phase).None? || phase == Debited(|s.db.withdrawals|)
    ensures StatusesAgree(t)
  {
    CachedIsTold(s);
    OneToldBefore(s, t, aid, None);
    AgreeStays(s, t, None, None);
  }

  lemma FinalAgrees(s: State, t: State, aid: nat)
    requires Inv(s) && StatusesAgree(s) && aid in s.attempts && s.attempts[aid].phase.Settled?
    requires MovesOnly(s, t, aid) && PidOf(t.attempts[aid].phase).None?
    requires t.db.withdrawals == s.db.withdrawals && ToldBefore(s, t, Some(s.attempts[aid].phase.pid))
    ensures StatusesAgree(t)
  {
    var pid := s.attempts[aid].phase.pid;
    forall b | b in s.attempts && b != aid ensures PidOf(s.attempts[b].phase) != Some(pid) {
      if PidOf(s.attempts[b].phase) == Some(pid) { OneOwner(s, aid, b, pid); }
    }
    assert Unattended(t, pid);
    AgreeStays(s, t, None, Some(pid));
  }

  lemma FinalSays(s: State, step: Step)
    requires step.StoreFinal? && step.aid in s.attempts && s.attempts[step.aid].phase.Settled?
    ensures var t, own := Next(s, step), s.attempts[step.aid].phase.pid;
      && step.aid in t.attempts && PidOf(t.attempts[step.aid].phase).None? && t.db.withdrawals == s.db.withdrawals
      && (forall k, pid: nat :: RowSays(t.db.idem, k, pid) ==> RowSays(s.db.idem, k, pid) || pid == own)
      && (forall k, pid: nat :: CacheSays(t.cache, k, pid) ==> CacheSays(s.cache, k, pid) || pid == own)
      && (forall pid: nat :: AttemptSays(t.attempts[step.aid], pid) ==> pid == own)
  {
  }

  /** The final response, committed or not, tells of its own withdrawal. */
  lemma FinalToldOwn(s: State, step: Step)
    requires step.StoreFinal? && step.aid in s.attempts && s.attempts[step.aid].phase.Settled?
    requires MovesOnly(s, Next(s, step), step.aid)
    ensures ToldBefore(s, Next(s, step), Some(s.attempts[step.aid].phase.pid))
  {
    FinalSays(s, step);
    CachedIsTold(s);
    OneToldBefore(s, Next(s, step), step.aid, Some(s.attempts[step.aid].phase.pid));
  }

  /** What the other steps of an attempt leave alone. */
  ghost predicate Unmarked(s: State, t: State, aid: nat)
    requires aid in s.attempts
  {
    && MovesOnly(s, t, aid) && t.db == s.db
    && var before, after := s.attempts[aid].phase, t.attempts[aid].phase;
       && (PidOf(after).Some? ==> PidOf(after) == PidOf(before) && (StatusFinal(before) ==> StatusFinal(after)))
       && (after.Settled? ==> after == before)
  }

  /** The cache or the table says it under this slot. */
  predicate SlotSays(s: State, slot: Option<Slot>, pid: nat) {
    slot.Some? && (CacheSays(s.cache, slot.value, pid) || RowSays(s.db.idem, slot.value, pid))
  }

  lemma FrontStepSays(s: State, step: Step)
    requires OfAttempt(step) && !AfterDebit(step) && !step.RunTransaction? && step.aid in s.attempts
    ensures var t := Next(s, step);
      && (forall k, pid: nat :: CacheSays(t.cache, k, pid) ==> CacheSays(s.cache, k, pid) || RowSays(s.db.idem, k, pid))
      && step.aid in t.attempts
      && forall pid: nat :: AttemptSays(t.attempts[step.aid], pid) ==>
           || AttemptSays(s.attempts[step.aid], pid)
           || SlotSays(s, SlotOf(s.attempts[step.aid]), pid)
  {
  }

  /** Looking a key up passes on what the cache or the table says. */
  lemma FrontStepToldBefore(s: State, step: Step)
    requires OfAttempt(step) && !AfterDebit(step) && !step.RunTransaction? && step.aid in s.attempts
    requires Unmarked(s, Next(s, step), step.aid)
    ensures ToldBefore(s, Next(s, step), None)
  {
    FrontStepSays(s, step);
    CachedIsTold(s);
    OneToldBefore(s, Next(s, step), step.aid, None);
  }

  lemma BackStepToldBefore(s: State, step: Step)
    requires AfterDebit(step) && step.aid in s.attempts
    requires !(step.StoreFinal? && s.attempts[step.aid].phase.Settled?)
    requires Unmarked(s, Next(s, step), step.aid)
    ensures ToldBefore(s, Next(s, step), None)
  {
    BackStepSays(s, step);
    CachedIsTold(s);
    OneToldBefore(s, Next(s, step), step.aid, None);
  }

  lemma BackStepSays(s: State, step: Step)
    requires AfterDebit(step) && step.aid in s.attempts
    requires !(step.StoreFinal? && s.attempts[step.aid].phase.Settled?)
    ensures var t := Next(s, step);
      && t.cache == s.cache && step.aid in t.attempts
      && forall pid: nat :: AttemptSays(t.attempts[step.aid], pid) ==> AttemptSays(s.attempts[step.aid], pid)
  {
  }

  lemma FrontStepUnmarked(s: State, step: Step)
    requires OfAttempt(step) && !AfterDebit(step) && !step.RunTransaction? && step.aid in s.attempts
    ensures Unmarked(s, Next(s, step), step.aid)
  {
    StepMoves(s, step);
  }

  lemma BackStepUnmarked(s: State, step: Step)
    requires AfterDebit(step) && step.aid in s.attempts && !SetsStatus(step, s.attempts[step.aid].phase)
    requires !(step.StoreFinal? && s.attempts[step.aid].phase.Settled?)
    ensures Unmarked(s, Next(s, step), step.aid)
  {
    StepMoves(s, step);
  }

  lemma UnmarkedAgrees(s: State, t: State, aid: nat)
    requires StatusesAgree(s) && aid in s.attempts && Unmarked(s, t, aid) && ToldBefore(s, t, None)
    ensures StatusesAgree(t)
  {
    AgreeStays(s, t, None, None);
  }

  lemma AttemptAgrees(s: State, step: Step)
    requires Inv(s) && StatusesAgree(s) && OfAttempt(step) && step.aid in s.attempts
    ensures StatusesAgree(Next(s, step))
  {
    var phase := s.attempts[step.aid].phase;
    if step.RunTransaction? {
      TransactionAgrees(s, step);
    } else if !AfterDebit(step) {
      FrontStepUnmarked(s, step);
      FrontStepToldBefore(s, step);
      UnmarkedAgrees(s, Next(s, step), step.aid);
    } else if SetsStatus(step, phase) {
      StepMarks(s, step);
      if Next(s, step) != s { MarkingAgrees(s, Next(s, step), step.aid, phase.pid); }
    } else if step.StoreFinal? && phase.Settled? {
      StepMoves(s, step);
      FinalSays(s, step);
      FinalToldOwn(s, step);
      FinalAgrees(s, Next(s, step), step.aid);
    } else {
      BackStepUnmarked(s, step);
      BackStepToldBefore(s, step);
      UnmarkedAgrees(s, Next(s, step), step.aid);
    }
  }

  lemma ReconcileAgreesExactly(s: State, pid: nat, matched: bool, commits: bool)
    requires Inv(s) && StatusesAgree(s) && pid in s.stale
    ensures StatusesAgree(DoReconcile(s, pid, matched, commits)) <==> !(!matched && commits && Relied(s, pid))
  {
    var t := DoReconcile(s, pid, matched, commits);
    SameIsTold(s, t);
    if !matched && commits && Relied(s, pid) {
      assert !IsCompleted(t.db, pid);
    } else {
      AgreeStays(s, t, Some(pid), None);
    }
  }

  lemma SameIsTold(s: State, t: State)
    requires t.db.idem == s.db.idem && t.cache == s.cache && t.attempts == s.attempts
    ensures ToldBefore(s, t, None) && forall pid: nat :: Told(t, pid) <==> Told(s, pid)
  {
  }

  lemma QuietOutsideTold(s: State, step: Step)
    requires !OfAttempt(step) && !step.Reconcile?
    ensures ToldBefore(s, Next(s, step), None)
  {
    var t := Next(s, step);
    assert t.db == s.db;
    assert forall slot, pid: nat :: CacheSays(t.cache, slot, pid) ==> CacheSays(s.cache, slot, pid);
    assert forall b :: b in t.attempts ==>
      (b in s.attempts && t.attempts[b] == s.attempts[b]) || t.attempts[b].phase == Starting;
  }

  lemma QuietOutsideAgrees(s: State, step: Step)
    requires StatusesAgree(s) && !OfAttempt(step) && !step.Reconcile?
    ensures StatusesAgree(Next(s, step))
  {
    var t := Next(s, step);
    QuietOutsideTold(s, step);
    assert t.db == s.db;
    assert t.attempts == s.attempts || (step.Begin? && step.aid !in s.attempts && step.aid in t.attempts
      && t.attempts == s.attempts[step.aid := t.attempts[step.aid]] && t.attempts[step.aid].phase == Starting);
    AgreeStays(s, t, None, None);
  }

  lemma NextAgreesExactly(s: State, step: Step)
    requires Inv(s) && StatusesAgree(s)
    ensures StatusesAgree(Next(s, step)) <==> !Overrules(s, step)
  {
    if OfAttempt(step) {
      if step.aid in s.attempts { AttemptAgrees(s, step); }
    } else if step.Reconcile? {
      if step.pid in s.stale { ReconcileAgreesExactly(s, step.pid, step.matched, step.commits); }
    } else {
      QuietOutsideAgrees(s, step);
    }
  }

  // ---------------------------------------------------------------- every run

  ghost predicate AlwaysAgree(steps: seq<Step>) {
    forall n :: 0 <= n <= |steps| ==> StatusesAgree(Run(INITIAL, steps[..n]))
  }

  ghost predicate NeverOverrules(steps: seq<Step>) {
    forall n :: 0 <= n < |steps| ==> !Overrules(Run(INITIAL, steps[..n]), steps[n])
  }

  lemma RunAt(steps: seq<Step>, n: nat)
    requires n < |steps|
    ensures Run(INITIAL, steps[..n + 1]) == Next(Run(INITIAL, steps[..n]), steps[n])
  {
    assert steps[..n + 1] == steps[..n] + [steps[n]];
    RunSnoc(INITIAL, steps[..n], steps[n]);
  }

  lemma {:induction false} AgreeUpTo(steps: seq<Step>, n: nat)
    requires n <= |steps| && NeverOverrules(steps)
    ensures StatusesAgree(Run(INITIAL, steps[..n]))
  {
    if n > 0 {
      AgreeUpTo(steps, n - 1);
      RunKeeps(steps[..n - 1]);
      NextAgreesExactly(Run(INITIAL, steps[..n - 1]), steps[n - 1]);
      RunAt(steps, n - 1);
    }
  }

  /**
   Over every run, what was told to be done, or can be told from a row or the cache, and the
   statuses agree at all times exactly when the recovery loop never marks for review a
   withdrawal that was told to be done, or is about to be, since it was found pending.
   */
  lemma StatusesAgreeExactly(steps: seq<Step>)
    ensures AlwaysAgree(steps) <==> NeverOverrules(steps)
  {
    if NeverOverrules(steps) {
      forall n | 0 <= n <= |steps| ensures StatusesAgree(Run(INITIAL, steps[..n])) { AgreeUpTo(steps, n); }
    }
    if AlwaysAgree(steps) {
      forall n | 0 <= n < |steps| ensures !Overrules(Run(INITIAL, steps[..n]), steps[n]) {
        RunKeeps(steps[..n]);
        NextAgreesExactly(Run(INITIAL, steps[..n]), steps[n]);
        RunAt(steps, n);
      }
    }
  }
}
