/**
 What the idempotency table says is what happened: over every run each of its rows belongs
 to a committed request and answers with what that request did.
 */
module RequestTruth {
  import opened Common
  import opened Books
  import opened Wallet
  import opened Requests
  import opened RequestSafety
  import opened RequestOnce

  /** An effect left behind what its request asked for. */
  ghost predicate RecordedRight(db: Db, a: Attempt, e: Effect) {
    match a.request
    case Deposit(_) => e.pid.None? && e.payment.None? && e.balance.Some?
    case Withdraw(amount, address, _) =>
      && e.payment.None? && e.pid.Some? && e.pid.value < |db.withdrawals|
      && var row := db.withdrawals[e.pid.value];
         row.agent == a.agent && row.amount == amount && row.address == address
    case Pay(to, amount, tier, nonce) =>
      && e.pid.None? && e.payment == Some(PaymentOf(a.agent, to, amount, SlotOf(a), nonce))
      && e.payment.value in db.routes
      && db.routes[e.payment.value] == Route(a.agent, to, amount, ComputeFee(amount, tier), true)
  }

  /**
   An answer names the amount, the row or payment, the fee and the new balance of its effect; a
   withdrawal to the chain is only called done when the wallet has answered its call.
   */
  ghost predicate AnswersRight(s: State, a: Attempt, e: Effect, body: Response)
    requires RecordedRight(s.db, a, e)
  {
    match a.request
    case Deposit(amount) => body == Deposited(amount, e.balance.value)
    case Withdraw(amount, _, _) =>
      || body == InProgress(e.pid.value, amount)
      || (body == Withdrawn(e.pid.value, amount) && (OnChain(a.request) ==> Confirmed(s.calls, e.pid.value)))
    case Pay(_, amount, _, _) => body == Paid(e.payment.value, amount, s.db.routes[e.payment.value].fee)
  }

  ghost predicate EffectRight(s: State, i: nat)
    requires i < |s.effects|
  {
    var e := s.effects[i];
    e.aid in s.attempts && e.slot == SlotOf(s.attempts[e.aid]) && RecordedRight(s.db, s.attempts[e.aid], e)
  }

  /** The effect at `i` was made under `slot`, and `body` answers it. */
  ghost predicate TellsOf(s: State, slot: Slot, body: Response, i: nat)
    requires i < |s.effects| && EffectRight(s, i)
  {
    var e := s.effects[i];
    e.slot == Some(slot) && AnswersRight(s, s.attempts[e.aid], e, body)
  }

  /** The row of `slot` carries the request hash and the outcome of some effect. */
  ghost predicate RowRight(s: State, slot: Slot)
    requires slot in s.db.idem
  {
    exists i :: 0 <= i < |s.effects| && EffectRight(s, i)
      && s.db.idem[slot].requestHash == s.attempts[s.effects[i].aid].hash && TellsOf(s, slot, s.db.idem[slot].body, i)
  }

  ghost predicate RouteRight(s: State, p: PaymentId) {
    exists i :: 0 <= i < |s.effects| && s.effects[i].payment == Some(p)
  }

  ghost predicate Truth(s: State) {
    && (forall i :: 0 <= i < |s.effects| ==> EffectRight(s, i))
    && (forall slot :: slot in s.db.idem ==> RowRight(s, slot))
    && (forall p :: p in s.db.routes ==> RouteRight(s, p))
  }

  // ---------------------------------------------------------------- nothing is taken back

  ghost predicate SameRows(before: seq<Withdrawal>, after: seq<Withdrawal>) {
    && |before| <= |after|
    && forall p :: 0 <= p < |before| ==> after[p] == before[p].(status := after[p].status)
  }

  ghost predicate SameRoutes(before: map<PaymentId, Route>, after: map<PaymentId, Route>) {
    forall p :: p in before ==> p in after && after[p] == before[p]
  }

  ghost predicate SameAttempts(before: map<nat, Attempt>, after: map<nat, Attempt>) {
    forall b :: b in before ==> b in after && after[b] == before[b].(phase := after[b].phase)
  }

  ghost predicate StaysConfirmed(before: map<nat, seq<Post>>, after: map<nat, seq<Post>>) {
    forall pid :: pid in before && Confirmed(before, pid) ==> Confirmed(after, pid)
  }

  /** Effects, withdrawals, routes, requests and answered calls stay as they are, but for statuses and phases. */
  ghost predicate Grows(s: State, t: State) {
    && s.effects <= t.effects
    && SameRows(s.db.withdrawals, t.db.withdrawals) && SameRoutes(s.db.routes, t.db.routes)
    && SameAttempts(s.attempts, t.attempts) && StaysConfirmed(s.calls, t.calls)
  }

  lemma FrontStepGrows(s: State, step: Step)
    requires OfAttempt(step) && !AfterDebit(step) && !step.RunTransaction? && step.aid in s.attempts
    ensures var t := Next(s, step);
      t.db == s.db && t.effects == s.effects && t.calls == s.calls
  {
  }

  lemma TransactGrows(db: Db, agent: AgentId, request: Request, slot: Option<Slot>, hash: string)
    requires Transact(db, agent, request, slot, hash).Changed?
    ensures var after := Transact(db, agent, request, slot, hash).db;
      SameRows(db.withdrawals, after.withdrawals) && SameRoutes(db.routes, after.routes)
  {
  }

  lemma TransactionGrows(s: State, step: Step)
    requires step.RunTransaction? && step.aid in s.attempts
    ensures var t := Next(s, step);
      && s.effects <= t.effects && t.calls == s.calls
      && SameRows(s.db.withdrawals, t.db.withdrawals) && SameRoutes(s.db.routes, t.db.routes)
  {
    var a := s.attempts[step.aid];
    if a.phase == Reserved && Transact(s.db, a.agent, a.request, SlotOf(a), a.hash).Changed? {
      TransactGrows(s.db, a.agent, a.request, SlotOf(a), a.hash);
    }
  }

  /** What setting a status leaves alone. */
  ghost predicate SameButStatus(before: Db, after: Db) {
    after == before.(withdrawals := after.withdrawals) && SameRows(before.withdrawals, after.withdrawals)
  }

  lemma SetRowSame(s: State, pid: nat, status: WithdrawalStatus, commits: bool)
    ensures var t := SetRow(s, pid, status, commits);
      t == s.(db := t.db) && SameButStatus(s.db, t.db)
  {
  }

  lemma MarkStepSame(s: State, step: Step)
    requires (step.MarkNeedsReview? || step.MarkCompleted?) && step.aid in s.attempts
    ensures var t := Next(s, step);
      SameButStatus(s.db, t.db) && t.effects == s.effects
  {
    var phase := s.attempts[step.aid].phase;
    if PidOf(phase).Some? {
      SetRowSame(s, PidOf(phase).value, NeedsReview, step.commits);
      SetRowSame(s, PidOf(phase).value, Completed, step.commits);
    }
  }

  lemma BackStepGrows(s: State, step: Step)
    requires AfterDebit(step) && step.aid in s.attempts
    ensures var t := Next(s, step);
      SameRows(s.db.withdrawals, t.db.withdrawals) && t.db.routes == s.db.routes && t.effects == s.effects
    ensures !step.StoreFinal? ==> Next(s, step).db.idem == s.db.idem
  {
    if step.MarkNeedsReview? || step.MarkCompleted? { MarkStepSame(s, step); }
  }

  lemma OutsideStepSame(s: State, step: Step)
    requires !OfAttempt(step)
    ensures var t := Next(s, step);
      SameButStatus(s.db, t.db) && t.effects == s.effects
  {
    if step.Reconcile? {
      SetRowSame(s, step.pid, if step.matched then Completed else NeedsReview, step.commits);
    } else {
      assert Next(s, step).db == s.db;
    }
  }

  lemma OutsideStepKeepsAttempts(s: State, step: Step)
    requires !OfAttempt(step)
    ensures SameAttempts(s.attempts, Next(s, step).attempts)
  {
  }

  lemma CallsStayConfirmed(s: State, step: Step)
    requires Inv(s)
    ensures StaysConfirmed(s.calls, Next(s, step).calls)
  {
    forall pid | pid in s.calls && Confirmed(s.calls, pid) ensures Confirmed(Next(s, step).calls, pid) {
      if step.PostTransfer? {
      } else if step.StartCall? && step.aid in s.attempts {
        assert WalletFits(s.calls, s.attempts[step.aid].request, s.attempts[step.aid].phase);
      } else {
        OtherStepsPostNothing(s, step);
      }
    }
  }

  lemma StepGrows(s: State, step: Step)
    requires Inv(s)
    ensures Grows(s, Next(s, step))
  {
    CallsStayConfirmed(s, step);
    if !OfAttempt(step) {
      OutsideStepSame(s, step);
      OutsideStepKeepsAttempts(s, step);
    } else if step.aid in s.attempts {
      StepMoves(s, step);
      if step.RunTransaction? {
        TransactionGrows(s, step);
      } else if AfterDebit(step) {
        BackStepGrows(s, step);
      } else {
        FrontStepGrows(s, step);
      }
    }
  }

  lemma CarriedEffect(s: State, t: State, i: nat)
    requires Grows(s, t) && i < |s.effects| && EffectRight(s, i)
    ensures t.effects[i] == s.effects[i] && EffectRight(t, i)
    ensures t.attempts[t.effects[i].aid].hash == s.attempts[s.effects[i].aid].hash
    ensures forall slot, body :: TellsOf(s, slot, body, i) ==> TellsOf(t, slot, body, i)
  {
    var e := s.effects[i];
    assert t.effects[i] == e;
    assert t.attempts[e.aid] == s.attempts[e.aid].(phase := t.attempts[e.aid].phase);
  }

  lemma CarriedRow(s: State, t: State, slot: Slot)
    requires Grows(s, t) && slot in s.db.idem && RowRight(s, slot)
    requires slot in t.db.idem && t.db.idem[slot] == s.db.idem[slot]
    ensures RowRight(t, slot)
  {
    var i :| 0 <= i < |s.effects| && EffectRight(s, i)
      && s.db.idem[slot].requestHash == s.attempts[s.effects[i].aid].hash && TellsOf(s, slot, s.db.idem[slot].body, i);
    CarriedEffect(s, t, i);
  }

  lemma CarriedRoute(s: State, t: State, p: PaymentId)
    requires s.effects <= t.effects && RouteRight(s, p)
    ensures RouteRight(t, p)
  {
    var i :| 0 <= i < |s.effects| && s.effects[i].payment == Some(p);
    assert t.effects[i] == s.effects[i];
  }

  ghost predicate RowOfEffect(s: State, slot: Slot, k: nat) {
    && slot in s.db.idem && k < |s.effects| && EffectRight(s, k)
    && s.db.idem[slot].requestHash == s.attempts[s.effects[k].aid].hash && TellsOf(s, slot, s.db.idem[slot].body, k)
  }

  /** All that a step has to show: its own effect, its own row and its own route. */
  lemma CarriedTruth(s: State, t: State, written: Option<Slot>, k: nat)
    requires Truth(s) && Grows(s, t)
    requires forall i :: |s.effects| <= i < |t.effects| ==> EffectRight(t, i)
    requires forall slot :: slot in t.db.idem && Some(slot) != written ==>
      slot in s.db.idem && t.db.idem[slot] == s.db.idem[slot]
    requires written.Some? ==> RowOfEffect(t, written.value, k)
    requires forall p :: p in t.db.routes ==> p in s.db.routes || RouteRight(t, p)
    ensures Truth(t)
  {
    forall i | 0 <= i < |t.effects| ensures EffectRight(t, i) {
      if i < |s.effects| { CarriedEffect(s, t, i); }
    }
    forall slot | slot in t.db.idem ensures RowRight(t, slot) {
      if Some(slot) != written { CarriedRow(s, t, slot); }
    }
    forall p | p in t.db.routes ensures RouteRight(t, p) {
      if p in s.db.routes { CarriedRoute(s, t, p); }
    }
  }

  // ---------------------------------------------------------------- committing

  /** What the transaction leaves behind and answers, for the attempt that ran it. */
  lemma CommitTellsTruth(s: State, aid: nat)
    requires aid in s.attempts && s.attempts[aid].phase == Reserved
    requires var a := s.attempts[aid]; Transact(s.db, a.agent, a.request, SlotOf(a), a.hash).Changed?
    ensures var a, t := s.attempts[aid], DoTransaction(s, aid, s.attempts[aid], true);
      var answer, n := Transact(s.db, a.agent, a.request, SlotOf(a), a.hash).answer, |s.effects|;
      && |t.effects| == n + 1 && t.effects[n].aid == aid && EffectRight(t, n)
      && (forall slot :: SlotOf(a) == Some(slot) ==> TellsOf(t, slot, answer, n))
      && (a.request.Deposit? ==> t.effects[n].balance == Some(Get(t.db.available, a.agent)))
  {
  }

  /** A transaction writes the row of its own key and the route of its own payment. */
  lemma CommitWrites(db: Db, agent: AgentId, request: Request, slot: Option<Slot>, hash: string)
    requires Transact(db, agent, request, slot, hash).Changed?
    ensures var outcome := Transact(db, agent, request, slot, hash);
      && outcome.db.idem
           == StoreRow(db.idem, slot, IdemRow(hash, if request.Withdraw? then 202 else 200, outcome.answer))
      && outcome.db.routes.Keys == db.routes.Keys
           + if request.Pay? then {PaymentOf(agent, request.to, request.amount, slot, request.nonce)} else {}
  {
  }

  lemma CommitKeepsTruth(s: State, t: State, aid: nat)
    requires Inv(s) && Truth(s) && Grows(s, t) && aid in s.attempts && s.attempts[aid].phase == Reserved
    requires var a := s.attempts[aid];
      Transact(s.db, a.agent, a.request, SlotOf(a), a.hash).Changed? && t == DoTransaction(s, aid, a, true)
    ensures Truth(t)
  {
    var a, n := s.attempts[aid], |s.effects|;
    CommitTellsTruth(s, aid);
    CommitWrites(s.db, a.agent, a.request, SlotOf(a), a.hash);
    forall p | p in t.db.routes ensures p in s.db.routes || RouteRight(t, p) {
      assert p in t.db.routes.Keys;
      if p !in s.db.routes { assert t.effects[n].payment == Some(p); }
    }
    CarriedTruth(s, t, SlotOf(a), n);
  }

  // ---------------------------------------------------------------- the final response

  lemma SettledEffect(s: State, aid: nat) returns (k: nat)
    requires PidsOk(s) && aid in s.attempts && s.attempts[aid].phase.Settled?
    ensures k < |s.effects| && s.effects[k].aid == aid && s.effects[k].slot == SlotOf(s.attempts[aid])
    ensures s.effects[k].pid == Some(s.attempts[aid].phase.pid)
  {
    assert PidOk(s, aid);
    k :| 0 <= k < |s.effects| && s.effects[k].aid == aid
      && s.effects[k].slot == SlotOf(s.attempts[aid]) && s.effects[k].pid == Some(s.attempts[aid].phase.pid);
  }

  function FinalBody(a: Attempt, pid: nat): Response {
    Withdrawn(pid, if a.request.Withdraw? then a.request.amount else 0)
  }

  /** The answer "withdrawn" of a settled attempt is right for the effect it recorded. */
  lemma FinalTellsTruth(s: State, aid: nat) returns (k: nat)
    requires Inv(s) && Truth(s) && aid in s.attempts && s.attempts[aid].phase.Settled?
    ensures k < |s.effects| && s.effects[k].aid == aid && EffectRight(s, k)
    ensures var a := s.attempts[aid];
      forall slot :: SlotOf(a) == Some(slot) ==> TellsOf(s, slot, FinalBody(a, a.phase.pid), k)
  {
    k := SettledEffect(s, aid);
    assert EffectRight(s, k);
    assert WalletFits(s.calls, s.attempts[aid].request, s.attempts[aid].phase);
  }

  lemma FinalWrites(s: State, step: Step)
    requires step.StoreFinal? && step.aid in s.attempts && s.attempts[step.aid].phase.Settled?
    ensures var a, t := s.attempts[step.aid], Next(s, step);
      && t.effects == s.effects && t.db.routes == s.db.routes
      && t.db.idem == if !step.commits then s.db.idem else StoreRow(s.db.idem, SlotOf(a),
           IdemRow(a.hash, 200, FinalBody(a, a.phase.pid)))
  {
  }

  lemma NewRow(s: State, t: State, slot: Slot, k: nat, row: IdemRow)
    requires Grows(s, t) && k < |s.effects| && EffectRight(s, k) && TellsOf(s, slot, row.body, k)
    requires slot in t.db.idem && t.db.idem[slot] == row && row.requestHash == s.attempts[s.effects[k].aid].hash
    ensures RowOfEffect(t, slot, k)
  {
    CarriedEffect(s, t, k);
  }

  lemma FinalKeepsTruth(s: State, t: State, k: nat, row: IdemRow)
    requires Truth(s) && Grows(s, t) && t.effects == s.effects && t.db.routes == s.db.routes
    requires k < |s.effects| && EffectRight(s, k)
    requires var slot := s.effects[k].slot;
      && t.db.idem == StoreRow(s.db.idem, slot, row)
      && (slot.Some? ==> TellsOf(s, slot.value, row.body, k) && row.requestHash == s.attempts[s.effects[k].aid].hash)
    ensures Truth(t)
  {
    var slot := s.effects[k].slot;
    if slot.Some? { NewRow(s, t, slot.value, k, row); }
    CarriedTruth(s, t, slot, k);
  }

  lemma StoreStepKeepsTruth(s: State, step: Step)
    requires Inv(s) && Truth(s) && step.StoreFinal? && step.aid in s.attempts
    requires s.attempts[step.aid].phase.Settled? && Grows(s, Next(s, step))
    ensures Truth(Next(s, step))
  {
    var a := s.attempts[step.aid];
    FinalWrites(s, step);
    if step.commits {
      var k := FinalTellsTruth(s, step.aid);
      FinalKeepsTruth(s, Next(s, step), k, IdemRow(a.hash, 200, FinalBody(a, a.phase.pid)));
    } else {
      CarriedTruth(s, Next(s, step), None, 0);
    }
  }

  // ---------------------------------------------------------------- every run

  /** The two steps that write an idempotency row. */
  predicate WritesRow(s: State, step: Step) {
    || (&& step.RunTransaction? && step.commits && step.aid in s.attempts && s.attempts[step.aid].phase == Reserved
        && var a := s.attempts[step.aid]; Transact(s.db, a.agent, a.request, SlotOf(a), a.hash).Changed?)
    || (step.StoreFinal? && step.aid in s.attempts && s.attempts[step.aid].phase.Settled?)
  }

  lemma OtherStepsWriteNothing(s: State, step: Step)
    requires !WritesRow(s, step)
    ensures var t := Next(s, step);
      t.effects == s.effects && t.db.idem == s.db.idem && t.db.routes == s.db.routes
  {
    if !OfAttempt(step) {
      OutsideStepSame(s, step);
    } else if step.aid in s.attempts {
      if AfterDebit(step) {
        BackStepGrows(s, step);
      } else if !step.RunTransaction? {
        FrontStepGrows(s, step);
      }
    }
  }

  lemma NextKeepsTruth(s: State, step: Step)
    requires Inv(s) && Truth(s)
    ensures Truth(Next(s, step))
  {
    StepGrows(s, step);
    if !WritesRow(s, step) {
      OtherStepsWriteNothing(s, step);
      CarriedTruth(s, Next(s, step), None, 0);
    } else if step.StoreFinal? {
      StoreStepKeepsTruth(s, step);
    } else {
      CommitKeepsTruth(s, Next(s, step), step.aid);
    }
  }

  /**
   Over every run, whatever fails, crashes, overlaps or is reconciled: each idempotency row
   carries the body hash of a committed request, its answer names that request's amount, its
   withdrawal row or payment, the fee charged and the balance its commit left, and it calls a
   withdrawal to the chain done only when the wallet has answered its call.
   */
  lemma {:induction false} RowsTellTheTruth(steps: seq<Step>)
    ensures Truth(Run(INITIAL, steps))
  {
    if steps != [] {
      RowsTellTheTruth(steps[..|steps| - 1]);
      RunKeeps(steps[..|steps| - 1]);
      NextKeepsTruth(Run(INITIAL, steps[..|steps| - 1]), steps[|steps| - 1]);
    }
  }
}
