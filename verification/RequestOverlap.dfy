/** Where the protocol's promises stop: overlapping attempts, lost commits and cache hits. */
module RequestOverlap {
  import opened Common
  import opened Books
  import opened Requests
  import opened RequestSafety
  import opened RequestOnce

  // ---------------------------------------------------------------- overlapping attempts

  function Then(s: State, first: Step, second: Step): State {
    Next(Next(s, first), second)
  }

  ghost predicate InPhase(s: State, aid: nat, slot: Slot, phase: Phase) {
    aid in s.attempts && Of(s.attempts[aid], slot) && s.attempts[aid].phase == phase
  }

  /**
   A second attempt that is told to come back later (409) goes through the handler that
   releases the key, although the first attempt is still at work.
   */
  lemma BusyReplyFreesKey(s: State, first: nat, second: nat, slot: Slot)
    requires InPhase(s, first, slot, Reserved) && InPhase(s, second, slot, Starting)
    requires slot in s.cache && s.cache[slot] == Processing
    ensures var t := Then(s, ReserveKey(second), ReleaseKey(second));
      && InPhase(t, first, slot, Reserved) && slot !in t.cache && t.db == s.db
      && t.attempts == s.attempts[second := s.attempts[second].(phase := Finished(Err(Busy)))]
  {
    var mid := Next(s, ReserveKey(second));
    assert mid == Move(s, second, Failing(Busy));
    assert mid.attempts[second := mid.attempts[second].(phase := Finished(Err(Busy)))]
        == s.attempts[second := s.attempts[second].(phase := Finished(Err(Busy)))];
  }

  /** With the key free and no row yet, a third attempt gets as far as the first. */
  lemma FreeKeyLetsAnotherIn(s: State, first: nat, third: nat, slot: Slot)
    requires InPhase(s, first, slot, Reserved) && InPhase(s, third, slot, Starting)
    requires slot !in s.cache && slot !in s.db.idem
    ensures var t := Then(s, ReserveKey(third), CheckRow(third));
      && InPhase(t, first, slot, Reserved) && InPhase(t, third, slot, Reserved) && t.db == s.db
      && t.attempts[first] == s.attempts[first] && t.attempts[third].request == s.attempts[third].request
  {
    var mid := Next(s, ReserveKey(third));
    assert mid == Move(s.(cache := s.cache[slot := Processing]), third, Checking);
  }

  /** From one attempt at work and two impatient retries to two attempts that hold the key. */
  lemma RetriesOverlap(s: State, first: nat, second: nat, third: nat, slot: Slot)
    requires second != third
    requires InPhase(s, first, slot, Reserved)
    requires InPhase(s, second, slot, Starting) && InPhase(s, third, slot, Starting)
    requires slot in s.cache && s.cache[slot] == Processing && slot !in s.db.idem
    ensures var t := Then(Then(s, ReserveKey(second), ReleaseKey(second)), ReserveKey(third), CheckRow(third));
      && InPhase(t, first, slot, Reserved) && InPhase(t, third, slot, Reserved) && t.db == s.db
      && t.attempts[first] == s.attempts[first] && t.attempts[third].request == s.attempts[third].request
  {
    BusyReplyFreesKey(s, first, second, slot);
    FreeKeyLetsAnotherIn(Then(s, ReserveKey(second), ReleaseKey(second)), first, third, slot);
  }

  /** The guards of the three transactions. */
  predicate Fits(db: Db, agent: AgentId, request: Request, slot: Option<Slot>) {
    match request
    case Deposit(_) => true
    case Withdraw(amount, address, _) =>
      !(agent in db.address && db.address[agent] == address) && Get(db.available, agent) >= amount
    case Pay(to, amount, tier, nonce) =>
      && agent != to && PaymentOf(agent, to, amount, slot, nonce) !in db.routes
      && Get(db.available, agent) >= amount + ComputeFee(amount, tier)
  }

  /** What a request takes from its agent's balance. */
  function Cost(request: Request): int {
    match request
    case Deposit(amount) => 0 - amount
    case Withdraw(amount, _, _) => amount
    case Pay(_, amount, tier, _) => amount + ComputeFee(amount, tier)
  }

  /** Before either of them: one request fits, and then the other still does. */
  predicate BothFit(db: Db, agent: AgentId, first: Request, second: Request, slot: Slot) {
    && Fits(db, agent, first, Some(slot)) && Fits(db, agent, second, Some(slot))
    && (!first.Deposit? ==> Get(db.available, agent) >= Cost(first) + Cost(second))
    && (first.Pay? && second.Pay? ==> (first.to, first.amount) != (second.to, second.amount))
  }

  lemma ChangesExactly(db: Db, agent: AgentId, request: Request, slot: Option<Slot>, hash: string)
    ensures Transact(db, agent, request, slot, hash).Changed? <==> Fits(db, agent, request, slot)
  {
  }

  /** What a committed transaction leaves for the next one under the same key. */
  lemma CommitLeaves(db: Db, agent: AgentId, request: Request, slot: Option<Slot>, hash: string)
    requires Fits(db, agent, request, slot)
    ensures var after := Transact(db, agent, request, slot, hash).db;
      && after.address == db.address && Get(after.available, agent) == Get(db.available, agent) - Cost(request)
      && after.routes.Keys == db.routes.Keys
           + if request.Pay? then {PaymentOf(agent, request.to, request.amount, slot, request.nonce)} else {}
  {
  }

  lemma CommitsIfFits(s: State, aid: nat)
    requires aid in s.attempts && s.attempts[aid].phase == Reserved
    ensures var a, t := s.attempts[aid], Next(s, RunTransaction(aid, true));
      && (forall b :: b in s.attempts && b != aid ==> b in t.attempts && t.attempts[b] == s.attempts[b])
      && (if Fits(s.db, a.agent, a.request, SlotOf(a))
          then t.effects == s.effects + [EffectOf(s, aid, a)]
            && t.db == Transact(s.db, a.agent, a.request, SlotOf(a), a.hash).db
          else t.effects == s.effects && t.db == s.db)
  {
    var a := s.attempts[aid];
    ChangesExactly(s.db, a.agent, a.request, SlotOf(a), a.hash);
  }

  lemma SecondFitsExactly(db: Db, slot: Slot, first: Request, second: Request, hash: string)
    requires EndpointOf(first) == EndpointOf(second) == slot.endpoint && Fits(db, slot.agent, first, Some(slot))
    ensures Fits(Transact(db, slot.agent, first, Some(slot), hash).db, slot.agent, second, Some(slot))
        <==> BothFit(db, slot.agent, first, second, slot)
  {
    CommitLeaves(db, slot.agent, first, Some(slot), hash);
    if first.Pay? {
      var after := Transact(db, slot.agent, first, Some(slot), hash).db;
      var payment := PaymentOf(slot.agent, second.to, second.amount, Some(slot), second.nonce);
      assert payment in after.routes <==> payment in after.routes.Keys;
    }
  }

  /**
   Two attempts that both hold the key act twice exactly when both requests pass the guards
   on the balance they find together and, for hub payments, do not name the same recipient
   and amount. Deposits always credit twice.
   */
  lemma OverlapActsTwiceExactly(s: State, first: nat, third: nat, slot: Slot)
    requires first != third && InPhase(s, first, slot, Reserved) && InPhase(s, third, slot, Reserved)
    ensures var a, b := s.attempts[first].request, s.attempts[third].request;
      var t := Then(s, RunTransaction(first, true), RunTransaction(third, true));
      && (|t.effects| == |s.effects| + 2 <==> BothFit(s.db, slot.agent, a, b, slot))
      && (|t.effects| == |s.effects| + 2 ==>
            Get(t.db.available, slot.agent) == Get(s.db.available, slot.agent) - Cost(a) - Cost(b))
  {
    var a, b := s.attempts[first], s.attempts[third];
    var mid := Next(s, RunTransaction(first, true));
    CommitsIfFits(s, first);
    CommitsIfFits(mid, third);
    if Fits(s.db, slot.agent, a.request, Some(slot)) {
      SecondFitsExactly(s.db, slot, a.request, b.request, a.hash);
      CommitLeaves(s.db, slot.agent, a.request, Some(slot), a.hash);
      if Fits(mid.db, slot.agent, b.request, Some(slot)) {
        CommitLeaves(mid.db, slot.agent, b.request, Some(slot), b.hash);
      }
    }
  }

  lemma RunStep(steps: seq<Step>, step: Step)
    ensures Run(INITIAL, steps + [step]) == Next(Run(INITIAL, steps), step)
  {
    RunSnoc(INITIAL, steps, step);
  }

  lemma RunTwo(steps: seq<Step>, first: Step, second: Step)
    ensures Run(INITIAL, steps + [first] + [second]) == Then(Run(INITIAL, steps), first, second)
  {
    RunStep(steps, first);
    RunStep(steps + [first], second);
  }

  const WITNESS_SLOT := Slot("agent", WithdrawEndpoint, "key")
  const WITNESS_REQUEST := Withdraw(1, "address", true)

  function Attempting(aid: nat): Step {
    Begin(aid, "agent", Some("key"), "hash", WITNESS_REQUEST)
  }

  ghost predicate Funded(s: State) {
    Get(s.db.available, "agent") == 2 && s.db.address == map[] && WITNESS_SLOT !in s.db.idem
  }

  lemma FundAgent() returns (steps: seq<Step>)
    ensures var s := Run(INITIAL, steps);
      && Funded(s) && s.db.withdrawals == []
      && WITNESS_SLOT !in s.cache && 1 !in s.attempts && 2 !in s.attempts && 3 !in s.attempts
  {
    var begin := Begin(0, "agent", None, "", Deposit(2));
    steps := [begin] + [ReserveKey(0)] + [RunTransaction(0, true)];
    var s1 := Next(INITIAL, begin);
    var s2 := Next(s1, ReserveKey(0));
    assert s2.attempts[0] == Attempt("agent", None, "", Deposit(2), Reserved);
    assert [begin] == [] + [begin];
    RunStep([], begin);
    RunStep([begin], ReserveKey(0));
    RunStep([begin] + [ReserveKey(0)], RunTransaction(0, true));
  }

  lemma StartWork(s: State)
    requires Funded(s) && WITNESS_SLOT !in s.cache && 1 !in s.attempts && 2 !in s.attempts && 3 !in s.attempts
    ensures var t := Then(Next(s, Attempting(1)), ReserveKey(1), CheckRow(1));
      && Funded(t) && InPhase(t, 1, WITNESS_SLOT, Reserved) && t.attempts[1].request == WITNESS_REQUEST
      && WITNESS_SLOT in t.cache && t.cache[WITNESS_SLOT] == Processing && 2 !in t.attempts && 3 !in t.attempts
  {
    var begun := Next(s, Attempting(1));
    assert InPhase(begun, 1, WITNESS_SLOT, Starting);
    assert Next(begun, ReserveKey(1)) == Move(begun.(cache := begun.cache[WITNESS_SLOT := Processing]), 1, Checking);
  }

  /** An agent with two coins, one withdrawal of one coin at work, and two retries about to start. */
  lemma WithdrawalAtWork() returns (steps: seq<Step>)
    ensures var s := Run(INITIAL, steps);
      && Funded(s) && InPhase(s, 1, WITNESS_SLOT, Reserved)
      && InPhase(s, 2, WITNESS_SLOT, Starting) && InPhase(s, 3, WITNESS_SLOT, Starting)
      && WITNESS_SLOT in s.cache && s.cache[WITNESS_SLOT] == Processing
      && s.attempts[1].request == s.attempts[3].request == WITNESS_REQUEST
  {
    var fund := FundAgent();
    StartWork(Run(INITIAL, fund));
    RunStep(fund, Attempting(1));
    RunTwo(fund + [Attempting(1)], ReserveKey(1), CheckRow(1));
    var working := fund + [Attempting(1)] + [ReserveKey(1)] + [CheckRow(1)];
    RunTwo(working, Attempting(2), Attempting(3));
    steps := working + [Attempting(2)] + [Attempting(3)];
  }

  lemma BothDebit(steps: seq<Step>)
    requires var s := Run(INITIAL, steps);
      && Funded(s) && InPhase(s, 1, WITNESS_SLOT, Reserved) && InPhase(s, 3, WITNESS_SLOT, Reserved)
      && s.attempts[1].request == s.attempts[3].request == WITNESS_REQUEST
    ensures var t := Run(INITIAL, steps + [RunTransaction(1, true)] + [RunTransaction(3, true)]);
      !AtMostOne(t.effects, WITNESS_SLOT) && Get(t.db.available, "agent") == 0
  {
    var s := Run(INITIAL, steps);
    RunTwo(steps, RunTransaction(1, true), RunTransaction(3, true));
    OverlapActsTwiceExactly(s, 1, 3, WITNESS_SLOT);
    var mid := Next(s, RunTransaction(1, true));
    CommitsIfFits(s, 1);
    CommitsIfFits(mid, 3);
    var t := Next(mid, RunTransaction(3, true));
    assert t.effects[|s.effects|].slot == Some(WITNESS_SLOT) && t.effects[|s.effects| + 1].slot == Some(WITNESS_SLOT);
  }

  /** The witness: one key, three attempts, two of them overlapping, two debits. */
  lemma OneKeyTwoDebits() returns (steps: seq<Step>)
    ensures !AtMostOne(Run(INITIAL, steps).effects, WITNESS_SLOT)
    ensures Get(Run(INITIAL, steps).db.available, "agent") == 0
  {
    var working := WithdrawalAtWork();
    RetriesOverlap(Run(INITIAL, working), 1, 2, 3, WITNESS_SLOT);
    RunTwo(working, ReserveKey(2), ReleaseKey(2));
    var freed := working + [ReserveKey(2)] + [ReleaseKey(2)];
    RunTwo(freed, ReserveKey(3), CheckRow(3));
    var both := freed + [ReserveKey(3)] + [CheckRow(3)];
    BothDebit(both);
    steps := both + [RunTransaction(1, true)] + [RunTransaction(3, true)];
  }

  /** Overlapping hub payments with the same body are safe: the second finds the first one's route. */
  lemma OverlappingPaymentsPayOnce(s: State, first: nat, third: nat, slot: Slot)
    requires first != third && InPhase(s, first, slot, Reserved) && InPhase(s, third, slot, Reserved)
    requires s.attempts[first].request.Pay? && s.attempts[third].request.Pay?
    requires s.attempts[first].request.to == s.attempts[third].request.to
    requires s.attempts[first].request.amount == s.attempts[third].request.amount
    requires |Next(s, RunTransaction(first, true)).effects| == |s.effects| + 1
    ensures var mid := Next(s, RunTransaction(first, true));
      Next(mid, RunTransaction(third, true)).db == mid.db
  {
    var a := s.attempts[first];
    TransactionCommits(s, RunTransaction(first, true));
    TransactAdds(s.db, a.agent, a.request, SlotOf(a), a.hash);
  }

  // ---------------------------------------------------------------- lost commits

  /** Every response in the cache stands for a row in the database. */
  ghost predicate NoPhantom(s: State) {
    forall slot :: slot in s.cache && s.cache[slot].Cached? ==> slot in s.db.idem
  }

  /** A transaction that would have changed something loses its commit after the cache was written. */
  ghost predicate LosesCommit(s: State, step: Step) {
    && step.RunTransaction? && !step.commits && step.aid in s.attempts
    && var a := s.attempts[step.aid];
       && a.phase == Reserved && a.key.Some?
       && SlotOf(a).value !in s.db.idem
       && Transact(s.db, a.agent, a.request, SlotOf(a), a.hash).Changed?
  }

  lemma PhantomTransaction(s: State, step: Step)
    requires NoPhantom(s) && step.RunTransaction? && step.aid in s.attempts && s.attempts[step.aid].phase == Reserved
    ensures NoPhantom(Next(s, step)) <==> !LosesCommit(s, step)
  {
    var a, t := s.attempts[step.aid], Next(s, step);
    var outcome := Transact(s.db, a.agent, a.request, SlotOf(a), a.hash);
    if outcome.Changed? {
      TransactAdds(s.db, a.agent, a.request, SlotOf(a), a.hash);
      if a.key.Some? {
        var slot := SlotOf(a).value;
        assert slot in t.cache && t.cache[slot].Cached?;
        assert step.commits ==> slot in t.db.idem.Keys;
      }
      if step.commits {
        forall slot | slot in t.cache && t.cache[slot].Cached? ensures slot in t.db.idem.Keys {}
      }
    }
  }

  ghost predicate NewEntriesHaveRows(s: State, t: State) {
    forall slot :: slot in t.cache && t.cache[slot].Cached?
      ==> (slot in s.cache && s.cache[slot].Cached?) || slot in s.db.idem
  }

  lemma FinalHasRow(s: State, aid: nat, commits: bool)
    requires Inv(s) && aid in s.attempts && s.attempts[aid].phase.Settled?
    ensures NewEntriesHaveRows(s, DoStoreFinal(s, aid, s.attempts[aid], s.attempts[aid].phase.pid, commits))
  {
    assert PidOk(s, aid);
    var slot := SlotOf(s.attempts[aid]);
    if slot.Some? { assert HasEffect(s.effects, slot.value); }
  }

  lemma OtherStepsHaveRows(s: State, step: Step)
    requires Inv(s)
    requires step.RunTransaction? && step.aid in s.attempts ==> s.attempts[step.aid].phase != Reserved
    ensures NewEntriesHaveRows(s, Next(s, step))
  {
    if step.StoreFinal? && step.aid in s.attempts && s.attempts[step.aid].phase.Settled? {
      FinalHasRow(s, step.aid, step.commits);
    } else if !OfAttempt(step) {
      OutsideStepKeepsRows(s, step);
    } else if step.aid in s.attempts {
      AttemptStepHasRow(s, step);
    }
  }

  lemma OutsideStepKeepsRows(s: State, step: Step)
    requires !OfAttempt(step)
    ensures Next(s, step).db.idem == s.db.idem && NewEntriesHaveRows(s, Next(s, step))
  {
  }

  lemma AttemptStepHasRow(s: State, step: Step)
    requires OfAttempt(step) && step.aid in s.attempts
    requires !(step.RunTransaction? && s.attempts[step.aid].phase == Reserved)
    requires !(step.StoreFinal? && s.attempts[step.aid].phase.Settled?)
    ensures NewEntriesHaveRows(s, Next(s, step))
  {
  }

  lemma PhantomStaysAway(s: State, t: State)
    requires NoPhantom(s) && NewEntriesHaveRows(s, t) && t.db.idem.Keys == s.db.idem.Keys
    ensures NoPhantom(t)
  {
    forall slot | slot in t.cache && t.cache[slot].Cached? ensures slot in t.db.idem.Keys {}
  }

  lemma OtherStepsKeepKeys(s: State, step: Step)
    requires Inv(s)
    requires step.RunTransaction? && step.aid in s.attempts ==> s.attempts[step.aid].phase != Reserved
    ensures Next(s, step).db.idem.Keys == s.db.idem.Keys
  {
    if !OfAttempt(step) {
      OutsideStepKeepsRows(s, step);
    } else if step.aid in s.attempts {
      if step.StoreFinal? && s.attempts[step.aid].phase.Settled? {
        FinalCommitsNothing(s, step.aid, step.commits);
      } else {
        OtherStepsCommitNothing(s, step);
      }
    }
  }

  /** The cache comes to promise an effect that never happened exactly when a commit is lost. */
  lemma PhantomExactly(s: State, step: Step)
    requires Inv(s) && NoPhantom(s)
    ensures NoPhantom(Next(s, step)) <==> !LosesCommit(s, step)
  {
    if step.RunTransaction? && step.aid in s.attempts && s.attempts[step.aid].phase == Reserved {
      PhantomTransaction(s, step);
    } else {
      OtherStepsHaveRows(s, step);
      OtherStepsKeepKeys(s, step);
      PhantomStaysAway(s, Next(s, step));
    }
  }

  // ---------------------------------------------------------------- replays

  /** A replay that reaches the database is answered from the row and changes nothing. */
  lemma ReplayAnsweredFromRow(s: State, aid: nat, slot: Slot)
    requires InPhase(s, aid, slot, Starting) && slot in s.db.idem && slot !in s.cache
    ensures var t := Then(s, ReserveKey(aid), CheckRow(aid));
      && t.db == s.db && t.effects == s.effects && t.calls == s.calls
      && t.attempts[aid].phase
           == if s.db.idem[slot].requestHash == s.attempts[aid].hash then Finished(Ok(s.db.idem[slot].body))
              else Failing(BodyMismatch)
  {
    var mid := Next(s, ReserveKey(aid));
    assert mid == Move(s.(cache := s.cache[slot := Processing]), aid, Checking);
  }

  /**
   A key reused with another body is refused for that (422) exactly when the cache knows
   nothing of the key: a cached response is returned without comparing the request hash,
   and a key in use is refused as busy.
   */
  lemma OtherBodyRefusedExactly(s: State, aid: nat, slot: Slot)
    requires InPhase(s, aid, slot, Starting)
    ensures Then(s, ReserveKey(aid), CheckRow(aid)).attempts[aid].phase == Failing(BodyMismatch)
        <==> slot !in s.cache && slot in s.db.idem && s.db.idem[slot].requestHash != s.attempts[aid].hash
  {
    if slot !in s.cache {
      var mid := Next(s, ReserveKey(aid));
      assert mid == Move(s.(cache := s.cache[slot := Processing]), aid, Checking);
    }
  }
}
