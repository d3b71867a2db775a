/** Runs from the empty hub that show what the promises do not cover. */
module RequestWitnesses {
  import opened Common
  import opened Books
  import opened Wallet
  import opened Requests
  import opened RequestSafety
  import opened RequestOnce
  import opened RequestTruth
  import opened RequestAnswers
  import opened RequestStatus
  import opened RequestOverlap

  const DEPOSIT_SLOT := Slot("agent", DepositEndpoint, "key")

  function Depositing(aid: nat, amount: nat, hash: string): Step {
    Begin(aid, "agent", Some("key"), hash, Deposit(amount))
  }

  lemma RunThree(steps: seq<Step>, a: Step, b: Step, c: Step)
    ensures Run(INITIAL, steps + [a] + [b] + [c]) == Next(Next(Next(Run(INITIAL, steps), a), b), c)
  {
    RunTwo(steps, a, b);
    RunStep(steps + [a] + [b], c);
  }

  lemma DepositReserved() returns (steps: seq<Step>)
    ensures var s := Run(INITIAL, steps);
      && s.db == EMPTY && s.effects == [] && s.cache == map[DEPOSIT_SLOT := Processing]
      && s.attempts == map[1 := Attempt("agent", Some("key"), "hash", Deposit(5), Reserved)]
  {
    steps := [] + [Depositing(1, 5, "hash")] + [ReserveKey(1)] + [CheckRow(1)];
    RunThree([], Depositing(1, 5, "hash"), ReserveKey(1), CheckRow(1));
    var begun := Next(INITIAL, Depositing(1, 5, "hash"));
    assert begun.attempts[1] == Attempt("agent", Some("key"), "hash", Deposit(5), Starting);
    var held := Next(begun, ReserveKey(1));
    assert held == Move(begun.(cache := map[DEPOSIT_SLOT := Processing]), 1, Checking);
  }

  lemma DepositOutcome(s: State, commits: bool)
    requires s.db == EMPTY && s.effects == [] && s.cache == map[DEPOSIT_SLOT := Processing]
    requires s.attempts == map[1 := Attempt("agent", Some("key"), "hash", Deposit(5), Reserved)]
    ensures var t := Next(s, RunTransaction(1, commits));
      && t.cache == map[DEPOSIT_SLOT := Cached(Deposited(5, 5))]
      && t.attempts == map[1 := s.attempts[1].(
           phase := if commits then Answering(Deposited(5, 5)) else Failing(CommitFailed))]
      && (commits ==> DEPOSIT_SLOT in t.db.idem && t.db.idem[DEPOSIT_SLOT].requestHash == "hash")
      && (!commits ==> t.db == EMPTY && t.effects == [])
  {
    assert SlotOf(s.attempts[1]) == Some(DEPOSIT_SLOT) && Add(EMPTY.available, "agent", 5)["agent"] == 5;
    var row := IdemRow("hash", 200, Deposited(5, 5));
    assert StoreRow(EMPTY.idem, Some(DEPOSIT_SLOT), row) == map[DEPOSIT_SLOT := row];
    assert commits ==> Next(s, RunTransaction(1, commits)).db.idem == StoreRow(EMPTY.idem, Some(DEPOSIT_SLOT), row);
  }

  lemma RetryIsTold(s: State)
    requires s.db == EMPTY && s.effects == [] && 2 !in s.attempts
    requires s.cache == map[DEPOSIT_SLOT := Cached(Deposited(5, 5))]
    ensures var t := Then(s, Depositing(2, 5, "hash"), ReserveKey(2));
      && 2 in t.attempts && Of(t.attempts[2], DEPOSIT_SLOT) && t.attempts[2].phase == Finished(Ok(Deposited(5, 5)))
      && t.effects == [] && t.db == EMPTY
  {
    var begun := Next(s, Depositing(2, 5, "hash"));
    assert begun.attempts[2] == Attempt("agent", Some("key"), "hash", Deposit(5), Starting);
  }

  lemma ToldOfNothing(s: State, aid: nat, slot: Slot, body: Response)
    requires s.effects == [] && aid in s.attempts && Says(s.attempts[aid], slot, body)
    ensures !Honest(s, slot)
  {
    assert !Backed(s, slot, body);
  }

  lemma LostDeposit() returns (steps: seq<Step>)
    ensures var s := Run(INITIAL, steps);
      && s.db == EMPTY && s.effects == [] && 2 !in s.attempts
      && s.cache == map[DEPOSIT_SLOT := Cached(Deposited(5, 5))]
  {
    var reserved := DepositReserved();
    DepositOutcome(Run(INITIAL, reserved), false);
    RunTwo(reserved, RunTransaction(1, false), ReleaseKey(1));
    steps := reserved + [RunTransaction(1, false)] + [ReleaseKey(1)];
  }

  /** A deposit loses its commit; the client repeats the request and is told it went through. */
  lemma LostCommitLies() returns (steps: seq<Step>)
    ensures var s := Run(INITIAL, steps);
      && 2 in s.attempts && s.attempts[2].phase == Finished(Ok(Deposited(5, 5)))
      && s.effects == [] && s.db == EMPTY && !Honest(s, DEPOSIT_SLOT)
  {
    var lost := LostDeposit();
    RetryIsTold(Run(INITIAL, lost));
    RunTwo(lost, Depositing(2, 5, "hash"), ReserveKey(2));
    steps := lost + [Depositing(2, 5, "hash")] + [ReserveKey(2)];
    ToldOfNothing(Run(INITIAL, steps), 2, DEPOSIT_SLOT, Deposited(5, 5));
  }

  /** A deposit of seven under the key of a deposit of five is answered with the five. */
  lemma OtherBodyAnswered() returns (steps: seq<Step>)
    ensures var s := Run(INITIAL, steps);
      && DEPOSIT_SLOT in s.db.idem && 2 in s.attempts && s.attempts[2].request == Deposit(7)
      && s.db.idem[DEPOSIT_SLOT].requestHash != s.attempts[2].hash
      && s.attempts[2].phase == Finished(Ok(Deposited(5, 5)))
  {
    var reserved := DepositReserved();
    var s := Run(INITIAL, reserved);
    DepositOutcome(s, true);
    RunThree(reserved, RunTransaction(1, true), Depositing(2, 7, "other"), ReserveKey(2));
    steps := reserved + [RunTransaction(1, true)] + [Depositing(2, 7, "other")] + [ReserveKey(2)];
    var t := Next(s, RunTransaction(1, true));
    var begun := Next(t, Depositing(2, 7, "other"));
    assert begun.attempts[2] == Attempt("agent", Some("key"), "other", Deposit(7), Starting);
  }

  // ---------------------------------------------------------------- the wallet

  /** An agent with two coins and a withdrawal of one of them about to go to the chain. */
  lemma ChainWithdrawalDebited() returns (steps: seq<Step>)
    ensures var s := Run(INITIAL, steps);
      && 1 in s.attempts && s.attempts[1].phase == Debited(0) && OnChain(s.attempts[1].request)
      && |s.db.withdrawals| == 1 && s.db.withdrawals[0].amount == 1
  {
    var fund := FundAgent();
    var s := Run(INITIAL, fund);
    var begin := Begin(1, "agent", None, "", Withdraw(1, "address", true));
    RunThree(fund, begin, ReserveKey(1), RunTransaction(1, true));
    steps := fund + [begin] + [ReserveKey(1)] + [RunTransaction(1, true)];
    var begun := Next(s, begin);
    assert begun.attempts[1] == Attempt("agent", None, "", Withdraw(1, "address", true), Starting);
    assert Next(begun, ReserveKey(1)) == Move(begun, 1, Reserved);
  }

  lemma SentTwiceCounts()
    ensures TimesSent([TimedOut(true), Answered]) == 2
  {
    var posts := [TimedOut(true), Answered];
    assert posts[..1] == [TimedOut(true)] && posts[..1][..0] == [];
  }

  lemma PostsTwice(s: State)
    requires 0 in s.calls && s.calls[0] == []
    ensures var t := Then(s, PostTransfer(0, TimedOut(true)), PostTransfer(0, Answered));
      t.db == s.db && 0 in t.calls && t.calls[0] == [TimedOut(true), Answered]
  {
    PostOne(s, 0, [], TimedOut(true));
    assert [] + [TimedOut(true)] == [TimedOut(true)];
    PostOne(Next(s, PostTransfer(0, TimedOut(true))), 0, [TimedOut(true)], Answered);
    assert [TimedOut(true)] + [Answered] == [TimedOut(true), Answered];
  }

  lemma CallStarted(s: State)
    requires 1 in s.attempts && s.attempts[1].phase == Debited(0) && OnChain(s.attempts[1].request)
    ensures var t := Next(s, StartCall(1)); t.db == s.db && 0 in t.calls && t.calls[0] == []
  {
    StartOne(s, 1, 0);
  }

  /** The transfer of one withdrawal, debited once, is carried out twice: the first answer was lost. */
  lemma OneWithdrawalSentTwice() returns (steps: seq<Step>)
    ensures var s := Run(INITIAL, steps);
      && |s.db.withdrawals| == 1 && 0 in s.calls && s.calls[0] == [TimedOut(true), Answered]
      && TimesSent(s.calls[0]) == 2
  {
    var debited := ChainWithdrawalDebited();
    CallStarted(Run(INITIAL, debited));
    RunStep(debited, StartCall(1));
    var called := debited + [StartCall(1)];
    PostsTwice(Run(INITIAL, called));
    RunTwo(called, PostTransfer(0, TimedOut(true)), PostTransfer(0, Answered));
    steps := called + [PostTransfer(0, TimedOut(true))] + [PostTransfer(0, Answered)];
    SentTwiceCounts();
  }

  // ---------------------------------------------------------------- the recovery loop

  const LEDGER_REQUEST := Withdraw(1, "address", false)

  lemma LedgerWithdrawalReserved() returns (steps: seq<Step>)
    ensures var s := Run(INITIAL, steps);
      && Funded(s) && InPhase(s, 1, WITNESS_SLOT, Reserved) && s.attempts[1].request == LEDGER_REQUEST
      && s.db.withdrawals == []
  {
    var fund := FundAgent();
    var s := Run(INITIAL, fund);
    var begin := Begin(1, "agent", Some("key"), "hash", LEDGER_REQUEST);
    RunThree(fund, begin, ReserveKey(1), CheckRow(1));
    steps := fund + [begin] + [ReserveKey(1)] + [CheckRow(1)];
    var begun := Next(s, begin);
    assert begun.attempts[1] == Attempt("agent", Some("key"), "hash", LEDGER_REQUEST, Starting);
    assert Next(begun, ReserveKey(1)) == Move(begun.(cache := begun.cache[WITNESS_SLOT := Processing]), 1, Checking);
  }

  lemma ScannedWhilePending() returns (steps: seq<Step>)
    ensures var s := Run(INITIAL, steps);
      && InPhase(s, 1, WITNESS_SLOT, Debited(0)) && s.attempts[1].request == LEDGER_REQUEST
      && |s.db.withdrawals| == 1 && 0 in s.stale
  {
    var reserved := LedgerWithdrawalReserved();
    var s := Run(INITIAL, reserved);
    RunTwo(reserved, RunTransaction(1, true), Scan({0}));
    steps := reserved + [RunTransaction(1, true)] + [Scan({0})];
    var t := Next(s, RunTransaction(1, true));
    assert |t.db.withdrawals| == 1 && t.db.withdrawals[0].status == Pending;
    assert 0 in PendingAmong(t.db, {0});
  }

  lemma CompletedAndStored(s: State)
    requires InPhase(s, 1, WITNESS_SLOT, Debited(0)) && s.attempts[1].request == LEDGER_REQUEST
    requires |s.db.withdrawals| == 1 && 0 in s.stale
    ensures var t := Then(s, MarkCompleted(1, true), StoreFinal(1, true));
      && WITNESS_SLOT in t.db.idem && t.db.idem[WITNESS_SLOT].body == Withdrawn(0, 1)
      && |t.db.withdrawals| == 1 && 0 in t.stale
  {
    var done := Next(s, MarkCompleted(1, true));
    assert done.attempts[1] == s.attempts[1].(phase := Settled(0));
  }

  /** A withdrawal is found pending, completed and answered, and then marked for review. */
  lemma CompletedThenReviewed() returns (steps: seq<Step>)
    ensures var s := Run(INITIAL, steps);
      && WITNESS_SLOT in s.db.idem && s.db.idem[WITNESS_SLOT].body == Withdrawn(0, 1)
      && |s.db.withdrawals| == 1 && s.db.withdrawals[0].status == NeedsReview && !StatusesAgree(s)
  {
    var scanned := ScannedWhilePending();
    CompletedAndStored(Run(INITIAL, scanned));
    RunThree(scanned, MarkCompleted(1, true), StoreFinal(1, true), Reconcile(0, false, true));
    steps := scanned + [MarkCompleted(1, true)] + [StoreFinal(1, true)] + [Reconcile(0, false, true)];
    var stored := Then(Run(INITIAL, scanned), MarkCompleted(1, true), StoreFinal(1, true));
    var t := Next(stored, Reconcile(0, false, true));
    assert RowSays(t.db.idem, WITNESS_SLOT, 0) && !IsCompleted(t.db, 0);
  }

  lemma KeylessScanned() returns (steps: seq<Step>)
    ensures var s := Run(INITIAL, steps);
      && 1 in s.attempts && s.attempts[1] == Attempt("agent", None, "", LEDGER_REQUEST, Debited(0))
      && |s.db.withdrawals| == 1 && 0 in s.stale
  {
    var fund := FundAgent();
    var s := Run(INITIAL, fund);
    var begin := Begin(1, "agent", None, "", LEDGER_REQUEST);
    RunTwo(fund, begin, ReserveKey(1));
    var reserved := fund + [begin] + [ReserveKey(1)];
    var begun := Next(s, begin);
    assert begun.attempts[1] == Attempt("agent", None, "", LEDGER_REQUEST, Starting);
    assert Next(begun, ReserveKey(1)) == Move(begun, 1, Reserved);
    KeylessDebited(Run(INITIAL, reserved));
    RunTwo(reserved, RunTransaction(1, true), Scan({0}));
    steps := reserved + [RunTransaction(1, true)] + [Scan({0})];
  }

  lemma KeylessDebited(s: State)
    requires Get(s.db.available, "agent") == 2 && s.db.address == map[] && s.db.withdrawals == []
    requires 1 in s.attempts && s.attempts[1] == Attempt("agent", None, "", LEDGER_REQUEST, Reserved)
    ensures var t := Then(s, RunTransaction(1, true), Scan({0}));
      && 1 in t.attempts && t.attempts[1] == s.attempts[1].(phase := Debited(0))
      && |t.db.withdrawals| == 1 && 0 in t.stale
  {
    var t := Next(s, RunTransaction(1, true));
    assert |t.db.withdrawals| == 1 && t.db.withdrawals[0].status == Pending;
    assert 0 in PendingAmong(t.db, {0});
  }

  lemma KeylessAnswered(s: State)
    requires 1 in s.attempts && s.attempts[1] == Attempt("agent", None, "", LEDGER_REQUEST, Debited(0))
    requires |s.db.withdrawals| == 1 && 0 in s.stale
    ensures var t := Next(Then(s, MarkCompleted(1, true), StoreFinal(1, true)), Return(1));
      && 1 in t.attempts && t.attempts[1].phase == Finished(Ok(Withdrawn(0, 1)))
      && |t.db.withdrawals| == 1 && 0 in t.stale && t.db.idem == s.db.idem
  {
    var done := Next(s, MarkCompleted(1, true));
    assert done.attempts[1] == s.attempts[1].(phase := Settled(0));
    var stored := Next(done, StoreFinal(1, true));
    assert stored.attempts[1] == s.attempts[1].(phase := Answering(Withdrawn(0, 1)));
  }

  /** The same without a key: no row and no cache entry remembers what the client was told. */
  lemma KeylessThenReviewed() returns (steps: seq<Step>)
    ensures var s := Run(INITIAL, steps);
      && 1 in s.attempts && s.attempts[1].phase == Finished(Ok(Withdrawn(0, 1)))
      && |s.db.withdrawals| == 1 && s.db.withdrawals[0].status == NeedsReview && !StatusesAgree(s)
  {
    var scanned := KeylessScanned();
    KeylessAnswered(Run(INITIAL, scanned));
    RunThree(scanned, MarkCompleted(1, true), StoreFinal(1, true), Return(1));
    var answered := scanned + [MarkCompleted(1, true)] + [StoreFinal(1, true)] + [Return(1)];
    RunStep(answered, Reconcile(0, false, true));
    steps := answered + [Reconcile(0, false, true)];
    var t := Run(INITIAL, steps);
    assert AttemptSays(t.attempts[1], 0) && !IsCompleted(t.db, 0);
    assert Told(t, 0);
  }
}
