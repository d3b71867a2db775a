/**
 What clients are told. Answers come from the cache as often as from the table, and the cache
 is written before the commit: over every run each answer under a key is true exactly as
 long as no transaction of that key loses its commit.
 */
module RequestAnswers {
  import opened Common
  import opened Books
  import opened Requests
  import opened RequestSafety
  import opened RequestOnce
  import opened RequestTruth

  /** `body` answers the effect at `i`, or names its payment as a duplicate. */
  ghost predicate RepliesTo(s: State, slot: Slot, body: Response, i: nat)
    requires i < |s.effects| && EffectRight(s, i)
  {
    var e := s.effects[i];
    || TellsOf(s, slot, body, i)
    || (e.slot == Some(slot) && e.payment.Some? && body == Duplicate(e.payment.value))
  }

  /** Something was committed under `slot` that `body` answers. */
  ghost predicate Backed(s: State, slot: Slot, body: Response) {
    exists i :: 0 <= i < |s.effects| && EffectRight(s, i) && RepliesTo(s, slot, body, i)
  }

  /** What an attempt has told its client or is about to. */
  function Said(phase: Phase): Option<Response> {
    match phase
    case Answering(body) => Some(body)
    case Finished(Ok(body)) => Some(body)
    case _ => None
  }

  predicate Says(a: Attempt, slot: Slot, body: Response) {
    Of(a, slot) && Said(a.phase) == Some(body)
  }

  predicate Caches(cache: Cache, slot: Slot, body: Response) {
    slot in cache && cache[slot] == Cached(body)
  }

  ghost predicate Honest(s: State, slot: Slot) {
    && (forall body :: Caches(s.cache, slot, body) ==> Backed(s, slot, body))
    && (forall aid, body :: aid in s.attempts && Says(s.attempts[aid], slot, body) ==> Backed(s, slot, body))
  }

  /** The effect at `i` is the deposit of `a`, made under `slot`, and left the balance that `a` would leave. */
  ghost predicate IsDepositOf(s: State, slot: Slot, a: Attempt, i: nat)
    requires i < |s.effects| && a.request.Deposit?
  {
    var e := s.effects[i];
    && e.slot == Some(slot) && e.aid in s.attempts && s.attempts[e.aid].request == a.request
    && e.balance == Some(BalanceAfter(s.db, a))
  }

  /** The same deposit is already committed under `slot`, and its answer is still right. */
  ghost predicate SameDeposit(s: State, slot: Slot, a: Attempt) {
    a.request.Deposit? && exists i :: 0 <= i < |s.effects| && IsDepositOf(s, slot, a, i)
  }

  /** A transaction of `slot` loses its commit, and not one whose answer a committed deposit makes right. */
  ghost predicate Misleads(s: State, step: Step, slot: Slot) {
    && step.RunTransaction? && !step.commits && step.aid in s.attempts
    && var a := s.attempts[step.aid];
       && a.phase == Reserved && Of(a, slot) && !SameDeposit(s, slot, a)
       && Transact(s.db, a.agent, a.request, SlotOf(a), a.hash).Changed?
  }

  lemma BackedCarries(s: State, t: State, slot: Slot, body: Response)
    requires Grows(s, t) && Backed(s, slot, body)
    ensures Backed(t, slot, body)
  {
    var i :| 0 <= i < |s.effects| && EffectRight(s, i) && RepliesTo(s, slot, body, i);
    CarriedEffect(s, t, i);
    assert RepliesTo(t, slot, body, i);
  }

  // ---------------------------------------------------------------- one step

  /** Whatever is newly cached or said under `slot` is backed. */
  ghost predicate SpeaksTrue(s: State, t: State, slot: Slot) {
    && (forall body :: Caches(t.cache, slot, body) ==> Caches(s.cache, slot, body) || Backed(t, slot, body))
    && (forall aid, body :: aid in t.attempts && Says(t.attempts[aid], slot, body) ==>
          (aid in s.attempts && Says(s.attempts[aid], slot, body)) || Backed(t, slot, body))
  }

  lemma HonestStays(s: State, t: State, slot: Slot)
    requires Grows(s, t) && Honest(s, slot) && SpeaksTrue(s, t, slot)
    ensures Honest(t, slot)
  {
    forall body | Caches(t.cache, slot, body) ensures Backed(t, slot, body) {
      if Caches(s.cache, slot, body) { BackedCarries(s, t, slot, body); }
    }
    forall aid, body | aid in t.attempts && Says(t.attempts[aid], slot, body) ensures Backed(t, slot, body) {
      if aid in s.attempts && Says(s.attempts[aid], slot, body) { BackedCarries(s, t, slot, body); }
    }
  }

  /** Under `slot`, the step of `aid` adds nothing but `answer` to what is cached and said. */
  ghost predicate SaysOnly(s: State, t: State, aid: nat, slot: Slot, answer: Option<Response>)
    requires aid in s.attempts && aid in t.attempts
  {
    forall body :: Some(body) != answer ==>
      && (Caches(t.cache, slot, body) ==> Caches(s.cache, slot, body))
      && (Says(t.attempts[aid], slot, body) ==> Says(s.attempts[aid], slot, body))
  }

  lemma OneSpeaks(s: State, t: State, aid: nat, slot: Slot, answer: Option<Response>)
    requires aid in s.attempts && MovesOnly(s, t, aid) && SaysOnly(s, t, aid, slot, answer)
    requires answer.Some? ==> Backed(t, slot, answer.value)
    ensures SpeaksTrue(s, t, slot)
  {
  }

  lemma RowBacked(s: State, slot: Slot)
    requires Truth(s) && slot in s.db.idem
    ensures Backed(s, slot, s.db.idem[slot].body)
  {
    assert RowRight(s, slot);
    var i :| 0 <= i < |s.effects| && EffectRight(s, i)
      && s.db.idem[slot].requestHash == s.attempts[s.effects[i].aid].hash && TellsOf(s, slot, s.db.idem[slot].body, i);
    assert RepliesTo(s, slot, s.db.idem[slot].body, i);
  }

  lemma DuplicateBacked(s: State, aid: nat, slot: Slot)
    requires Truth(s) && aid in s.attempts && Of(s.attempts[aid], slot)
    requires var a := s.attempts[aid]; Transact(s.db, a.agent, a.request, SlotOf(a), a.hash).Unchanged?
    ensures var a := s.attempts[aid];
      Backed(s, slot, Transact(s.db, a.agent, a.request, SlotOf(a), a.hash).answer)
  {
    var a := s.attempts[aid];
    var payment := PaymentOf(a.agent, a.request.to, a.request.amount, SlotOf(a), a.request.nonce);
    assert RouteRight(s, payment);
    var i :| 0 <= i < |s.effects| && s.effects[i].payment == Some(payment);
    assert EffectRight(s, i);
    assert RepliesTo(s, slot, Duplicate(payment), i);
  }

  lemma RepeatedDepositBacked(s: State, aid: nat, slot: Slot)
    requires Truth(s) && aid in s.attempts && SameDeposit(s, slot, s.attempts[aid])
    ensures var a := s.attempts[aid];
      Backed(s, slot, DepositTx(s.db, a.agent, a.request.amount, SlotOf(a), a.hash).answer)
  {
    var a := s.attempts[aid];
    var i :| 0 <= i < |s.effects| && IsDepositOf(s, slot, a, i);
    assert EffectRight(s, i);
    assert RepliesTo(s, slot, DepositTx(s.db, a.agent, a.request.amount, SlotOf(a), a.hash).answer, i);
  }

  function AnswerOf(outcome: Outcome): Option<Response> {
    if outcome.Refused? then None else Some(outcome.answer)
  }

  lemma TransactionSays(s: State, aid: nat, commits: bool, slot: Slot)
    requires aid in s.attempts && s.attempts[aid].phase == Reserved
    ensures var a, t := s.attempts[aid], DoTransaction(s, aid, s.attempts[aid], commits);
      var answer := AnswerOf(Transact(s.db, a.agent, a.request, SlotOf(a), a.hash));
      SaysOnly(s, t, aid, slot, if Of(a, slot) then answer else None)
  {
  }

  lemma TransactionBacked(s: State, t: State, aid: nat, commits: bool, slot: Slot)
    requires Inv(s) && Truth(s) && Grows(s, t) && aid in s.attempts && s.attempts[aid].phase == Reserved
    requires t == DoTransaction(s, aid, s.attempts[aid], commits) && Of(s.attempts[aid], slot)
    requires !Misleads(s, RunTransaction(aid, commits), slot)
    ensures var a := s.attempts[aid];
      var answer := AnswerOf(Transact(s.db, a.agent, a.request, SlotOf(a), a.hash));
      answer.Some? ==> Backed(t, slot, answer.value)
  {
    var a := s.attempts[aid];
    var outcome := Transact(s.db, a.agent, a.request, SlotOf(a), a.hash);
    if outcome.Unchanged? {
      DuplicateBacked(s, aid, slot);
      BackedCarries(s, t, slot, outcome.answer);
    } else if outcome.Changed? && commits {
      CommitTellsTruth(s, aid);
      assert RepliesTo(t, slot, outcome.answer, |s.effects|);
    } else if outcome.Changed? {
      RepeatedDepositBacked(s, aid, slot);
      BackedCarries(s, t, slot, outcome.answer);
    }
  }

  lemma TransactionSpeaks(s: State, t: State, aid: nat, commits: bool, slot: Slot)
    requires Inv(s) && Truth(s) && Grows(s, t) && aid in s.attempts && s.attempts[aid].phase == Reserved
    requires t == DoTransaction(s, aid, s.attempts[aid], commits) && MovesOnly(s, t, aid)
    requires !Misleads(s, RunTransaction(aid, commits), slot)
    ensures SpeaksTrue(s, t, slot)
  {
    var a := s.attempts[aid];
    TransactionSays(s, aid, commits, slot);
    if Of(a, slot) {
      TransactionBacked(s, t, aid, commits, slot);
      OneSpeaks(s, t, aid, slot, AnswerOf(Transact(s.db, a.agent, a.request, SlotOf(a), a.hash)));
    } else {
      OneSpeaks(s, t, aid, slot, None);
    }
  }

  function CachedBody(cache: Cache, slot: Slot): Option<Response> {
    if slot in cache && cache[slot].Cached? then Some(cache[slot].body) else None
  }

  lemma ReserveSays(s: State, aid: nat, slot: Slot)
    requires aid in s.attempts && s.attempts[aid].phase == Starting
    ensures SaysOnly(s, DoReserveKey(s, aid, s.attempts[aid]), aid, slot, CachedBody(s.cache, slot))
  {
  }

  lemma ReserveSpeaks(s: State, t: State, aid: nat, slot: Slot)
    requires Honest(s, slot) && Grows(s, t) && aid in s.attempts && s.attempts[aid].phase == Starting
    requires t == DoReserveKey(s, aid, s.attempts[aid]) && MovesOnly(s, t, aid)
    ensures SpeaksTrue(s, t, slot)
  {
    var body := CachedBody(s.cache, slot);
    ReserveSays(s, aid, slot);
    if body.Some? {
      assert Caches(s.cache, slot, body.value);
      BackedCarries(s, t, slot, body.value);
    }
    OneSpeaks(s, t, aid, slot, body);
  }

  function RowBody(db: Db, slot: Slot): Option<Response> {
    if slot in db.idem then Some(db.idem[slot].body) else None
  }

  lemma CheckSays(s: State, aid: nat, slot: Slot)
    requires aid in s.attempts && s.attempts[aid].phase == Checking && s.attempts[aid].key.Some?
    ensures SaysOnly(s, DoCheckRow(s, aid, s.attempts[aid]), aid, slot, RowBody(s.db, slot))
  {
  }

  lemma CheckSpeaks(s: State, t: State, aid: nat, slot: Slot)
    requires Truth(s) && Grows(s, t) && aid in s.attempts && s.attempts[aid].phase == Checking
    requires s.attempts[aid].key.Some?
    requires t == DoCheckRow(s, aid, s.attempts[aid]) && MovesOnly(s, t, aid)
    ensures SpeaksTrue(s, t, slot)
  {
    CheckSays(s, aid, slot);
    if slot in s.db.idem {
      RowBacked(s, slot);
      BackedCarries(s, t, slot, s.db.idem[slot].body);
    }
    OneSpeaks(s, t, aid, slot, RowBody(s.db, slot));
  }

  lemma FinalSays(s: State, aid: nat, commits: bool, slot: Slot)
    requires aid in s.attempts && s.attempts[aid].phase.Settled?
    ensures var a := s.attempts[aid];
      SaysOnly(s, DoStoreFinal(s, aid, a, a.phase.pid, commits), aid, slot,
               if Of(a, slot) then Some(FinalBody(a, a.phase.pid)) else None)
  {
  }

  lemma FinalSpeaks(s: State, t: State, aid: nat, commits: bool, slot: Slot)
    requires Inv(s) && Truth(s) && Grows(s, t) && aid in s.attempts && s.attempts[aid].phase.Settled?
    requires t == DoStoreFinal(s, aid, s.attempts[aid], s.attempts[aid].phase.pid, commits) && MovesOnly(s, t, aid)
    ensures SpeaksTrue(s, t, slot)
  {
    var a := s.attempts[aid];
    FinalSays(s, aid, commits, slot);
    if Of(a, slot) {
      var k := FinalTellsTruth(s, aid);
      var body := FinalBody(a, a.phase.pid);
      assert RepliesTo(s, slot, body, k);
      BackedCarries(s, t, slot, body);
      OneSpeaks(s, t, aid, slot, Some(body));
    } else {
      OneSpeaks(s, t, aid, slot, None);
    }
  }

  /** The steps that find a new answer. */
  predicate Speaks(s: State, step: Step) {
    && OfAttempt(step) && step.aid in s.attempts
    && match step
       case ReserveKey(aid) => s.attempts[aid].phase == Starting
       case CheckRow(aid) => s.attempts[aid].phase == Checking && s.attempts[aid].key.Some?
       case RunTransaction(aid, _) => s.attempts[aid].phase == Reserved
       case StoreFinal(aid, _) => s.attempts[aid].phase.Settled?
       case _ => false
  }

  lemma FrontStepSaysNothing(s: State, step: Step, slot: Slot)
    requires OfAttempt(step) && step.aid in s.attempts && !AfterDebit(step) && !Speaks(s, step)
    ensures step.aid in Next(s, step).attempts && SaysOnly(s, Next(s, step), step.aid, slot, None)
  {
  }

  lemma BackStepSaysNothing(s: State, step: Step, slot: Slot)
    requires AfterDebit(step) && step.aid in s.attempts && !Speaks(s, step)
    ensures step.aid in Next(s, step).attempts && SaysOnly(s, Next(s, step), step.aid, slot, None)
  {
  }

  lemma OutsideStepSpeaks(s: State, step: Step, slot: Slot)
    requires !OfAttempt(step)
    ensures SpeaksTrue(s, Next(s, step), slot)
  {
  }

  lemma LookingStep(s: State, step: Step, slot: Slot)
    requires Truth(s) && Honest(s, slot) && Speaks(s, step) && (step.ReserveKey? || step.CheckRow?)
    requires Grows(s, Next(s, step)) && MovesOnly(s, Next(s, step), step.aid)
    ensures SpeaksTrue(s, Next(s, step), slot)
  {
    if step.ReserveKey? {
      ReserveSpeaks(s, Next(s, step), step.aid, slot);
    } else {
      CheckSpeaks(s, Next(s, step), step.aid, slot);
    }
  }

  lemma WritingStep(s: State, step: Step, slot: Slot)
    requires Inv(s) && Truth(s) && Speaks(s, step) && (step.RunTransaction? || step.StoreFinal?)
    requires !Misleads(s, step, slot)
    requires Grows(s, Next(s, step)) && MovesOnly(s, Next(s, step), step.aid)
    ensures SpeaksTrue(s, Next(s, step), slot)
  {
    if step.RunTransaction? {
      TransactionSpeaks(s, Next(s, step), step.aid, step.commits, slot);
    } else {
      FinalSpeaks(s, Next(s, step), step.aid, step.commits, slot);
    }
  }

  lemma NextKeepsHonest(s: State, step: Step, slot: Slot)
    requires Inv(s) && Truth(s) && Honest(s, slot) && !Misleads(s, step, slot)
    ensures Honest(Next(s, step), slot)
  {
    StepGrows(s, step);
    if !OfAttempt(step) {
      OutsideStepSpeaks(s, step, slot);
      HonestStays(s, Next(s, step), slot);
    } else if step.aid in s.attempts {
      StepMoves(s, step);
      if Speaks(s, step) {
        if step.ReserveKey? || step.CheckRow? { LookingStep(s, step, slot); } else { WritingStep(s, step, slot); }
      } else {
        if AfterDebit(step) { BackStepSaysNothing(s, step, slot); } else { FrontStepSaysNothing(s, step, slot); }
        OneSpeaks(s, Next(s, step), step.aid, slot, None);
      }
      HonestStays(s, Next(s, step), slot);
    }
  }

  // ---------------------------------------------------------------- a lost commit

  lemma LostAnswerFitsNot(s: State, a: Attempt, slot: Slot, i: nat)
    requires i < |s.effects| && EffectRight(s, i) && EffectOk(s, s.effects[i])
    requires Of(a, slot) && !SameDeposit(s, slot, a)
    requires Transact(s.db, a.agent, a.request, SlotOf(a), a.hash).Changed?
    ensures !RepliesTo(s, slot, Transact(s.db, a.agent, a.request, SlotOf(a), a.hash).answer, i)
  {
    match a.request
    case Deposit(amount) => assert !IsDepositOf(s, slot, a, i);
    case Withdraw(_, _, _) =>
    case Pay(_, _, _, _) =>
  }

  /** The answer of a transaction that did not happen fits nothing that did. */
  lemma LostAnswerUnbacked(s: State, aid: nat, slot: Slot)
    requires Inv(s) && Truth(s) && Misleads(s, RunTransaction(aid, false), slot)
    ensures var a := s.attempts[aid];
      !Backed(s, slot, Transact(s.db, a.agent, a.request, SlotOf(a), a.hash).answer)
  {
    var a := s.attempts[aid];
    forall i | 0 <= i < |s.effects| && EffectRight(s, i)
      ensures !RepliesTo(s, slot, Transact(s.db, a.agent, a.request, SlotOf(a), a.hash).answer, i)
    {
      assert EffectOk(s, s.effects[i]);
      LostAnswerFitsNot(s, a, slot, i);
    }
  }

  /** Only the cache and the attempt know of a transaction that lost its commit. */
  lemma LostTransaction(s: State, step: Step, slot: Slot)
    requires Misleads(s, step, slot)
    ensures var a, t := s.attempts[step.aid], Next(s, step);
      && t.db == s.db && t.effects == s.effects && t.calls == s.calls
      && t.attempts == s.attempts[step.aid := a.(phase := Failing(CommitFailed))]
      && Caches(t.cache, slot, Transact(s.db, a.agent, a.request, SlotOf(a), a.hash).answer)
  {
  }

  lemma MisleadingStep(s: State, step: Step, slot: Slot)
    requires Inv(s) && Truth(s) && Misleads(s, step, slot)
    ensures !Honest(Next(s, step), slot)
  {
    var a, t := s.attempts[step.aid], Next(s, step);
    var answer := Transact(s.db, a.agent, a.request, SlotOf(a), a.hash).answer;
    LostAnswerUnbacked(s, step.aid, slot);
    LostTransaction(s, step, slot);
    if Backed(t, slot, answer) {
      BackedCarries(t, s, slot, answer);
      assert false;
    }
  }

  // ---------------------------------------------------------------- every run

  ghost predicate AlwaysHonest(steps: seq<Step>, slot: Slot) {
    forall n :: 0 <= n <= |steps| ==> Honest(Run(INITIAL, steps[..n]), slot)
  }

  ghost predicate NeverMisleads(steps: seq<Step>, slot: Slot) {
    forall n :: 0 <= n < |steps| ==> !Misleads(Run(INITIAL, steps[..n]), steps[n], slot)
  }

  lemma {:induction false} HonestWhileCommitsHold(steps: seq<Step>, slot: Slot)
    requires NeverMisleads(steps, slot)
    ensures Honest(Run(INITIAL, steps), slot)
  {
    if steps != [] {
      var before := steps[..|steps| - 1];
      forall n | 0 <= n < |before| ensures !Misleads(Run(INITIAL, before[..n]), before[n], slot) {
        PrefixOfPrefix(steps, n);
      }
      HonestWhileCommitsHold(before, slot);
      RunKeeps(before);
      RowsTellTheTruth(before);
      NextKeepsHonest(Run(INITIAL, before), steps[|before|], slot);
    }
  }

  lemma HonestUpTo(steps: seq<Step>, n: nat, slot: Slot)
    requires n <= |steps| && NeverMisleads(steps, slot)
    ensures Honest(Run(INITIAL, steps[..n]), slot)
  {
    var first := steps[..n];
    forall m | 0 <= m < n ensures !Misleads(Run(INITIAL, first[..m]), first[m], slot) {
      assert first[..m] == steps[..m] && first[m] == steps[m];
    }
    HonestWhileCommitsHold(first, slot);
  }

  lemma MisleadingRun(steps: seq<Step>, n: nat, slot: Slot)
    requires n < |steps| && Misleads(Run(INITIAL, steps[..n]), steps[n], slot)
    ensures !Honest(Run(INITIAL, steps[..n + 1]), slot)
  {
    RunKeeps(steps[..n]);
    RowsTellTheTruth(steps[..n]);
    MisleadingStep(Run(INITIAL, steps[..n]), steps[n], slot);
    assert steps[..n + 1] == steps[..n] + [steps[n]];
    RunSnoc(INITIAL, steps[..n], steps[n]);
  }

  /**
   Over every run, overlapping or not: everything the cache holds and everything any attempt
   under the key is told is true of something committed under that key, at all times, exactly
   when no transaction of the key loses its commit, other than a deposit that repeats one already
   committed under the key down to the balance it leaves.
   */
  lemma HonestExactly(steps: seq<Step>, slot: Slot)
    ensures AlwaysHonest(steps, slot) <==> NeverMisleads(steps, slot)
  {
    if NeverMisleads(steps, slot) {
      forall n | 0 <= n <= |steps| ensures Honest(Run(INITIAL, steps[..n]), slot) { HonestUpTo(steps, n, slot); }
    } else {
      var n :| 0 <= n < |steps| && Misleads(Run(INITIAL, steps[..n]), steps[n], slot);
      MisleadingRun(steps, n, slot);
    }
  }
}
