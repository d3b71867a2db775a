/**
 Requests with idempotency keys as a protocol: any number of attempts, each a sequence of
 atomic steps, interleaved freely, any of which may fail, lose its commit or crash. The
 cache in front of the database (Redis or the process-local dictionary) may forget any
 entry at any time. A database transaction, with its row locks, is one step; the cache
 write inside it happens whether or not the commit then succeeds. The wallet call of a
 withdrawal runs in a thread of its own, which may go on posting after its attempt has
 given up, and the recovery loop sets the status of withdrawals it once found pending.
 */
module Requests {
  import opened Common
  import opened Books
  import opened Wallet

  // Why a request fails: 409, 422, 400, a database error, 502 or 504, anything else.
  datatype Failure = Busy | BodyMismatch | Refusal(why: Refusal) | CommitFailed | WalletError | Interrupted

  type Reply = Result<Response, Failure>

  // ---------------------------------------------------------------- the idempotency store

  datatype CacheEntry = Processing | Cached(body: Response)

  type Cache = map<Slot, CacheEntry>

  // Ok(None) lets the request go on.
  type Reservation = Result<Option<Response>, Failure>

  /** First half of `try_reserve`: the response, a 409, or the sentinel placed. */
  function LookInCache(cache: Cache, slot: Slot): (Cache, Reservation) {
    if slot !in cache then (cache[slot := Processing], Ok(None))
    else if cache[slot] == Processing then (cache, Err(Busy))
    else (cache, Ok(Some(cache[slot].body)))
  }

  /** Second half, with the sentinel placed: the row's response, a 422, or nothing known. */
  function LookInTable(cache: Cache, slot: Slot, row: Option<IdemRow>, hash: string): (Cache, Reservation) {
    if row == None then (cache, Ok(None))
    else if row.value.requestHash != hash then (cache, Err(BodyMismatch))
    else (cache[slot := Cached(row.value.body)], Ok(Some(row.value.body)))
  }

  function RowOf(idem: map<Slot, IdemRow>, slot: Slot): Option<IdemRow> {
    if slot in idem then Some(idem[slot]) else None
  }

  /** `release` clears the key only while it still holds the sentinel. */
  function Released(cache: Cache, slot: Option<Slot>): Cache {
    if slot.Some? && slot.value in cache && cache[slot.value] == Processing then cache - {slot.value} else cache
  }

  function Remembered(cache: Cache, slot: Option<Slot>, body: Response): Cache {
    if slot.Some? then cache[slot.value := Cached(body)] else cache
  }

  // ---------------------------------------------------------------- attempts

  datatype Phase =
    | Starting                    // before try_reserve
    | Checking                    // holds the sentinel, database not consulted yet
    | Reserved                    // no row in the database: goes on to its transaction
    | Debited(pid: nat)           // withdrawal committed, wallet not called yet
    | Calling(pid: nat)           // waiting for the wallet call
    | WalletFailed(pid: nat)      // the wallet call raised or timed out
    | Sent(pid: nat)              // the wallet answered
    | Settled(pid: nat)           // withdrawal row completed
    | Answering(body: Response)   // everything committed, response not returned yet
    | Failing(why: Failure)       // an exception is on its way to the handler
    | Finished(reply: Reply)
    | Crashed

  datatype Attempt = Attempt(agent: AgentId, key: Option<string>, hash: string, request: Request, phase: Phase)

  function EndpointOf(request: Request): Endpoint {
    match request
    case Deposit(_) => DepositEndpoint
    case Withdraw(_, _, _) => WithdrawEndpoint
    case Pay(_, _, _, _) => HubEndpoint
  }

  function SlotOf(a: Attempt): Option<Slot> {
    if a.key.Some? then Some(Slot(a.agent, EndpointOf(a.request), a.key.value)) else None
  }

  // One committed transaction of an attempt, with the withdrawal row or hub payment it created
  // or, for a deposit, the balance it left.
  datatype Effect = Effect(
    aid: nat, slot: Option<Slot>, pid: Option<nat>, payment: Option<PaymentId>, balance: Option<int>)

  // `effects` is a history of what was committed; `calls` holds the posts of every wallet call,
  // under the withdrawal it is for; `stale` is what the recovery loop found pending.
  datatype State = State(db: Db, cache: Cache, attempts: map<nat, Attempt>, effects: seq<Effect>,
                         calls: map<nat, seq<Post>>, stale: set<nat>)

  datatype Step =
    | Begin(aid: nat, agent: AgentId, key: Option<string>, hash: string, request: Request)
    | ReserveKey(aid: nat)
    | LoseRace(aid: nat)          // Redis: the key came and went and came again
    | CheckRow(aid: nat)
    | RunTransaction(aid: nat, commits: bool)
    | StartCall(aid: nat)
    | WalletReturns(aid: nat)
    | WalletFails(aid: nat)
    | MarkNeedsReview(aid: nat, commits: bool)
    | MarkCompleted(aid: nat, commits: bool)
    | StoreFinal(aid: nat, commits: bool)
    | Return(aid: nat)
    | Fail(aid: nat)
    | ReleaseKey(aid: nat)
    | Crash(aid: nat)
    | Forget(slot: Slot)
    | PostTransfer(pid: nat, post: Post)
    | Scan(pids: set<nat>)
    | Reconcile(pid: nat, matched: bool, commits: bool)

  /** The steps that an attempt takes; the others belong to the cache, the wallet thread and the recovery loop. */
  predicate OfAttempt(step: Step) {
    !step.Begin? && !step.Forget? && !step.PostTransfer? && !step.Scan? && !step.Reconcile?
  }

  predicate Live(phase: Phase) {
    !phase.Finished? && !phase.Crashed?
  }

  function Move(s: State, aid: nat, phase: Phase): State
    requires aid in s.attempts
  {
    s.(attempts := s.attempts[aid := s.attempts[aid].(phase := phase)])
  }

  function PhaseFor(r: Reservation, next: Phase): Phase {
    match r
    case Err(why) => Failing(why)
    case Ok(Some(body)) => Finished(Ok(body))
    case Ok(None) => next
  }

  function DoReserveKey(s: State, aid: nat, a: Attempt): State
    requires aid in s.attempts
  {
    if a.key.None? then Move(s, aid, Reserved)
    else
      var (cache, r) := LookInCache(s.cache, SlotOf(a).value);
      Move(s.(cache := cache), aid, PhaseFor(r, Checking))
  }

  function DoCheckRow(s: State, aid: nat, a: Attempt): State
    requires aid in s.attempts && a.key.Some?
  {
    var slot := SlotOf(a).value;
    var (cache, r) := LookInTable(s.cache, slot, RowOf(s.db.idem, slot), a.hash);
    Move(s.(cache := cache), aid, PhaseFor(r, Reserved))
  }

  function PhaseAfter(request: Request, db: Db, answer: Response): Phase {
    if request.Withdraw? then Debited(|db.withdrawals|) else Answering(answer)
  }

  function DoTransaction(s: State, aid: nat, a: Attempt, commits: bool): State
    requires aid in s.attempts
  {
    match Transact(s.db, a.agent, a.request, SlotOf(a), a.hash)
    case Refused(why) => Move(s, aid, Failing(Refusal(why)))
    case Unchanged(answer) => Move(s, aid, Finished(Ok(answer)))
    case Changed(db, answer) =>
      var cached := s.(cache := Remembered(s.cache, SlotOf(a), answer));
      if !commits then Move(cached, aid, Failing(CommitFailed))
      else
        Move(cached.(db := db, effects := s.effects + [EffectOf(s, aid, a)]), aid, PhaseAfter(a.request, s.db, answer))
  }

  function BalanceAfter(db: Db, a: Attempt): int
    requires a.request.Deposit?
  {
    Get(db.available, a.agent) + a.request.amount
  }

  function EffectOf(s: State, aid: nat, a: Attempt): Effect {
    Effect(aid, SlotOf(a),
           if a.request.Withdraw? then Some(|s.db.withdrawals|) else None,
           if a.request.Pay? then Some(PaymentOf(a.agent, a.request.to, a.request.amount, SlotOf(a), a.request.nonce))
           else None,
           if a.request.Deposit? then Some(BalanceAfter(s.db, a)) else None)
  }

  function DoStoreFinal(s: State, aid: nat, a: Attempt, pid: nat, commits: bool): State
    requires aid in s.attempts
  {
    var body := Withdrawn(pid, if a.request.Withdraw? then a.request.amount else 0);
    var cached := s.(cache := Remembered(s.cache, SlotOf(a), body));
    if !commits then Move(cached, aid, Failing(CommitFailed))
    else
      Move(cached.(db := s.db.(idem := StoreRow(s.db.idem, SlotOf(a), IdemRow(a.hash, 200, body)))),
           aid, Answering(body))
  }

  function SetRow(s: State, pid: nat, status: WithdrawalStatus, commits: bool): State {
    if commits && pid < |s.db.withdrawals| then s.(db := SetStatus(s.db, pid, status)) else s
  }

  function PendingAmong(db: Db, pids: set<nat>): set<nat> {
    set pid | pid in pids && pid < |db.withdrawals| && db.withdrawals[pid].status == Pending
  }

  function DoReconcile(s: State, pid: nat, matched: bool, commits: bool): State {
    SetRow(s, pid, if matched then Completed else NeedsReview, commits).(stale := s.stale - {pid})
  }

  predicate Confirmed(calls: map<nat, seq<Post>>, pid: nat) {
    pid in calls && EndsAnswered(calls[pid])
  }

  /** A step that its attempt, call or withdrawal is not ready for does nothing. */
  function Next(s: State, step: Step): State {
    match step
    case Begin(aid, agent, key, hash, request) =>
      if aid in s.attempts then s
      else s.(attempts := s.attempts[aid := Attempt(agent, key, hash, request, Starting)])
    case Forget(slot) => s.(cache := s.cache - {slot})
    case PostTransfer(pid, post) =>
      if pid in s.calls && MayPost(s.calls[pid]) then s.(calls := s.calls[pid := s.calls[pid] + [post]]) else s
    case Scan(pids) => s.(stale := s.stale + PendingAmong(s.db, pids))
    case Reconcile(pid, matched, commits) => if pid in s.stale then DoReconcile(s, pid, matched, commits) else s
    case _ =>
      if step.aid !in s.attempts then s else NextOf(s, step, step.aid, s.attempts[step.aid])
  }

  function NextOf(s: State, step: Step, aid: nat, a: Attempt): State
    requires OfAttempt(step) && aid in s.attempts
  {
    match (step, a.phase)
    case (ReserveKey(_), Starting) => DoReserveKey(s, aid, a)
    case (LoseRace(_), Starting) =>
      if a.key.Some? && SlotOf(a).value in s.cache then Move(s, aid, Failing(Busy)) else s
    case (CheckRow(_), Checking) => if a.key.Some? then DoCheckRow(s, aid, a) else s
    case (RunTransaction(_, commits), Reserved) => DoTransaction(s, aid, a, commits)
    case (StartCall(_), Debited(pid)) =>
      if OnChain(a.request) then Move(s.(calls := s.calls[pid := []]), aid, Calling(pid)) else s
    case (WalletReturns(_), Calling(pid)) =>
      if Confirmed(s.calls, pid) then Move(s, aid, Phase.Sent(pid)) else s
    case (WalletFails(_), Calling(pid)) => Move(s, aid, WalletFailed(pid))
    case (MarkNeedsReview(_, commits), WalletFailed(pid)) =>
      Move(SetRow(s, pid, NeedsReview, commits), aid, Failing(if commits then WalletError else CommitFailed))
    case (MarkCompleted(_, commits), Sent(pid)) =>
      Move(SetRow(s, pid, Completed, commits), aid, if commits then Settled(pid) else Failing(CommitFailed))
    case (MarkCompleted(_, commits), Debited(pid)) =>
      if OnChain(a.request) then s
      else Move(SetRow(s, pid, Completed, commits), aid, if commits then Settled(pid) else Failing(CommitFailed))
    case (StoreFinal(_, commits), Settled(pid)) => DoStoreFinal(s, aid, a, pid, commits)
    case (Return(_), Answering(body)) => Move(s, aid, Finished(Ok(body)))
    case (Fail(_), _) => if Live(a.phase) then Move(s, aid, Failing(Interrupted)) else s
    case (ReleaseKey(_), Failing(why)) =>
      Move(s.(cache := Released(s.cache, SlotOf(a))), aid, Finished(Err(why)))
    case (Crash(_), _) => if Live(a.phase) then Move(s, aid, Crashed) else s
    case _ => s
  }

  predicate OnChain(request: Request) {
    request.Withdraw? && request.onchain
  }

  /** The steps of a withdrawal after its debit. */
  predicate AfterDebit(step: Step) {
    || step.StartCall? || step.WalletReturns? || step.WalletFails?
    || step.MarkNeedsReview? || step.MarkCompleted? || step.StoreFinal?
  }

  /** Two attempts share a slot exactly when agent, key and kind of request are the same. */
  lemma SlotsExactly(a: Attempt, b: Attempt)
    ensures SlotOf(a).Some? <==> a.key.Some?
    ensures SlotOf(a).Some? && SlotOf(a) == SlotOf(b)
        <==> && a.key.Some? && a.agent == b.agent && a.key == b.key
             && a.request.Deposit? == b.request.Deposit? && a.request.Withdraw? == b.request.Withdraw?
  {
  }

  lemma EndedTakesNoStep(s: State, step: Step, aid: nat)
    requires OfAttempt(step) && aid in s.attempts
    requires s.attempts[aid].phase.Finished? || s.attempts[aid].phase.Crashed?
    ensures NextOf(s, step, aid, s.attempts[aid]) == s
  {
  }

  lemma OthersStay(s: State, step: Step, aid: nat, b: nat)
    requires OfAttempt(step) && aid in s.attempts && b in s.attempts && b != aid
    ensures b in NextOf(s, step, aid, s.attempts[aid]).attempts
    ensures NextOf(s, step, aid, s.attempts[aid]).attempts[b] == s.attempts[b]
  {
  }

  /** Nothing happens to an attempt after its end. */
  lemma EndedStays(s: State, step: Step, aid: nat)
    requires aid in s.attempts && (s.attempts[aid].phase.Finished? || s.attempts[aid].phase.Crashed?)
    ensures aid in Next(s, step).attempts && Next(s, step).attempts[aid] == s.attempts[aid]
  {
    if OfAttempt(step) && step.aid in s.attempts {
      if step.aid == aid { EndedTakesNoStep(s, step, aid); } else { OthersStay(s, step, step.aid, aid); }
    }
  }

  /** Before its end it can fail or crash at any time. */
  lemma MayEnd(s: State, aid: nat)
    requires aid in s.attempts && !s.attempts[aid].phase.Finished? && !s.attempts[aid].phase.Crashed?
    ensures Next(s, Fail(aid)) == Move(s, aid, Failing(Interrupted)) && Next(s, Crash(aid)) == Move(s, aid, Crashed)
  {
  }

  /** The recovery loop finds, among the rows it looks at, those that are pending. */
  lemma ScanExactly(s: State, pids: set<nat>, pid: nat)
    ensures pid in Next(s, Scan(pids)).stale
        <==> pid in s.stale || (pid in pids && pid < |s.db.withdrawals| && s.db.withdrawals[pid].status == Pending)
  {
  }

  /** Only the sentinel is released, and only that of the key. */
  lemma ReleasedExactly(cache: Cache, slot: Slot, k: Slot)
    ensures k in Released(cache, Some(slot)) <==> k in cache && !(k == slot && cache[k] == Processing)
    ensures k in Released(cache, Some(slot)) ==> Released(cache, Some(slot))[k] == cache[k]
    ensures Released(cache, None) == cache
  {
  }

  function Run(s: State, steps: seq<Step>): State {
    if steps == [] then s else Next(Run(s, steps[..|steps| - 1]), steps[|steps| - 1])
  }

  lemma RunSnoc(s: State, steps: seq<Step>, step: Step)
    ensures Run(s, steps + [step]) == Next(Run(s, steps), step)
  {
    assert (steps + [step])[..|steps|] == steps;
  }

  lemma {:induction false} RunConcat(s: State, first: seq<Step>, second: seq<Step>)
    ensures Run(s, first + second) == Run(Run(s, first), second)
  {
    if second == [] {
      assert first + second == first;
    } else {
      var rest, last := second[..|second| - 1], second[|second| - 1];
      RunConcat(s, first, rest);
      assert first + second == first + rest + [last];
      RunSnoc(s, first + rest, last);
    }
  }

  lemma RunOne(s: State, step: Step)
    ensures Run(s, [step]) == Next(s, step)
  {
    assert [step][..0] == [];
  }

  lemma StartOne(s: State, aid: nat, pid: nat)
    requires aid in s.attempts && s.attempts[aid].phase == Debited(pid) && OnChain(s.attempts[aid].request)
    ensures Next(s, StartCall(aid)) == Move(s.(calls := s.calls[pid := []]), aid, Calling(pid))
  {
  }

  lemma PostOne(s: State, pid: nat, before: seq<Post>, last: Post)
    requires pid in s.calls && s.calls[pid] == before && MayPost(before)
    ensures Next(s, PostTransfer(pid, last)) == s.(calls := s.calls[pid := before + [last]])
  {
  }

  /** Steps of one attempt, from a handler that is already under way, and posts of its wallet call. */
  predicate StepsOf(steps: seq<Step>, aid: nat) {
    forall i :: 0 <= i < |steps| ==> steps[i].PostTransfer? || (OfAttempt(steps[i]) && steps[i].aid == aid)
  }

  const INITIAL := State(EMPTY, map[], map[], [], map[], {})
}
