/**
 The request handlers of api/routers/balance.py and api/routers/payments.py over tables and
 a cache that they update in place. `commits` and `fate` are what the
 database and the wallet do.
 */
module Hub {
  import opened Common
  import opened Books
  import opened Wallet
  import opened Requests

  type Fate = f: seq<Post> | |f| == MAX_POSTS witness [Answered, Answered, Answered]

  // What goes wrong, if anything, on the way of one request: which commits fail, what becomes
  // of the posts of the wallet call, how many of them the handler waits for, and whether
  // something raises after the last commit.
  datatype Faults = Faults(commits: bool, fate: Fate, waits: nat, completes: bool,
                           reviewCommits: bool, finalCommits: bool, raises: bool)

  /** What a database session with this outcome leaves in the tables and the cache, and answers. */
  predicate Session(outcome: Outcome, slot: Option<Slot>, commits: bool,
                    before: Db, cacheBefore: Cache, after: Db, cacheAfter: Cache, r: Reply)
  {
    match outcome
    case Refused(why) => after == before && cacheAfter == cacheBefore && r == Err(Refusal(why))
    case Unchanged(answer) => after == before && cacheAfter == cacheBefore && r == Ok(answer)
    case Changed(db, answer) =>
      && cacheAfter == Remembered(cacheBefore, slot, answer)
      && after == (if commits then db else before)
      && r == (if commits then Ok(answer) else Err(CommitFailed))
  }

  /** Where a session leaves its attempt, by what it answered. */
  function PhaseAfterSession(request: Request, r: Reply): Phase {
    match r
    case Err(why) => Failing(why)
    case Ok(InProgress(pid, _)) => if request.Withdraw? then Debited(pid) else Answering(r.value)
    case Ok(Duplicate(_)) => Finished(r)
    case Ok(body) => Answering(body)
  }

  /** Which answer belongs to which request. */
  lemma AnswersOf(db: Db, agent: AgentId, request: Request, slot: Option<Slot>, hash: string)
    ensures match Transact(db, agent, request, slot, hash)
            case Refused(_) => true
            case Unchanged(answer) => answer.Duplicate? && !request.Withdraw?
            case Changed(after, answer) =>
              && !answer.Duplicate? && (answer.InProgress? <==> request.Withdraw?)
              && (request.Withdraw? ==> answer.pid == |db.withdrawals| < |after.withdrawals|)
  {
  }

  /** A database session is the transaction step of the protocol. */
  lemma SessionMoves(s: State, aid: nat, a: Attempt, commits: bool, db: Db, cache: Cache, r: Reply)
    requires aid in s.attempts && s.attempts[aid] == a.(phase := Reserved)
    requires Session(Transact(s.db, a.agent, a.request, SlotOf(a), a.hash), SlotOf(a), commits,
                     s.db, s.cache, db, cache, r)
    ensures var t := Next(s, RunTransaction(aid, commits));
      && t == s.(db := db, cache := cache, attempts := t.attempts, effects := t.effects)
      && aid in t.attempts && t.attempts[aid] == a.(phase := PhaseAfterSession(a.request, r))
    ensures r.Ok? && a.request.Withdraw? ==> r.value.InProgress? && r.value.pid < |db.withdrawals|
  {
    AnswersOf(s.db, a.agent, a.request, SlotOf(a), a.hash);
    assert Next(s, RunTransaction(aid, commits)) == DoTransaction(s, aid, s.attempts[aid], commits);
  }

  /** The protocol steps of a wallet call that makes these posts. */
  function PostSteps(pid: nat, posts: seq<Post>): (steps: seq<Step>)
    ensures |steps| == |posts| && forall i :: 0 <= i < |steps| ==> steps[i].PostTransfer?
  {
    if posts == [] then []
    else PostSteps(pid, posts[..|posts| - 1]) + [PostTransfer(pid, posts[|posts| - 1])]
  }

  function CallSteps(aid: nat, pid: nat, posts: seq<Post>, answered: bool): (steps: seq<Step>)
    ensures StepsOf(steps, aid)
  {
    [StartCall(aid)] + PostSteps(pid, posts) + [if answered then WalletReturns(aid) else WalletFails(aid)]
  }

  lemma PostLast(s: State, t: State, pid: nat, before: seq<Post>, last: Post)
    requires t == s.(calls := s.calls[pid := before]) && MayPost(before)
    ensures Next(t, PostTransfer(pid, last)) == s.(calls := s.calls[pid := before + [last]])
  {
    PostOne(t, pid, before, last);
    assert t.calls[pid := before + [last]] == s.calls[pid := before + [last]];
  }

  lemma {:induction false} PostRun(s: State, pid: nat, posts: seq<Post>)
    requires pid in s.calls && s.calls[pid] == [] && IsCall(posts)
    ensures Run(s, PostSteps(pid, posts)) == s.(calls := s.calls[pid := posts])
  {
    if posts == [] {
      assert s.calls[pid := []] == s.calls;
    } else {
      var before, last := posts[..|posts| - 1], posts[|posts| - 1];
      PostRun(s, pid, before);
      assert before + [last] == posts;
      RunSnoc(s, PostSteps(pid, before), PostTransfer(pid, last));
      PostLast(s, Run(s, PostSteps(pid, before)), pid, before, last);
    }
  }

  lemma EndOne(s: State, aid: nat, pid: nat, answered: bool)
    requires aid in s.attempts && s.attempts[aid].phase == Calling(pid) && (answered ==> Confirmed(s.calls, pid))
    ensures Next(s, if answered then WalletReturns(aid) else WalletFails(aid))
         == Move(s, aid, if answered then Phase.Sent(pid) else WalletFailed(pid))
  {
  }

  lemma CallRun(s: State, aid: nat, pid: nat, posts: seq<Post>, answered: bool)
    requires aid in s.attempts && s.attempts[aid].phase == Debited(pid) && OnChain(s.attempts[aid].request)
    requires IsCall(posts) && (answered ==> EndsAnswered(posts))
    ensures Run(s, CallSteps(aid, pid, posts, answered))
         == Move(s, aid, if answered then Phase.Sent(pid) else WalletFailed(pid)).(calls := s.calls[pid := posts])
  {
    var last := if answered then WalletReturns(aid) else WalletFails(aid);
    var started := Next(s, StartCall(aid));
    StartOne(s, aid, pid);
    RunOne(s, StartCall(aid));
    PostRun(started, pid, posts);
    RunConcat(s, [StartCall(aid)], PostSteps(pid, posts));
    RunSnoc(s, [StartCall(aid)] + PostSteps(pid, posts), last);
    assert started.calls[pid := posts] == s.calls[pid := posts];
    EndOne(started.(calls := s.calls[pid := posts]), aid, pid, answered);
  }

  class HubServer {
    var available: map<AgentId, int>
    var deposited: map<AgentId, int>
    var withdrawn: map<AgentId, int>
    var address: map<AgentId, string>
    var withdrawals: seq<Withdrawal>
    var routes: map<PaymentId, Route>
    var fees: seq<Fee>
    var idem: map<Slot, IdemRow>
    var cache: Cache
    // The histories of the protocol: they only serve to compare with it.
    ghost var attempts: map<nat, Attempt>
    ghost var effects: seq<Effect>
    ghost var calls: map<nat, seq<Post>>
    ghost var stale: set<nat>

    function Tables(): Db
      reads this
    {
      Db(available, deposited, withdrawn, address, withdrawals, routes, fees, idem)
    }

    ghost function Now(): State
      reads this
    {
      State(Tables(), cache, attempts, effects, calls, stale)
    }

    constructor ()
      ensures Now() == INITIAL
    {
      attempts, effects, calls, stale := map[], [], map[], {};
      available, deposited, withdrawn, address := map[], map[], map[], map[];
      withdrawals, routes, fees, idem, cache := [], map[], [], map[], map[];
    }

    // -------------------------------------------------------------- idempotency store

    /** The cache part of try_reserve: atomic in Redis (SET NX) and under the lock of the local dictionary. */
    method ReserveInCache(slot: Slot) returns (r: Reservation)
      modifies `cache
      ensures (cache, r) == LookInCache(old(cache), slot)
    {
      if slot in cache {
        if cache[slot] == Processing {
          return Err(Busy);
        }
        return Ok(Some(cache[slot].body));
      }
      cache := cache[slot := Processing];
      r := Ok(None);
    }

    /** The database part of try_reserve. */
    method CheckTable(slot: Slot, hash: string) returns (r: Reservation)
      modifies `cache
      ensures (cache, r) == LookInTable(old(cache), slot, RowOf(idem, slot), hash)
    {
      if slot !in idem {
        return Ok(None);
      }
      if idem[slot].requestHash != hash {
        return Err(BodyMismatch);
      }
      cache := cache[slot := Cached(idem[slot].body)];
      r := Ok(Some(idem[slot].body));
    }

    method Release(slot: Option<Slot>)
      modifies `cache
      ensures cache == Released(old(cache), slot)
    {
      if slot.Some? && slot.value in cache && cache[slot.value] == Processing {
        cache := cache - {slot.value};
      }
    }

    // -------------------------------------------------------------- database sessions

    method DeductAndCreatePending(agent: AgentId, amount: nat, to: string,
                                  slot: Option<Slot>, hash: string, commits: bool)
      returns (r: Reply)
      modifies `available, `deposited, `withdrawn, `withdrawals, `routes, `fees, `idem, `cache
      ensures Session(WithdrawTx(old(Tables()), agent, amount, to, slot, hash), slot, commits,
                      old(Tables()), old(cache), Tables(), cache, r)
    {
      if agent in address && address[agent] == to {
        return Err(Refusal(SelfSend));
      }
      var have := Get(available, agent);
      if have < amount {
        return Err(Refusal(InsufficientBalance));
      }
      var inProgress := InProgress(|withdrawals|, amount);
      cache := Remembered(cache, slot, inProgress);
      if !commits {
        return Err(CommitFailed);
      }
      available := available[agent := have - amount];
      withdrawn := Add(withdrawn, agent, amount);
      withdrawals := withdrawals + [Withdrawal(agent, amount, to, Pending)];
      idem := StoreRow(idem, slot, IdemRow(hash, 202, inProgress));
      r := Ok(inProgress);
    }

    method CreditDeposit(agent: AgentId, amount: nat, slot: Option<Slot>, hash: string, commits: bool)
      returns (r: Reply)
      modifies `available, `deposited, `withdrawn, `withdrawals, `routes, `fees, `idem, `cache
      ensures Session(DepositTx(old(Tables()), agent, amount, slot, hash), slot, commits,
                      old(Tables()), old(cache), Tables(), cache, r)
    {
      var balance := Get(available, agent) + amount;
      var response := Deposited(amount, balance);
      cache := Remembered(cache, slot, response);
      if !commits {
        return Err(CommitFailed);
      }
      available := available[agent := balance];
      deposited := Add(deposited, agent, amount);
      idem := StoreRow(idem, slot, IdemRow(hash, 200, response));
      r := Ok(response);
    }

    /** The writes of one transfer: the sender pays amount and fee, the recipient gets the amount. */
    method WriteTransfer(payment: PaymentId, route: Route, slot: Option<Slot>, row: IdemRow)
      modifies `available, `routes, `fees, `idem
      ensures Tables() == old(Tables()).(
                available := Add(Add(old(available), route.from, 0 - (route.amount + route.fee)),
                                 route.to, route.amount),
                routes := old(routes)[payment := route],
                fees := old(fees) + [Fee(payment, route.from, route.fee)],
                idem := StoreRow(old(idem), slot, row))
    {
      available := available[route.from := Get(available, route.from) - (route.amount + route.fee)];
      available := available[route.to := Get(available, route.to) + route.amount];
      routes := routes[payment := route];
      fees := fees + [Fee(payment, route.from, route.fee)];
      idem := StoreRow(idem, slot, row);
    }

    /** Route, balance check, debit and credit, fee row and response, under one commit. */
    method ExecuteHubTransfer(agent: AgentId, to: AgentId, amount: nat, tier: Tier, nonce: nat,
                              slot: Option<Slot>, hash: string, commits: bool)
      returns (r: Reply)
      modifies `available, `deposited, `withdrawn, `withdrawals, `routes, `fees, `idem, `cache
      ensures Session(PayTx(old(Tables()), agent, to, amount, tier, nonce, slot, hash), slot, commits,
                      old(Tables()), old(cache), Tables(), cache, r)
    {
      if agent == to {
        return Err(Refusal(SelfPayment));
      }
      var payment := PaymentOf(agent, to, amount, slot, nonce);
      if payment in routes {
        return Ok(Duplicate(payment));
      }
      var fee := ComputeFee(amount, tier);
      var have := Get(available, agent);
      if have < amount + fee {
        return Err(Refusal(InsufficientBalance));
      }
      var response := Paid(payment, amount, fee);
      cache := Remembered(cache, slot, response);
      if !commits {
        return Err(CommitFailed);
      }
      WriteTransfer(payment, Route(agent, to, amount, fee, true), slot, IdemRow(hash, 200, response));
      r := Ok(response);
    }

    /** mark_completed and mark_needs_review, each in a session of its own. */
    method SetRowStatus(pid: nat, status: WithdrawalStatus, commits: bool)
      requires pid < |withdrawals|
      modifies `withdrawals
      ensures Tables() == if commits then SetStatus(old(Tables()), pid, status) else old(Tables())
    {
      if commits {
        withdrawals := withdrawals[pid := withdrawals[pid].(status := status)];
      }
    }

    /** The final response replaces the in-progress one, in a session of its own. */
    method StoreFinalResponse(slot: Option<Slot>, hash: string, response: Response, commits: bool)
      modifies `idem, `cache
      ensures cache == Remembered(old(cache), slot, response)
      ensures idem == if commits then StoreRow(old(idem), slot, IdemRow(hash, 200, response)) else old(idem)
    {
      cache := Remembered(cache, slot, response);
      if commits {
        idem := StoreRow(idem, slot, IdemRow(hash, 200, response));
      }
    }

    // -------------------------------------------------------------- handlers as protocol runs

    ghost predicate At(aid: nat, a: Attempt, phase: Phase)
      reads this
    {
      aid in attempts && attempts[aid] == a.(phase := phase)
    }

    ghost method Goes(aid: nat, a: Attempt, phase: Phase)
      requires aid in attempts
      modifies `attempts
      ensures attempts == old(attempts)[aid := a.(phase := phase)]
    {
      attempts := attempts[aid := a.(phase := phase)];
    }

    method Reserve(ghost aid: nat, a: Attempt) returns (r: Reservation)
      requires At(aid, a, Starting)
      modifies `cache, `attempts
      ensures Now() == Next(old(Now()), ReserveKey(aid))
      ensures At(aid, a, if a.key.Some? then PhaseFor(r, Checking) else Reserved) && (a.key.None? ==> r == Ok(None))
    {
      if a.key.None? {
        Goes(aid, a, Reserved);
        return Ok(None);
      }
      r := ReserveInCache(SlotOf(a).value);
      Goes(aid, a, PhaseFor(r, Checking));
    }

    method Check(ghost aid: nat, a: Attempt) returns (r: Reservation)
      requires At(aid, a, Checking) && a.key.Some?
      modifies `cache, `attempts
      ensures Now() == Next(old(Now()), CheckRow(aid))
      ensures At(aid, a, PhaseFor(r, Reserved))
    {
      r := CheckTable(SlotOf(a).value, a.hash);
      Goes(aid, a, PhaseFor(r, Reserved));
    }

    method RunSession(a: Attempt, commits: bool) returns (r: Reply)
      modifies `available, `deposited, `withdrawn, `withdrawals, `routes, `fees, `idem, `cache
      ensures Session(Transact(old(Tables()), a.agent, a.request, SlotOf(a), a.hash), SlotOf(a), commits,
                      old(Tables()), old(cache), Tables(), cache, r)
    {
      match a.request {
        case Withdraw(amount, to, _) => r := DeductAndCreatePending(a.agent, amount, to, SlotOf(a), a.hash, commits);
        case Deposit(amount) => r := CreditDeposit(a.agent, amount, SlotOf(a), a.hash, commits);
        case Pay(to, amount, tier, nonce) =>
          r := ExecuteHubTransfer(a.agent, to, amount, tier, nonce, SlotOf(a), a.hash, commits);
      }
    }

    method Transaction(ghost aid: nat, a: Attempt, commits: bool) returns (r: Reply)
      requires At(aid, a, Reserved)
      modifies this
      ensures Now() == Next(old(Now()), RunTransaction(aid, commits))
      ensures At(aid, a, PhaseAfterSession(a.request, r))
      ensures r.Ok? && a.request.Withdraw? ==> r.value.InProgress? && r.value.pid < |withdrawals|
    {
      ghost var before := Now();
      r := RunSession(a, commits);
      SessionMoves(before, aid, a, commits, Tables(), cache, r);
      ghost var after := Next(before, RunTransaction(aid, commits));
      attempts, effects := after.attempts, after.effects;
    }

    method ReleaseOnError(ghost aid: nat, a: Attempt, ghost why: Failure)
      requires At(aid, a, Failing(why))
      modifies `cache, `attempts
      ensures Now() == Next(old(Now()), ReleaseKey(aid)) && At(aid, a, Finished(Err(why)))
    {
      Release(SlotOf(a));
      Goes(aid, a, Finished(Err(why)));
    }

    /** The wallet thread starts, posts as far as the handler waits for it, and succeeds or not. */
    method SubmitToWallet(ghost aid: nat, a: Attempt, ghost pid: nat, fate: Fate, waits: nat)
      returns (answered: bool, ghost trace: seq<Step>)
      requires At(aid, a, Debited(pid)) && OnChain(a.request)
      modifies `calls, `attempts
      ensures Now() == Run(old(Now()), trace) && StepsOf(trace, aid)
      ensures At(aid, a, if answered then Phase.Sent(pid) else WalletFailed(pid))
    {
      ghost var start := Now();
      var posts := Call(fate, waits);
      answered := EndsAnswered(posts);
      trace := CallSteps(aid, pid, posts, answered);
      CallRun(start, aid, pid, posts, answered);
      calls := calls[pid := posts];
      Goes(aid, a, if answered then Phase.Sent(pid) else WalletFailed(pid));
    }

    method NeedReview(ghost aid: nat, a: Attempt, pid: nat, commits: bool) returns (r: Reply)
      requires At(aid, a, WalletFailed(pid)) && pid < |withdrawals|
      modifies `withdrawals, `attempts
      ensures Now() == Next(old(Now()), MarkNeedsReview(aid, commits))
      ensures r == Err(if commits then WalletError else CommitFailed) && At(aid, a, Failing(r.error))
    {
      SetRowStatus(pid, NeedsReview, commits);
      r := Err(if commits then WalletError else CommitFailed);
      Goes(aid, a, Failing(r.error));
    }

    method Complete(ghost aid: nat, a: Attempt, pid: nat, commits: bool)
      requires pid < |withdrawals|
      requires if OnChain(a.request) then At(aid, a, Phase.Sent(pid)) else At(aid, a, Debited(pid))
      modifies `withdrawals, `attempts
      ensures Now() == Next(old(Now()), MarkCompleted(aid, commits))
      ensures At(aid, a, if commits then Settled(pid) else Failing(CommitFailed))
    {
      SetRowStatus(pid, Completed, commits);
      Goes(aid, a, if commits then Settled(pid) else Failing(CommitFailed));
    }

    method Finalize(ghost aid: nat, a: Attempt, pid: nat, commits: bool) returns (r: Reply)
      requires At(aid, a, Settled(pid)) && a.request.Withdraw?
      modifies `idem, `cache, `attempts
      ensures Now() == Next(old(Now()), StoreFinal(aid, commits))
      ensures r == if commits then Ok(Withdrawn(pid, a.request.amount)) else Err(CommitFailed)
      ensures At(aid, a, if commits then Answering(r.value) else Failing(CommitFailed))
    {
      var response := Withdrawn(pid, a.request.amount);
      StoreFinalResponse(SlotOf(a), a.hash, response, commits);
      r := if commits then Ok(response) else Err(CommitFailed);
      Goes(aid, a, if commits then Answering(response) else Failing(CommitFailed));
    }

    /** What happens between the last commit and the response: metrics, audit log, webhook. */
    method Answer(ghost aid: nat, a: Attempt, body: Response, raises: bool) returns (r: Reply)
      requires At(aid, a, Answering(body))
      modifies `attempts
      ensures Now() == Next(old(Now()), if raises then Step.Fail(aid) else Return(aid))
      ensures r == if raises then Err(Interrupted) else Ok(body)
      ensures At(aid, a, if raises then Failing(Interrupted) else Finished(r))
    {
      r := if raises then Err(Interrupted) else Ok(body);
      Goes(aid, a, if raises then Failing(Interrupted) else Finished(r));
    }

    /** try_reserve. */
    method TryReserve(ghost aid: nat, a: Attempt) returns (r: Reservation, ghost trace: seq<Step>)
      requires At(aid, a, Starting)
      modifies `cache, `attempts
      ensures Now() == Run(old(Now()), trace) && StepsOf(trace, aid)
      ensures At(aid, a, PhaseFor(r, Reserved))
    {
      trace := [ReserveKey(aid)];
      RunOne(Now(), ReserveKey(aid));
      ghost var start := Now();
      r := Reserve(aid, a);
      if r == Ok(None) && a.key.Some? {
        RunSnoc(start, trace, CheckRow(aid));
        trace := trace + [CheckRow(aid)];
        r := Check(aid, a);
      }
    }

    /** Completed, or marked for review because the call raised or timed out. */
    method RecordOutcome(ghost aid: nat, a: Attempt, pid: nat, answered: bool, f: Faults)
      returns (r: Result<(), Failure>, ghost step: Step)
      requires At(aid, a, if answered then Phase.Sent(pid) else WalletFailed(pid))
      requires OnChain(a.request) && pid < |withdrawals|
      modifies `withdrawals, `attempts
      ensures Now() == Next(old(Now()), step) && OfAttempt(step) && step.aid == aid
      ensures r.Ok? ==> answered
      ensures At(aid, a, if r.Ok? then Settled(pid) else Failing(r.error))
    {
      if answered {
        step := MarkCompleted(aid, f.completes);
        Complete(aid, a, pid, f.completes);
        r := if f.completes then Ok(()) else Err(CommitFailed);
      } else {
        step := MarkNeedsReview(aid, f.reviewCommits);
        var failed := NeedReview(aid, a, pid, f.reviewCommits);
        r := Err(failed.error);
      }
    }

    /** `_process_onchain_withdrawal`. */
    method ProcessOnChain(ghost aid: nat, a: Attempt, pid: nat, f: Faults)
      returns (r: Result<(), Failure>, ghost trace: seq<Step>)
      requires At(aid, a, Debited(pid)) && OnChain(a.request) && pid < |withdrawals|
      modifies `withdrawals, `calls, `attempts
      ensures Now() == Run(old(Now()), trace) && StepsOf(trace, aid)
      ensures At(aid, a, if r.Ok? then Settled(pid) else Failing(r.error))
    {
      ghost var start, step := Now(), Return(aid);
      var answered;
      answered, trace := SubmitToWallet(aid, a, pid, f.fate, f.waits);
      r, step := RecordOutcome(aid, a, pid, answered, f);
      RunSnoc(start, trace, step);
      trace := trace + [step];
    }

    /** `_process_ledger_withdrawal`. */
    method ProcessLedger(ghost aid: nat, a: Attempt, pid: nat, f: Faults)
      returns (r: Result<(), Failure>, ghost trace: seq<Step>)
      requires At(aid, a, Debited(pid)) && !OnChain(a.request) && pid < |withdrawals|
      modifies `withdrawals, `attempts
      ensures Now() == Run(old(Now()), trace) && StepsOf(trace, aid)
      ensures At(aid, a, if r.Ok? then Settled(pid) else Failing(r.error))
    {
      RunOne(Now(), MarkCompleted(aid, f.completes));
      trace := [MarkCompleted(aid, f.completes)];
      Complete(aid, a, pid, f.completes);
      r := if f.completes then Ok(()) else Err(CommitFailed);
    }

    /** The final response and what follows it. */
    method FinishWithdrawal(ghost aid: nat, a: Attempt, pid: nat, f: Faults) returns (r: Reply, ghost trace: seq<Step>)
      requires At(aid, a, Settled(pid)) && a.request.Withdraw?
      modifies `idem, `cache, `attempts
      ensures Now() == Run(old(Now()), trace) && StepsOf(trace, aid)
      ensures At(aid, a, if r.Ok? then Finished(r) else Failing(r.error))
    {
      ghost var start := Now();
      RunOne(start, StoreFinal(aid, f.finalCommits));
      trace := [StoreFinal(aid, f.finalCommits)];
      r := Finalize(aid, a, pid, f.finalCommits);
      if r.Ok? {
        ghost var step := if f.raises then Step.Fail(aid) else Return(aid);
        RunSnoc(start, trace, step);
        trace := trace + [step];
        r := Answer(aid, a, r.value, f.raises);
      }
    }

    /** A withdrawal after its debit. */
    method ProcessWithdrawal(ghost aid: nat, a: Attempt, pid: nat, f: Faults) returns (r: Reply, ghost trace: seq<Step>)
      requires At(aid, a, Debited(pid)) && a.request.Withdraw? && pid < |withdrawals|
      modifies `withdrawals, `calls, `idem, `cache, `attempts
      ensures Now() == Run(old(Now()), trace) && StepsOf(trace, aid)
      ensures At(aid, a, if r.Ok? then Finished(r) else Failing(r.error))
    {
      ghost var start := Now();
      var sent;
      if OnChain(a.request) {
        sent, trace := ProcessOnChain(aid, a, pid, f);
      } else {
        sent, trace := ProcessLedger(aid, a, pid, f);
      }
      if sent.Err? {
        return Err(sent.error), trace;
      }
      ghost var rest;
      r, rest := FinishWithdrawal(aid, a, pid, f);
      RunConcat(start, trace, rest);
      trace := trace + rest;
    }

    /** What follows a committed deposit or hub payment, or a withdrawal's debit. */
    method AfterTransaction(ghost aid: nat, a: Attempt, body: Response, f: Faults)
      returns (r: Reply, ghost trace: seq<Step>)
      requires if a.request.Withdraw?
               then body.InProgress? && body.pid < |withdrawals| && At(aid, a, Debited(body.pid))
               else At(aid, a, Answering(body))
      modifies this
      ensures Now() == Run(old(Now()), trace) && StepsOf(trace, aid)
      ensures At(aid, a, if r.Ok? then Finished(r) else Failing(r.error))
    {
      if a.request.Withdraw? {
        r, trace := ProcessWithdrawal(aid, a, body.pid, f);
      } else {
        ghost var step := if f.raises then Step.Fail(aid) else Return(aid);
        RunOne(Now(), step);
        trace := [step];
        r := Answer(aid, a, body, f.raises);
      }
    }

    method Serve(ghost aid: nat, a: Attempt, f: Faults) returns (r: Reply, ghost trace: seq<Step>)
      requires At(aid, a, Reserved)
      modifies this
      ensures Now() == Run(old(Now()), trace) && StepsOf(trace, aid)
      ensures At(aid, a, if r.Ok? then Finished(r) else Failing(r.error))
    {
      ghost var start := Now();
      RunOne(start, RunTransaction(aid, f.commits));
      trace := [RunTransaction(aid, f.commits)];
      r := Transaction(aid, a, f.commits);
      if r.Ok? && !r.value.Duplicate? {
        ghost var rest;
        r, rest := AfterTransaction(aid, a, r.value, f);
        RunConcat(start, trace, rest);
        trace := trace + rest;
      }
    }

    /** The body of the handler's try block. */
    method Attend(ghost aid: nat, a: Attempt, f: Faults) returns (r: Reply, ghost trace: seq<Step>)
      requires At(aid, a, Starting)
      modifies this
      ensures Now() == Run(old(Now()), trace) && StepsOf(trace, aid)
      ensures At(aid, a, if r.Ok? then Finished(r) else Failing(r.error))
    {
      ghost var start := Now();
      var reserved;
      reserved, trace := TryReserve(aid, a);
      match reserved {
        case Err(why) => r := Err(why);
        case Ok(Some(body)) => r := Ok(body);
        case Ok(None) =>
          ghost var rest;
          r, rest := Serve(aid, a, f);
          RunConcat(start, trace, rest);
          trace := trace + rest;
      }
    }

    /**
     The three endpoints share one course: reserve the key, run the transaction, finish, and
     on any exception release the key. A handler that runs to its end is a run of the
     protocol, and it ends with the reply it gives.
     */
    method Handle(ghost aid: nat, a: Attempt, f: Faults) returns (r: Reply, ghost trace: seq<Step>)
      requires At(aid, a, Starting)
      modifies this
      ensures Now() == Run(old(Now()), trace) && StepsOf(trace, aid)
      ensures At(aid, a, Finished(r))
    {
      ghost var start := Now();
      r, trace := Attend(aid, a, f);
      if r.Err? {
        RunSnoc(start, trace, ReleaseKey(aid));
        trace := trace + [ReleaseKey(aid)];
        ReleaseOnError(aid, a, r.error);
      }
    }
  }
}
