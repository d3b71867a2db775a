/**
 The hub's books: the tables the money flows of api/routers/balance.py and
 api/routers/payments.py write, and the database transactions they run. Amounts are
 integers in piconero. A transaction is a function from tables to tables; one that raises
 rolls back and leaves the tables alone.
 */
module Books {
  import opened Common

  type AgentId = string

  // ---------------------------------------------------------------- commission

  datatype Tier = Free | Verified | Premium | Enterprise

  const FREE_TIER_RATE_BPS := 30
  const PRO_TIER_RATE_BPS := 10
  const BPS_DENOMINATOR := 10000
  const MIN_FEE := 1

  function RateBps(tier: Tier): nat {
    if tier == Free then FREE_TIER_RATE_BPS else PRO_TIER_RATE_BPS
  }

  /** Rounding half up: the quotient of amount·rate + half the denominator. */
  function ComputeFee(amount: nat, tier: Tier): (fee: nat)
    ensures fee >= MIN_FEE
    ensures -BPS_DENOMINATOR <= 2 * (amount * RateBps(tier) - fee * BPS_DENOMINATOR) < BPS_DENOMINATOR
         || (fee == MIN_FEE && 2 * amount * RateBps(tier) < BPS_DENOMINATOR)
  {
    var rounded := (amount * RateBps(tier) + BPS_DENOMINATOR / 2) / BPS_DENOMINATOR;
    if rounded < MIN_FEE then MIN_FEE else rounded
  }

  /** Sending more never costs less, and a paid tier never costs more than the free one. */
  lemma FeeMonotone(a: nat, b: nat, tier: Tier)
    requires a <= b
    ensures ComputeFee(a, tier) <= ComputeFee(b, tier)
    ensures ComputeFee(a, tier) <= ComputeFee(a, Free)
  {
  }

  /** The fee that is amount·rate/10000 rounded half up, and one piconero where that is less. */
  ghost predicate IsFee(amount: nat, rate: nat, fee: nat) {
    && fee >= 1 && amount * rate + 5000 < (fee + 1) * 10000
    && (fee > 1 ==> fee * 10000 <= amount * rate + 5000)
  }

  /** Thirty in ten thousand on the free tier, ten on each of the others: one fee fits, and it is charged. */
  lemma FeePerTier(amount: nat, fee: nat)
    ensures fee == ComputeFee(amount, Free) <==> IsFee(amount, 30, fee)
    ensures fee == ComputeFee(amount, Verified) <==> IsFee(amount, 10, fee)
    ensures fee == ComputeFee(amount, Premium) <==> IsFee(amount, 10, fee)
    ensures fee == ComputeFee(amount, Enterprise) <==> IsFee(amount, 10, fee)
  {
  }

  ghost predicate IsFeeFor(tier: Tier, amount: nat, fee: nat) {
    IsFee(amount, if tier == Free then 30 else 10, fee)
  }

  // ---------------------------------------------------------------- tables

  datatype Endpoint = DepositEndpoint | WithdrawEndpoint | HubEndpoint

  // Idempotency keys are scoped by agent and endpoint.
  datatype Slot = Slot(agent: AgentId, endpoint: Endpoint, key: string)

  datatype WithdrawalStatus = Pending | Completed | NeedsReview

  datatype Withdrawal = Withdrawal(agent: AgentId, amount: nat, address: string, status: WithdrawalStatus)

  // With an idempotency key the id is a digest of who pays whom how much under which key.
  datatype PaymentId = Derived(from: AgentId, to: AgentId, amount: nat, key: string) | Random(nonce: nat)

  datatype Route = Route(from: AgentId, to: AgentId, amount: nat, fee: nat, confirmed: bool)

  datatype Fee = Fee(payment: PaymentId, payer: AgentId, amount: nat)

  datatype Response =
    | Deposited(amount: nat, newBalance: int)
    | InProgress(pid: nat, amount: nat)
    | Withdrawn(pid: nat, amount: nat)
    | Paid(payment: PaymentId, amount: nat, fee: nat)
    | Duplicate(payment: PaymentId)

  datatype IdemRow = IdemRow(requestHash: string, status: nat, body: Response)

  // The row id of a withdrawal is its position.
  datatype Db = Db(
    available: map<AgentId, int>,
    deposited: map<AgentId, int>,
    withdrawn: map<AgentId, int>,
    address: map<AgentId, string>,
    withdrawals: seq<Withdrawal>,
    routes: map<PaymentId, Route>,
    fees: seq<Fee>,
    idem: map<Slot, IdemRow>)

  const EMPTY := Db(map[], map[], map[], map[], [], map[], [], map[])

  function Get(m: map<AgentId, int>, agent: AgentId): int {
    if agent in m then m[agent] else 0
  }

  function Add(m: map<AgentId, int>, agent: AgentId, amount: int): map<AgentId, int> {
    m[agent := Get(m, agent) + amount]
  }

  function StoreRow(idem: map<Slot, IdemRow>, slot: Option<Slot>, row: IdemRow): map<Slot, IdemRow> {
    if slot.Some? then idem[slot.value := row] else idem
  }

  // ---------------------------------------------------------------- transactions

  datatype Refusal = SelfSend | SelfPayment | InsufficientBalance

  datatype Outcome =
    | Refused(why: Refusal)
    | Unchanged(answer: Response)
    | Changed(db: Db, answer: Response)

  datatype Request =
    | Deposit(amount: nat)
    | Withdraw(amount: nat, address: string, onchain: bool)
    | Pay(to: AgentId, amount: nat, tier: Tier, nonce: nat)

  function DepositTx(db: Db, agent: AgentId, amount: nat, slot: Option<Slot>, hash: string): Outcome {
    var available := Add(db.available, agent, amount);
    var answer := Deposited(amount, available[agent]);
    Changed(db.(available := available, deposited := Add(db.deposited, agent, amount),
                idem := StoreRow(db.idem, slot, IdemRow(hash, 200, answer))), answer)
  }

  function WithdrawTx(db: Db, agent: AgentId, amount: nat, address: string, slot: Option<Slot>, hash: string): Outcome {
    if agent in db.address && db.address[agent] == address then Refused(SelfSend)
    else if Get(db.available, agent) < amount then Refused(InsufficientBalance)
    else
      var answer := InProgress(|db.withdrawals|, amount);
      Changed(db.(available := Add(db.available, agent, 0 - amount),
                  withdrawn := Add(db.withdrawn, agent, amount),
                  withdrawals := db.withdrawals + [Withdrawal(agent, amount, address, Pending)],
                  idem := StoreRow(db.idem, slot, IdemRow(hash, 202, answer))), answer)
  }

  function PaymentOf(from: AgentId, to: AgentId, amount: nat, slot: Option<Slot>, nonce: nat): PaymentId {
    if slot.Some? then Derived(from, to, amount, slot.value.key) else Random(nonce)
  }

  function PayTx(db: Db, from: AgentId, to: AgentId, amount: nat, tier: Tier, nonce: nat,
                 slot: Option<Slot>, hash: string): Outcome
  {
    var payment := PaymentOf(from, to, amount, slot, nonce);
    var fee := ComputeFee(amount, tier);
    if from == to then Refused(SelfPayment)
    else if payment in db.routes then Unchanged(Duplicate(payment))
    else if Get(db.available, from) < amount + fee then Refused(InsufficientBalance)
    else
      var answer := Paid(payment, amount, fee);
      Changed(db.(available := Add(Add(db.available, from, 0 - (amount + fee)), to, amount),
                  routes := db.routes[payment := Route(from, to, amount, fee, true)],
                  fees := db.fees + [Fee(payment, from, fee)],
                  idem := StoreRow(db.idem, slot, IdemRow(hash, 200, answer))), answer)
  }

  function Transact(db: Db, agent: AgentId, request: Request, slot: Option<Slot>, hash: string): Outcome {
    match request
    case Deposit(amount) => DepositTx(db, agent, amount, slot, hash)
    case Withdraw(amount, address, _) => WithdrawTx(db, agent, amount, address, slot, hash)
    case Pay(to, amount, tier, nonce) => PayTx(db, agent, to, amount, tier, nonce, slot, hash)
  }

  // ---------------------------------------------------------------- what they do, column by column

  /** Nobody but these agents has another balance than before. */
  ghost predicate OthersKeep(before: map<AgentId, int>, after: map<AgentId, int>, touched: set<AgentId>) {
    forall a :: a !in touched ==> (a in after <==> a in before) && (a in before ==> after[a] == before[a])
  }

  /** A payment that goes through: who pays what, who gets what, and what is recorded of it. */
  lemma PaymentCharges(db: Db, from: AgentId, to: AgentId, amount: nat, tier: Tier, nonce: nat,
                       slot: Option<Slot>, hash: string)
    requires PayTx(db, from, to, amount, tier, nonce, slot, hash).Changed?
    ensures var after := PayTx(db, from, to, amount, tier, nonce, slot, hash).db;
      && |after.fees| == |db.fees| + 1 && after.fees[..|db.fees|] == db.fees
      && var fee := after.fees[|db.fees|];
         && fee.payer == from && fee.amount >= 0 && IsFeeFor(tier, amount, fee.amount)
         && from in after.available && after.available[from] == Get(db.available, from) - amount - fee.amount >= 0
         && to in after.available && after.available[to] == Get(db.available, to) + amount
         && OthersKeep(db.available, after.available, {from, to})
         && fee.payment !in db.routes
         && after.routes == db.routes[fee.payment := Route(from, to, amount, fee.amount, true)]
         && after == db.(available := after.available, fees := after.fees, routes := after.routes, idem := after.idem)
  {
    FeePerTier(amount, ComputeFee(amount, tier));
  }

  lemma WithdrawalDebits(db: Db, agent: AgentId, amount: nat, address: string, slot: Option<Slot>, hash: string)
    requires WithdrawTx(db, agent, amount, address, slot, hash).Changed?
    ensures var after := WithdrawTx(db, agent, amount, address, slot, hash).db;
      && agent in after.available && after.available[agent] == Get(db.available, agent) - amount >= 0
      && OthersKeep(db.available, after.available, {agent})
      && agent in after.withdrawn && after.withdrawn[agent] == Get(db.withdrawn, agent) + amount
      && OthersKeep(db.withdrawn, after.withdrawn, {agent})
      && after.withdrawals == db.withdrawals + [Withdrawal(agent, amount, address, Pending)]
      && after == db.(available := after.available, withdrawn := after.withdrawn,
                      withdrawals := after.withdrawals, idem := after.idem)
  {
  }

  lemma DepositCredits(db: Db, agent: AgentId, amount: nat, slot: Option<Slot>, hash: string)
    ensures var after := DepositTx(db, agent, amount, slot, hash).db;
      && agent in after.available && after.available[agent] == Get(db.available, agent) + amount
      && OthersKeep(db.available, after.available, {agent})
      && agent in after.deposited && after.deposited[agent] == Get(db.deposited, agent) + amount
      && OthersKeep(db.deposited, after.deposited, {agent})
      && after == db.(available := after.available, deposited := after.deposited, idem := after.idem)
  {
  }

  /** With a key only its own row is written, with the request hash and the answer; without one, none. */
  lemma RowWritten(db: Db, agent: AgentId, request: Request, slot: Option<Slot>, hash: string)
    requires Transact(db, agent, request, slot, hash).Changed?
    ensures var outcome := Transact(db, agent, request, slot, hash);
      && (slot.None? ==> outcome.db.idem == db.idem)
      && (slot.Some? ==>
            var status := if request.Withdraw? then 202 else 200;
            outcome.db.idem == db.idem[slot.value := IdemRow(hash, status, outcome.answer)])
  {
  }

  /** The balance does not cover the request, with the fee of a payment. */
  ghost predicate TooPoor(db: Db, agent: AgentId, request: Request) {
    match request
    case Deposit(_) => false
    case Withdraw(amount, _, _) => Get(db.available, agent) < amount
    case Pay(_, amount, tier, _) =>
      exists fee: nat :: IsFeeFor(tier, amount, fee) && Get(db.available, agent) < amount + fee
  }

  lemma TooPoorExactly(db: Db, agent: AgentId, to: AgentId, amount: nat, tier: Tier, nonce: nat)
    ensures TooPoor(db, agent, Pay(to, amount, tier, nonce))
        <==> Get(db.available, agent) < amount + ComputeFee(amount, tier)
  {
    FeePerTier(amount, ComputeFee(amount, tier));
    forall fee: nat | IsFeeFor(tier, amount, fee) ensures fee == ComputeFee(amount, tier) { FeePerTier(amount, fee); }
    assert IsFeeFor(tier, amount, ComputeFee(amount, tier));
  }

  /** A withdrawal to an address of the agent's own. */
  predicate ToSelf(db: Db, agent: AgentId, request: Request) {
    request.Withdraw? && agent in db.address && db.address[agent] == request.address
  }

  /** What is refused, and for what; a payment that is there already is answered, whatever the balance. */
  lemma RefusedExactly(db: Db, agent: AgentId, request: Request, slot: Option<Slot>, hash: string)
    ensures var outcome := Transact(db, agent, request, slot, hash);
      var known := request.Pay? && PaymentOf(agent, request.to, request.amount, slot, request.nonce) in db.routes;
      var selfPayment := request.Pay? && request.to == agent;
      && (outcome == Refused(SelfPayment) <==> selfPayment)
      && (outcome == Refused(SelfSend) <==> ToSelf(db, agent, request))
      && (outcome.Unchanged? <==> known && !selfPayment)
      && (outcome == Refused(InsufficientBalance) <==>
            TooPoor(db, agent, request) && !known && !selfPayment && !ToSelf(db, agent, request))
  {
    if request.Pay? { TooPoorExactly(db, agent, request.to, request.amount, request.tier, request.nonce); }
  }

  /** Two payments with keys have one id exactly when they agree in all of it; without, when the nonce repeats. */
  lemma PaymentIdsExactly(from: AgentId, to: AgentId, amount: nat, slot: Slot, nonce: nat,
                          from2: AgentId, to2: AgentId, amount2: nat, slot2: Slot, nonce2: nat)
    ensures PaymentOf(from, to, amount, Some(slot), nonce) == PaymentOf(from2, to2, amount2, Some(slot2), nonce2)
        <==> from == from2 && to == to2 && amount == amount2 && slot.key == slot2.key
    ensures PaymentOf(from, to, amount, None, nonce) == PaymentOf(from2, to2, amount2, None, nonce2)
        <==> nonce == nonce2
    ensures PaymentOf(from, to, amount, Some(slot), nonce) != PaymentOf(from2, to2, amount2, None, nonce2)
    ensures var id := PaymentOf(from, to, amount, Some(slot), nonce); id.Derived? && id.from == from && id.to == to
  {
  }

  function SetStatus(db: Db, pid: nat, status: WithdrawalStatus): Db
    requires pid < |db.withdrawals|
  {
    db.(withdrawals := db.withdrawals[pid := db.withdrawals[pid].(status := status)])
  }

  // ---------------------------------------------------------------- totals

  ghost function Total(m: map<AgentId, int>): int {
    if m == map[] then 0
    else
      var k :| k in m;
      m[k] + Total(m - {k})
  }

  lemma {:induction false} TotalRemove(m: map<AgentId, int>, k: AgentId)
    requires k in m
    ensures Total(m) == m[k] + Total(m - {k})
    decreases |m|
  {
    var p :| p in m && Total(m) == m[p] + Total(m - {p});
    if p != k {
      TotalRemove(m - {p}, k);
      TotalRemove(m - {k}, p);
      assert m - {p} - {k} == m - {k} - {p};
    }
  }

  lemma TotalAdd(m: map<AgentId, int>, k: AgentId, amount: int)
    ensures Total(Add(m, k, amount)) == Total(m) + amount
  {
    var n := Add(m, k, amount);
    TotalRemove(n, k);
    assert n - {k} == m - {k};
    if k in m {
      TotalRemove(m, k);
    } else {
      assert m - {k} == m;
    }
  }

  function WithdrawalTotal(rows: seq<Withdrawal>): int {
    if rows == [] then 0 else WithdrawalTotal(rows[..|rows| - 1]) + rows[|rows| - 1].amount
  }

  function FeeTotal(rows: seq<Fee>): int {
    if rows == [] then 0 else FeeTotal(rows[..|rows| - 1]) + rows[|rows| - 1].amount
  }

  lemma {:induction false} StatusKeepsTotal(rows: seq<Withdrawal>, pid: nat, status: WithdrawalStatus)
    requires pid < |rows|
    ensures WithdrawalTotal(rows[pid := rows[pid].(status := status)]) == WithdrawalTotal(rows)
  {
    var after := rows[pid := rows[pid].(status := status)];
    if pid == |rows| - 1 {
      assert after[..|rows| - 1] == rows[..|rows| - 1];
    } else {
      StatusKeepsTotal(rows[..|rows| - 1], pid, status);
      assert after[..|rows| - 1] == rows[..|rows| - 1][pid := rows[pid].(status := status)];
    }
  }

  /** What every committed transaction keeps. */
  ghost predicate Balanced(db: Db) {
    && Total(db.available) + FeeTotal(db.fees) + WithdrawalTotal(db.withdrawals) == Total(db.deposited)
    && Total(db.withdrawn) == WithdrawalTotal(db.withdrawals)
    && NonNegative(db.available)
  }

  /** Every hub payment has one fee row, which says what its route says. */
  ghost predicate OneFeePerRoute(routes: map<PaymentId, Route>, fees: seq<Fee>) {
    && (forall i :: 0 <= i < |fees| ==> FeeMatches(routes, fees[i]))
    && (forall i, j :: 0 <= i < j < |fees| ==> fees[i].payment != fees[j].payment)
    && (forall p :: p in routes ==> HasFee(fees, p))
  }

  ghost predicate FeeMatches(routes: map<PaymentId, Route>, fee: Fee) {
    && fee.payment in routes
    && fee.amount == routes[fee.payment].fee
    && fee.payer == routes[fee.payment].from
    && routes[fee.payment].confirmed
  }

  ghost predicate HasFee(fees: seq<Fee>, p: PaymentId) {
    exists i :: 0 <= i < |fees| && fees[i].payment == p
  }

  lemma HasFeeAfter(fees: seq<Fee>, fee: Fee, p: PaymentId)
    requires p == fee.payment || HasFee(fees, p)
    ensures HasFee(fees + [fee], p)
  {
    var after := fees + [fee];
    if p == fee.payment {
      assert after[|fees|] == fee;
    } else {
      var i :| 0 <= i < |fees| && fees[i].payment == p;
      assert after[i].payment == p;
    }
  }

  lemma NewRouteKeepsFees(routes: map<PaymentId, Route>, fees: seq<Fee>, route: Route, fee: Fee)
    requires OneFeePerRoute(routes, fees) && fee.payment !in routes
    requires fee.amount == route.fee && fee.payer == route.from && route.confirmed
    ensures OneFeePerRoute(routes[fee.payment := route], fees + [fee])
  {
    var after := routes[fee.payment := route];
    forall i | 0 <= i < |fees| ensures fees[i].payment != fee.payment && FeeMatches(after, fees[i]) {
      assert FeeMatches(routes, fees[i]);
    }
    forall p | p in after ensures HasFee(fees + [fee], p) {
      HasFeeAfter(fees, fee, p);
    }
  }

  lemma DepositKeeps(db: Db, agent: AgentId, amount: nat, slot: Option<Slot>, hash: string)
    requires Balanced(db)
    ensures Balanced(DepositTx(db, agent, amount, slot, hash).db)
  {
    TotalAdd(db.available, agent, amount);
    TotalAdd(db.deposited, agent, amount);
  }

  lemma DebitKeeps(db: Db, after: Db, agent: AgentId, row: Withdrawal)
    requires Balanced(db) && Get(db.available, agent) >= row.amount
    requires after.available == Add(db.available, agent, 0 - row.amount)
    requires after.withdrawn == Add(db.withdrawn, agent, row.amount) && after.withdrawals == db.withdrawals + [row]
    requires after.fees == db.fees && after.deposited == db.deposited
    ensures Balanced(after)
  {
    TotalAdd(db.available, agent, 0 - row.amount);
    TotalAdd(db.withdrawn, agent, row.amount);
    assert after.withdrawals[..|db.withdrawals|] == db.withdrawals;
    assert NonNegative(after.available);
  }

  lemma WithdrawKeeps(db: Db, agent: AgentId, amount: nat, address: string, slot: Option<Slot>, hash: string)
    requires Balanced(db) && WithdrawTx(db, agent, amount, address, slot, hash).Changed?
    ensures Balanced(WithdrawTx(db, agent, amount, address, slot, hash).db)
  {
    DebitKeeps(db, WithdrawTx(db, agent, amount, address, slot, hash).db, agent,
               Withdrawal(agent, amount, address, Pending));
  }

  ghost predicate NonNegative(m: map<AgentId, int>) {
    forall a :: a in m ==> m[a] >= 0
  }

  lemma TransferKeeps(m: map<AgentId, int>, from: AgentId, to: AgentId, amount: nat, fee: nat)
    requires NonNegative(m) && Get(m, from) >= amount + fee
    ensures var after := Add(Add(m, from, 0 - (amount + fee)), to, amount);
      Total(after) == Total(m) - fee && NonNegative(after)
  {
    var between := Add(m, from, 0 - (amount + fee));
    TotalAdd(m, from, 0 - (amount + fee));
    TotalAdd(between, to, amount);
  }

  lemma RouteKeeps(db: Db, after: Db, from: AgentId, to: AgentId, amount: nat, fee: Fee)
    requires Balanced(db) && fee.amount >= 0 && Get(db.available, from) >= amount + fee.amount
    requires after.available == Add(Add(db.available, from, 0 - (amount + fee.amount)), to, amount)
    requires after.fees == db.fees + [fee] && after.withdrawals == db.withdrawals
    requires after.withdrawn == db.withdrawn && after.deposited == db.deposited
    ensures Balanced(after)
  {
    TransferKeeps(db.available, from, to, amount, fee.amount);
    assert after.fees[..|db.fees|] == db.fees;
  }

  lemma PayKeeps(db: Db, from: AgentId, to: AgentId, amount: nat, tier: Tier, nonce: nat,
                 slot: Option<Slot>, hash: string)
    requires Balanced(db) && PayTx(db, from, to, amount, tier, nonce, slot, hash).Changed?
    ensures Balanced(PayTx(db, from, to, amount, tier, nonce, slot, hash).db)
  {
    RouteKeeps(db, PayTx(db, from, to, amount, tier, nonce, slot, hash).db, from, to, amount,
               Fee(PaymentOf(from, to, amount, slot, nonce), from, ComputeFee(amount, tier)));
  }

  /** Money is neither made nor lost, and no balance goes negative, in any transaction. */
  lemma TransactKeepsBalance(db: Db, agent: AgentId, request: Request, slot: Option<Slot>, hash: string)
    requires Balanced(db) && Transact(db, agent, request, slot, hash).Changed?
    ensures Balanced(Transact(db, agent, request, slot, hash).db)
  {
    match request
    case Deposit(amount) => DepositKeeps(db, agent, amount, slot, hash);
    case Withdraw(amount, address, _) => WithdrawKeeps(db, agent, amount, address, slot, hash);
    case Pay(to, amount, tier, nonce) => PayKeeps(db, agent, to, amount, tier, nonce, slot, hash);
  }

  lemma TransactKeepsFees(db: Db, agent: AgentId, request: Request, slot: Option<Slot>, hash: string)
    requires OneFeePerRoute(db.routes, db.fees) && Transact(db, agent, request, slot, hash).Changed?
    ensures var after := Transact(db, agent, request, slot, hash).db; OneFeePerRoute(after.routes, after.fees)
  {
    if request.Pay? {
      var payment := PaymentOf(agent, request.to, request.amount, slot, request.nonce);
      var fee := ComputeFee(request.amount, request.tier);
      NewRouteKeepsFees(db.routes, db.fees, Route(agent, request.to, request.amount, fee, true),
                        Fee(payment, agent, fee));
    }
  }

  // ---------------------------------------------------------------- one agent's account

  function WithdrawnBy(rows: seq<Withdrawal>, agent: AgentId): int {
    if rows == [] then 0
    else
      var last := rows[|rows| - 1];
      WithdrawnBy(rows[..|rows| - 1], agent) + if last.agent == agent then last.amount else 0
  }

  /** What one hub payment does to an agent's balance. */
  function FlowOf(route: Route, agent: AgentId): int {
    (if route.to == agent then route.amount else 0) - if route.from == agent then route.amount + route.fee else 0
  }

  function Flow(routes: map<PaymentId, Route>, fees: seq<Fee>, agent: AgentId): int {
    if fees == [] then 0
    else
      var payment := fees[|fees| - 1].payment;
      Flow(routes, fees[..|fees| - 1], agent) + if payment in routes then FlowOf(routes[payment], agent) else 0
  }

  /** Every balance is what the agent put in, plus received, minus sent with fees, minus withdrawn. */
  ghost predicate ReconciledFor(db: Db, agent: AgentId) {
    Get(db.available, agent)
      == Get(db.deposited, agent) + Flow(db.routes, db.fees, agent) - WithdrawnBy(db.withdrawals, agent)
  }

  ghost predicate Reconciled(db: Db) {
    forall a :: ReconciledFor(db, a)
  }

  lemma {:induction false} FlowIgnoresNewRoute(routes: map<PaymentId, Route>, fees: seq<Fee>, agent: AgentId,
                                               p: PaymentId, route: Route)
    requires forall i :: 0 <= i < |fees| ==> fees[i].payment != p
    ensures Flow(routes[p := route], fees, agent) == Flow(routes, fees, agent)
  {
    if fees != [] { FlowIgnoresNewRoute(routes, fees[..|fees| - 1], agent, p, route); }
  }

  lemma FlowOfNewRoute(routes: map<PaymentId, Route>, fees: seq<Fee>, agent: AgentId, route: Route, fee: Fee)
    requires OneFeePerRoute(routes, fees) && fee.payment !in routes
    ensures Flow(routes[fee.payment := route], fees + [fee], agent) == Flow(routes, fees, agent) + FlowOf(route, agent)
  {
    assert (fees + [fee])[..|fees|] == fees;
    forall i | 0 <= i < |fees| ensures fees[i].payment != fee.payment { assert FeeMatches(routes, fees[i]); }
    FlowIgnoresNewRoute(routes, fees, agent, fee.payment, route);
  }

  /** The sender pays amount and fee, the recipient gets the amount, nobody else is touched. */
  lemma TransferAt(m: map<AgentId, int>, route: Route, agent: AgentId)
    requires route.from != route.to
    ensures Get(Add(Add(m, route.from, 0 - (route.amount + route.fee)), route.to, route.amount), agent)
         == Get(m, agent) + FlowOf(route, agent)
  {
  }

  lemma RouteKeepsAccount(db: Db, after: Db, payment: PaymentId, route: Route, agent: AgentId)
    requires ReconciledFor(db, agent) && OneFeePerRoute(db.routes, db.fees)
    requires route.from != route.to && payment !in db.routes
    requires after.available
          == Add(Add(db.available, route.from, 0 - (route.amount + route.fee)), route.to, route.amount)
    requires after.routes == db.routes[payment := route]
    requires after.fees == db.fees + [Fee(payment, route.from, route.fee)]
    requires after.deposited == db.deposited && after.withdrawals == db.withdrawals
    ensures ReconciledFor(after, agent)
  {
    TransferAt(db.available, route, agent);
    FlowOfNewRoute(db.routes, db.fees, agent, route, Fee(payment, route.from, route.fee));
  }

  lemma WithdrawKeepsAccount(db: Db, owner: AgentId, amount: nat, address: string,
                             slot: Option<Slot>, hash: string, agent: AgentId)
    requires ReconciledFor(db, agent) && WithdrawTx(db, owner, amount, address, slot, hash).Changed?
    ensures ReconciledFor(WithdrawTx(db, owner, amount, address, slot, hash).db, agent)
  {
    var after := WithdrawTx(db, owner, amount, address, slot, hash).db;
    assert after.withdrawals[..|after.withdrawals| - 1] == db.withdrawals;
  }

  /** Every agent's account reconciles after every transaction, whoever takes part in it. */
  lemma TransactKeepsAccounts(db: Db, agent: AgentId, request: Request, slot: Option<Slot>, hash: string)
    requires Reconciled(db) && OneFeePerRoute(db.routes, db.fees) && Transact(db, agent, request, slot, hash).Changed?
    ensures Reconciled(Transact(db, agent, request, slot, hash).db)
  {
    forall a ensures ReconciledFor(Transact(db, agent, request, slot, hash).db, a) {
      assert ReconciledFor(db, a);
      match request
      case Deposit(amount) =>
      case Withdraw(amount, address, _) => WithdrawKeepsAccount(db, agent, amount, address, slot, hash, a);
      case Pay(to, amount, tier, nonce) =>
        var payment, fee := PaymentOf(agent, to, amount, slot, nonce), ComputeFee(amount, tier);
        RouteKeepsAccount(db, PayTx(db, agent, to, amount, tier, nonce, slot, hash).db,
                          payment, Route(agent, to, amount, fee, true), a);
    }
  }

  lemma {:induction false} StatusKeepsWithdrawnBy(rows: seq<Withdrawal>, pid: nat, status: WithdrawalStatus,
                                                 agent: AgentId)
    requires pid < |rows|
    ensures WithdrawnBy(rows[pid := rows[pid].(status := status)], agent) == WithdrawnBy(rows, agent)
  {
    var after := rows[pid := rows[pid].(status := status)];
    if pid == |rows| - 1 {
      assert after[..|rows| - 1] == rows[..|rows| - 1];
    } else {
      StatusKeepsWithdrawnBy(rows[..|rows| - 1], pid, status, agent);
      assert after[..|rows| - 1] == rows[..|rows| - 1][pid := rows[pid].(status := status)];
    }
  }

  // ---------------------------------------------------------------- the books

  ghost predicate Sound(db: Db) {
    Balanced(db) && OneFeePerRoute(db.routes, db.fees) && Reconciled(db)
  }

  lemma EmptySound()
    ensures Sound(EMPTY)
  {
  }

  lemma TransactKeepsSound(db: Db, agent: AgentId, request: Request, slot: Option<Slot>, hash: string)
    requires Sound(db) && Transact(db, agent, request, slot, hash).Changed?
    ensures Sound(Transact(db, agent, request, slot, hash).db)
  {
    TransactKeepsBalance(db, agent, request, slot, hash);
    TransactKeepsFees(db, agent, request, slot, hash);
    TransactKeepsAccounts(db, agent, request, slot, hash);
  }

  lemma StatusKeepsSound(db: Db, pid: nat, status: WithdrawalStatus)
    requires pid < |db.withdrawals| && Sound(db)
    ensures Sound(SetStatus(db, pid, status))
  {
    StatusKeepsTotal(db.withdrawals, pid, status);
    forall a ensures ReconciledFor(SetStatus(db, pid, status), a) {
      assert ReconciledFor(db, a);
      StatusKeepsWithdrawnBy(db.withdrawals, pid, status, a);
    }
  }
}
