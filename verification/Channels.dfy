/**
 `ChannelManager` of sthrip/channels.py with amounts as integers in piconero. Clock
 readings and generated channel ids are inputs.
 */
module Channels {
  import opened Common

  datatype Status = Pending | Open | Closing | Closed | Disputed

  datatype Direction = AToB | BToA | OtherDirection

  // Balances are integers here and not naturals: that they stay non-negative is proved.
  datatype ChannelState = ChannelState(sequence: nat, balanceA: int, balanceB: int)

  datatype ChannelError =
    | NotFound | NotPending | NotOpen | NotPositive | Insufficient | BadDirection | TooEarly | NotParticipant

  // One channel as a value.
  datatype Channel = Channel(
    agentA: string, agentB: string, capacity: int, status: Status, fundingTx: Option<string>, closingTx: Option<string>,
    current: ChannelState, history: seq<ChannelState>, expiresAt: Option<int>)

  datatype Op =
    | Accept
    | Fund(tx: string)
    | Pay(amount: int, direction: Direction)
    | CloseCooperative
    | CloseForce(now: int)
    | Finalize(tx: string)

  function Proposed(agentA: string, agentB: string, mine: int, theirs: int, expiresAt: Option<int>): Channel {
    Channel(agentA, agentB, mine + theirs, Pending, None, None, ChannelState(0, mine, theirs), [], expiresAt)
  }

  // ---------------------------------------------------------------- one operation

  function Moved(s: ChannelState, amount: int, direction: Direction): ChannelState {
    if direction == AToB then ChannelState(s.sequence + 1, s.balanceA - amount, s.balanceB + amount)
    else ChannelState(s.sequence + 1, s.balanceA + amount, s.balanceB - amount)
  }

  function PayError(c: Channel, amount: int, direction: Direction): Option<ChannelError> {
    if c.status != Open then Some(NotOpen)
    else if amount <= 0 then Some(NotPositive)
    else
      match direction
      case AToB => if c.current.balanceA < amount then Some(Insufficient) else None
      case BToA => if c.current.balanceB < amount then Some(Insufficient) else None
      case OtherDirection => Some(BadDirection)
  }

  function ErrorOf(c: Channel, op: Op): Option<ChannelError> {
    match op
    case Accept => if c.status != Pending then Some(NotPending) else None
    case Fund(_) => None
    case Pay(amount, direction) => PayError(c, amount, direction)
    case CloseCooperative => if c.status != Open then Some(NotOpen) else None
    case CloseForce(now) =>
      if c.status == Open && c.expiresAt.Some? && now > c.expiresAt.value then None else Some(TooEarly)
    case Finalize(_) => None
  }

  /** What each operation demands of the channel, whatever it reports otherwise. */
  lemma AcceptedExactly(c: Channel, op: Op)
    ensures ErrorOf(c, op).None?
        <==> match op
             case Accept => c.status == Pending
             case Pay(amount, direction) =>
               && c.status == Open && amount > 0
               && ((direction == AToB && amount <= c.current.balanceA)
                   || (direction == BToA && amount <= c.current.balanceB))
             case CloseCooperative => c.status == Open
             case CloseForce(now) => c.status == Open && c.expiresAt.Some? && c.expiresAt.value < now
             case _ => true
  {
  }

  /** A refused operation leaves the channel as it is. */
  function Step(c: Channel, op: Op): Channel {
    if ErrorOf(c, op).Some? then c
    else
      match op
      case Accept => c.(status := Open)
      case Fund(tx) => c.(fundingTx := Some(tx), status := Open)
      case Pay(amount, direction) =>
        c.(history := c.history + [c.current], current := Moved(c.current, amount, direction))
      case CloseCooperative => c.(status := Closing)
      case CloseForce(_) => c.(status := Disputed)
      case Finalize(tx) => c.(closingTx := Some(tx), status := Closed)
  }

  // ---------------------------------------------------------------- whole runs

  datatype Payment = Payment(amount: int, direction: Direction)

  function Run(c: Channel, ops: seq<Op>): Channel {
    if ops == [] then c else Step(Run(c, ops[..|ops| - 1]), ops[|ops| - 1])
  }

  /** The payments of a run that were accepted, in order. */
  function Accepted(c: Channel, ops: seq<Op>): seq<Payment> {
    if ops == [] then []
    else
      var before, op := ops[..|ops| - 1], ops[|ops| - 1];
      Accepted(c, before)
      + if op.Pay? && ErrorOf(Run(c, before), op).None? then [Payment(op.amount, op.direction)] else []
  }

  /** All the states a list of payments leads through. */
  function Replay(start: ChannelState, payments: seq<Payment>): (states: seq<ChannelState>)
    ensures |states| == |payments| + 1
  {
    if payments == [] then [start]
    else
      var states := Replay(start, payments[..|payments| - 1]);
      var last := payments[|payments| - 1];
      states + [Moved(states[|states| - 1], last.amount, last.direction)]
  }

  lemma ReplaySnoc(start: ChannelState, payments: seq<Payment>, p: Payment)
    ensures var states := Replay(start, payments);
      Replay(start, payments + [p]) == states + [Moved(states[|states| - 1], p.amount, p.direction)]
  {
    assert (payments + [p])[..|payments|] == payments;
  }

  /** An accepted payment adds one state; nothing else adds any. */
  lemma StatesAfter(c: Channel, op: Op)
    ensures var states, after := c.history + [c.current], Step(c, op).history + [Step(c, op).current];
      after == if op.Pay? && ErrorOf(c, op).None? then states + [Moved(c.current, op.amount, op.direction)] else states
  {
  }

  /** History and current state together are the replay of the accepted payments. */
  lemma {:induction false} StateIsReplay(c: Channel, ops: seq<Op>)
    requires c.history == []
    ensures Run(c, ops).history + [Run(c, ops).current] == Replay(c.current, Accepted(c, ops))
  {
    if ops != [] {
      var before, op := ops[..|ops| - 1], ops[|ops| - 1];
      StateIsReplay(c, before);
      var was, paid := Run(c, before), Accepted(c, before);
      StatesAfter(was, op);
      if op.Pay? && ErrorOf(was, op).None? {
        assert (was.history + [was.current])[|was.history|] == was.current;
        ReplaySnoc(c.current, paid, Payment(op.amount, op.direction));
      } else {
        assert paid + [] == paid;
      }
    }
  }

  ghost predicate Settled(s: ChannelState, capacity: int) {
    s.balanceA >= 0 && s.balanceB >= 0 && s.balanceA + s.balanceB == capacity
  }

  ghost predicate ByOneTransfer(before: ChannelState, after: ChannelState) {
    exists amount: int, direction: Direction :: amount > 0 && after == Moved(before, amount, direction)
  }

  ghost predicate Sound(c: Channel) {
    var states := c.history + [c.current];
    && (forall i :: 0 <= i < |states| ==> Settled(states[i], c.capacity) && states[i].sequence == i)
    && (forall i :: 0 <= i < |states| - 1 ==> ByOneTransfer(states[i], states[i + 1]))
  }

  lemma StepKeepsSound(c: Channel, op: Op)
    requires Sound(c)
    ensures Sound(Step(c, op))
  {
    if op.Pay? && ErrorOf(c, op).None? {
      var after := Step(c, op);
      var states, longer := c.history + [c.current], after.history + [after.current];
      var n := |c.history|;
      assert states[n] == c.current && longer[n] == c.current && longer[n + 1] == after.current;
      assert forall i :: 0 <= i <= n ==> longer[i] == states[i];
      assert ByOneTransfer(c.current, after.current) by {
        assert after.current == Moved(c.current, op.amount, op.direction);
      }
    }
  }

  lemma {:induction false} RunKeepsSound(c: Channel, ops: seq<Op>)
    requires Sound(c)
    ensures Sound(Run(c, ops))
  {
    if ops != [] {
      RunKeepsSound(c, ops[..|ops| - 1]);
      StepKeepsSound(Run(c, ops[..|ops| - 1]), ops[|ops| - 1]);
    }
  }

  /**
   In every reachable state balances are non-negative and add up to the capacity, sequence
   numbers count from zero, and one positive transfer lies between neighbouring states:
   exactly when neither side proposed a negative amount, which the program does not check.
   */
  lemma RunsSoundExactly(agentA: string, agentB: string, mine: int, theirs: int)
    ensures AlwaysSound(Proposed(agentA, agentB, mine, theirs, None)) <==> mine >= 0 && theirs >= 0
  {
    var start := Proposed(agentA, agentB, mine, theirs, None);
    if mine >= 0 && theirs >= 0 {
      forall ops ensures Sound(Run(start, ops)) { RunKeepsSound(start, ops); }
    }
    if AlwaysSound(start) {
      var none: seq<Op> := [];
      assert Sound(Run(start, none));
      assert (start.history + [start.current])[0] == start.current;
    }
  }

  ghost predicate AlwaysSound(c: Channel) {
    forall ops: seq<Op> :: Sound(Run(c, ops))
  }

  ghost predicate NoneFunds(ops: seq<Op>) {
    forall i :: 0 <= i < |ops| ==> !ops[i].Fund?
  }

  /** Nothing but the recorded closing transaction differs. */
  ghost predicate StillClosed(c: Channel, after: Channel) {
    after.status == Closed && after == c.(closingTx := after.closingTx)
  }

  lemma {:induction false} ClosedStaysClosed(c: Channel, ops: seq<Op>)
    requires c.status == Closed && NoneFunds(ops)
    ensures StillClosed(c, Run(c, ops))
  {
    if ops != [] { ClosedStaysClosed(c, ops[..|ops| - 1]); }
  }

  /** A closed channel stays closed exactly as long as it is not funded again: `fund_channel` ignores the status. */
  lemma ClosedReopensExactly(c: Channel, ops: seq<Op>)
    requires c.status == Closed
    ensures NoneFunds(ops) <==> forall n :: 0 <= n <= |ops| ==> StillClosed(c, Run(c, ops[..n]))
  {
    if NoneFunds(ops) {
      forall n | 0 <= n <= |ops| ensures StillClosed(c, Run(c, ops[..n])) { ClosedStaysClosed(c, ops[..n]); }
    } else {
      var i :| 0 <= i < |ops| && ops[i].Fund?;
      assert ops[..i + 1][..i] == ops[..i];
      assert Run(c, ops[..i + 1]).status == Open;
    }
  }

  /**
   Closing an open channel freezes it: unless it is funded again, no payment moves it any more, and
   it stays closing until it is finalized.
   */
  lemma {:induction false} ClosingFreezes(c: Channel, ops: seq<Op>)
    requires c.status == Open && NoneFunds(ops)
    ensures var after := Run(Step(c, CloseCooperative), ops);
      && after == c.(status := after.status, closingTx := after.closingTx)
      && after.status == if exists i :: 0 <= i < |ops| && ops[i].Finalize? then Closed else Closing
  {
    if ops != [] {
      var before := ops[..|ops| - 1];
      ClosingFreezes(c, before);
      if i :| 0 <= i < |before| && before[i].Finalize? { assert ops[i].Finalize?; }
      if i :| 0 <= i < |ops| && ops[i].Finalize? {
        if i < |before| { assert before[i].Finalize?; }
      }
    }
  }

  /** A proposal sets no expiry, so over every run a forced close is refused and no channel is disputed. */
  lemma {:induction false} NeverForceClosed(agentA: string, agentB: string, mine: int, theirs: int, ops: seq<Op>)
    ensures var c := Run(Proposed(agentA, agentB, mine, theirs, None), ops);
      c.status != Disputed && forall now :: ErrorOf(c, CloseForce(now)) == Some(TooEarly)
    ensures Run(Proposed(agentA, agentB, mine, theirs, None), ops).expiresAt == None
  {
    if ops != [] { NeverForceClosed(agentA, agentB, mine, theirs, ops[..|ops| - 1]); }
  }

  // ---------------------------------------------------------------- the program

  class PaymentChannel {
    const agentA: string
    const agentB: string
    const capacity: int
    var status: Status
    var fundingTx: Option<string>
    var closingTx: Option<string>
    var current: ChannelState
    var history: seq<ChannelState>
    var expiresAt: Option<int>

    constructor (agentA: string, agentB: string, mine: int, theirs: int, expiresAt: Option<int>)
      ensures View() == Proposed(agentA, agentB, mine, theirs, expiresAt)
    {
      this.agentA, this.agentB, capacity := agentA, agentB, mine + theirs;
      status, fundingTx, closingTx := Pending, None, None;
      current, history := ChannelState(0, mine, theirs), [];
      this.expiresAt := expiresAt;
    }

    function View(): Channel
      reads this
    {
      Channel(agentA, agentB, capacity, status, fundingTx, closingTx, current, history, expiresAt)
    }
  }

  class ChannelManager {
    var channels: map<string, PaymentChannel>

    constructor ()
      ensures channels == map[]
    {
      channels := map[];
    }

    /** `id` is the digest the program computes; a channel under the same id would be replaced. */
    method ProposeChannel(id: string, me: string, counterparty: string, mine: int, theirs: int)
      returns (c: PaymentChannel)
      modifies this
      ensures fresh(c) && channels == old(channels)[id := c]
      ensures c.View() == Proposed(me, counterparty, mine, theirs, None)
    {
      c := new PaymentChannel(me, counterparty, mine, theirs, None);
      channels := channels[id := c];
    }

    /** The objects an operation on `id` may change: that channel and no other. */
    function Target(id: string): set<PaymentChannel>
      reads this
    {
      if id in channels then {channels[id]} else {}
    }

    method AcceptChannel(id: string) returns (r: Result<PaymentChannel, ChannelError>)
      modifies Target(id)
      ensures r == if id !in channels then Err(NotFound)
                   else if old(channels[id].status) != Pending then Err(NotPending) else Ok(channels[id])
      ensures id in channels ==> channels[id].View() == Step(old(channels[id].View()), Accept)
    {
      if id !in channels {
        return Err(NotFound);
      }
      if channels[id].status != Pending {
        return Err(NotPending);
      }
      channels[id].status := Open;
      r := Ok(channels[id]);
    }

    method FundChannel(id: string, tx: string) returns (r: Result<PaymentChannel, ChannelError>)
      modifies Target(id)
      ensures r == if id !in channels then Err(NotFound) else Ok(channels[id])
      ensures id in channels ==> channels[id].View() == Step(old(channels[id].View()), Op.Fund(tx))
    {
      if id !in channels {
        return Err(NotFound);
      }
      channels[id].fundingTx := Some(tx);
      channels[id].status := Open;
      r := Ok(channels[id]);
    }

    method Pay(id: string, amount: int, direction: Direction) returns (r: Result<ChannelState, ChannelError>)
      modifies Target(id)
      ensures id !in channels ==> r == Err(NotFound)
      ensures id in channels ==>
        && channels[id].View() == Step(old(channels[id].View()), Op.Pay(amount, direction))
        && r == match PayError(old(channels[id].View()), amount, direction)
                case Some(e) => Err(e)
                case None => Ok(channels[id].current)
    {
      if id !in channels {
        return Err(NotFound);
      }
      var channel := channels[id];
      if channel.status != Open {
        return Err(NotOpen);
      }
      if amount <= 0 {
        return Err(NotPositive);
      }
      var before := channel.current;
      var after: ChannelState;
      match direction {
        case AToB =>
          if before.balanceA < amount {
            return Err(Insufficient);
          }
          after := ChannelState(before.sequence + 1, before.balanceA - amount, before.balanceB + amount);
        case BToA =>
          if before.balanceB < amount {
            return Err(Insufficient);
          }
          after := ChannelState(before.sequence + 1, before.balanceA + amount, before.balanceB - amount);
        case OtherDirection =>
          return Err(BadDirection);
      }
      channel.history := channel.history + [before];
      channel.current := after;
      r := Ok(after);
    }

    method CloseCooperatively(id: string) returns (r: Result<PaymentChannel, ChannelError>)
      modifies Target(id)
      ensures r == if id !in channels then Err(NotFound)
                   else if old(channels[id].status) != Open then Err(NotOpen) else Ok(channels[id])
      ensures id in channels ==> channels[id].View() == Step(old(channels[id].View()), CloseCooperative)
    {
      if id !in channels {
        return Err(NotFound);
      }
      if channels[id].status != Open {
        return Err(NotOpen);
      }
      channels[id].status := Closing;
      r := Ok(channels[id]);
    }

    method ForceClose(id: string, now: int) returns (r: Result<PaymentChannel, ChannelError>)
      modifies Target(id)
      ensures r == if id !in channels then Err(NotFound)
                   else if old(channels[id].status) == Open && old(channels[id].expiresAt).Some?
                        && now > old(channels[id].expiresAt).value then Ok(channels[id]) else Err(TooEarly)
      ensures id in channels ==> channels[id].View() == Step(old(channels[id].View()), CloseForce(now))
    {
      if id !in channels {
        return Err(NotFound);
      }
      var channel := channels[id];
      if channel.status != Open || channel.expiresAt.None? || now <= channel.expiresAt.value {
        return Err(TooEarly);
      }
      channel.status := Disputed;
      r := Ok(channel);
    }

    method FinalizeClose(id: string, tx: string) returns (r: Result<PaymentChannel, ChannelError>)
      modifies Target(id)
      ensures r == if id !in channels then Err(NotFound) else Ok(channels[id])
      ensures id in channels ==> channels[id].View() == Step(old(channels[id].View()), Op.Finalize(tx))
    {
      if id !in channels {
        return Err(NotFound);
      }
      channels[id].closingTx := Some(tx);
      channels[id].status := Closed;
      r := Ok(channels[id]);
    }

    method GetBalance(id: string, me: string) returns (r: Result<int, ChannelError>)
      ensures id !in channels ==> r == Err(NotFound)
      ensures id in channels && channels[id].agentA == me ==> r == Ok(channels[id].current.balanceA)
      ensures id in channels && channels[id].agentA != me && channels[id].agentB == me ==>
        r == Ok(channels[id].current.balanceB)
      ensures id in channels && me != channels[id].agentA && me != channels[id].agentB ==> r == Err(NotParticipant)
    {
      if id !in channels {
        return Err(NotFound);
      }
      var channel := channels[id];
      if channel.agentA == me {
        r := Ok(channel.current.balanceA);
      } else if channel.agentB == me {
        r := Ok(channel.current.balanceB);
      } else {
        r := Err(NotParticipant);
      }
    }
  }
}
