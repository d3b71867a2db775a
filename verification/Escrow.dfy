/** `EscrowManager` of sthrip/escrow.py. Clock readings (hours) are inputs. */
module Escrow {
  import opened Common

  datatype Status = Pending | Funded | Delivered | Completed | Disputed | Refunded | Expired

  datatype EscrowError = NotFound | WrongStatus

  // Who and what a deal is about; nothing changes it. The amount is in piconero.
  datatype Terms = Terms(buyer: string, seller: string, arbiter: string, amount: int, description: string)

  // The deposit transaction and the multisig address of a funded deal.
  datatype Funding = Funding(tx: string, multisigAddress: string)

  // One deal as a value. The program does not check the decision: anything but "release" refunds.
  datatype Deal = Deal(
    terms: Terms, status: Status, createdAt: int, timeoutHours: int,
    fundedAt: Option<int>, funding: Option<Funding>, completedAt: Option<int>,
    buyerSignature: Option<string>, arbiterSignature: Option<string>,
    disputedBy: Option<string>, reason: Option<string>, decision: Option<string>)

  datatype Op =
    | Fund(funding: Funding)
    | MarkDelivered
    | Release(signature: string)
    | OpenDispute(reason: string, openedBy: string)
    | Arbitrate(decision: string, signature: string)
    | RequestRefund

  datatype Event = Event(op: Op, now: int)

  function Created(terms: Terms, now: int, timeoutHours: int): Deal {
    Deal(terms, Pending, now, timeoutHours, None, None, None, None, None, None, None, None)
  }

  predicate IsExpired(d: Deal, now: int) {
    (d.status == Pending || d.status == Funded) && now > d.createdAt + d.timeoutHours
  }

  predicate CanRelease(d: Deal) {
    d.status == Funded || d.status == Delivered
  }

  predicate CanRefund(d: Deal) {
    d.status == Pending || d.status == Funded || d.status == Disputed
  }

  predicate Allowed(d: Deal, e: Event) {
    match e.op
    case Fund(_) => d.status == Pending
    case MarkDelivered => d.status == Funded
    case Release(_) => CanRelease(d)
    case OpenDispute(_, _) => d.status == Funded || d.status == Delivered
    case Arbitrate(_, _) => d.status == Disputed
    case RequestRefund => IsExpired(d, e.now) || CanRefund(d)
  }

  /** A refused operation leaves the deal as it is; a refund request only ever expires a deal. */
  function Step(d: Deal, e: Event): Deal {
    if !Allowed(d, e) then d
    else
      match e.op
      case Fund(funding) => d.(status := Funded, funding := Some(funding), fundedAt := Some(e.now))
      case MarkDelivered => d.(status := Delivered)
      case Release(signature) => d.(status := Completed, completedAt := Some(e.now), buyerSignature := Some(signature))
      case OpenDispute(reason, openedBy) => d.(status := Disputed, disputedBy := Some(openedBy), reason := Some(reason))
      case Arbitrate(decision, signature) =>
        if decision == "release"
        then d.(status := Completed, completedAt := Some(e.now),
                decision := Some(decision), arbiterSignature := Some(signature))
        else d.(status := Refunded, decision := Some(decision), arbiterSignature := Some(signature))
      case RequestRefund => if IsExpired(d, e.now) then d.(status := Expired) else d
  }

  /** From which statuses a request is accepted; a deal that is late can always be asked back, so expiry adds none. */
  lemma AllowedExactly(d: Deal, e: Event)
    ensures Allowed(d, e)
        <==> match e.op
             case Fund(_) => d.status == Pending
             case MarkDelivered => d.status == Funded
             case Release(_) => d.status == Funded || d.status == Delivered
             case OpenDispute(_, _) => d.status == Funded || d.status == Delivered
             case Arbitrate(_, _) => d.status == Disputed
             case RequestRefund => d.status == Pending || d.status == Funded || d.status == Disputed
  {
  }

  /** Every accepted request moves the deal on, but for a refund request in time or in a dispute. */
  lemma MovesExactly(d: Deal, e: Event)
    ensures Step(d, e).status != d.status
        <==> Allowed(d, e) && (e.op.RequestRefund? ==> d.status != Disputed && e.now - d.createdAt > d.timeoutHours)
  {
  }

  function Run(d: Deal, events: seq<Event>): Deal {
    if events == [] then d else Step(Run(d, events[..|events| - 1]), events[|events| - 1])
  }

  // ---------------------------------------------------------------- whole runs

  function Rank(status: Status): nat {
    match status
    case Pending => 0
    case Funded => 1
    case Delivered => 2
    case Disputed => 3
    case _ => 4
  }

  function Changes(d: Deal, events: seq<Event>): nat {
    if events == [] then 0
    else
      var before := events[..|events| - 1];
      Changes(d, before) + if Run(d, events).status != Run(d, before).status then 1 else 0
  }

  /** What every reachable deal satisfies. */
  ghost predicate Sound(d: Deal) {
    && (d.completedAt.Some? <==> d.status == Completed)
    && (d.fundedAt.Some? ==> d.status != Pending)
    && (d.fundedAt.Some? <==> d.funding.Some?)
    && (d.disputedBy.Some? <==> d.reason.Some?)
    && (d.status !in {Pending, Expired} ==> d.fundedAt.Some?)
    && (d.decision.Some? ==>
          d.disputedBy.Some? && d.status == if d.decision.value == "release" then Completed else Refunded)
    && (d.status == Refunded ==> d.decision.Some?)
    && (d.status == Disputed ==> d.disputedBy.Some?)
    && (d.buyerSignature.Some? ==> d.status == Completed && d.decision.None?)
    && (d.status == Completed ==> d.buyerSignature.Some? || d.decision == Some("release"))
    && (d.disputedBy.Some? ==> d.status in {Disputed, Completed, Refunded})
    && (d.arbiterSignature.Some? <==> d.decision.Some?)
  }

  /**
   In every run: the status changes at most four times, a deal is completed exactly when its
   completion time is set, refunded only by the arbiter, and a decision settles the status.
   */
  lemma {:induction false} RunSound(terms: Terms, now: int, timeoutHours: int, events: seq<Event>)
    ensures var d := Run(Created(terms, now, timeoutHours), events);
      && Sound(d) && d.terms == terms && d.createdAt == now && d.timeoutHours == timeoutHours
      && Changes(Created(terms, now, timeoutHours), events) <= Rank(d.status) <= 4
  {
    if events != [] {
      RunSound(terms, now, timeoutHours, events[..|events| - 1]);
    }
  }

  /** Completed, refunded and expired deals never change again. */
  lemma {:induction false} TerminalAbsorbs(d: Deal, events: seq<Event>)
    requires d.status == Completed || d.status == Refunded || d.status == Expired
    ensures Run(d, events) == d
  {
    if events != [] { TerminalAbsorbs(d, events[..|events| - 1]); }
  }

  ghost predicate Absorbs(d: Deal) {
    forall events: seq<Event> :: Run(d, events) == d
  }

  /** No other deal is settled for good: something can still be done to it. */
  lemma AbsorbsExactly(d: Deal)
    ensures Absorbs(d) <==> d.status == Completed || d.status == Refunded || d.status == Expired
  {
    if d.status == Completed || d.status == Refunded || d.status == Expired {
      forall events: seq<Event> ensures Run(d, events) == d { TerminalAbsorbs(d, events); }
    } else {
      var op := match d.status
        case Pending => Op.Fund(Funding("", ""))
        case Funded => MarkDelivered
        case Delivered => Op.Release("")
        case _ => Op.Arbitrate("", "");
      var events := [Event(op, 0)];
      assert events[..0] == [];
      assert Run(d, events) == Step(d, events[0]) != d;
    }
  }

  /**
   A deal is expired exactly when some refund request came after the deadline while the deal
   was still pending or funded: delivered and disputed deals never expire.
   */
  lemma {:induction false} ExpiredExactly(terms: Terms, now: int, timeoutHours: int, events: seq<Event>)
    ensures Run(Created(terms, now, timeoutHours), events).status == Expired
        <==> exists n :: 0 <= n < |events| && ExpiresAt(terms, now, timeoutHours, events, n)
  {
    if events != [] {
      var before := events[..|events| - 1];
      ExpiredExactly(terms, now, timeoutHours, before);
      RunSound(terms, now, timeoutHours, before);
      forall n | 0 <= n < |before|
        ensures ExpiresAt(terms, now, timeoutHours, events, n) == ExpiresAt(terms, now, timeoutHours, before, n)
      {
        assert before[..n] == events[..n];
      }
      assert ExpiresAt(terms, now, timeoutHours, events, |before|)
        <==> (events[|before|].op == RequestRefund
          && IsExpired(Run(Created(terms, now, timeoutHours), before), events[|before|].now));
    }
  }

  ghost predicate ExpiresAt(terms: Terms, now: int, timeoutHours: int, events: seq<Event>, n: nat)
    requires n < |events|
  {
    && events[n].op == RequestRefund && events[n].now > now + timeoutHours
    && var status := Run(Created(terms, now, timeoutHours), events[..n]).status;
       status == Pending || status == Funded
  }

  // ---------------------------------------------------------------- the program

  class EscrowDeal {
    const terms: Terms
    var status: Status
    const createdAt: int
    const timeoutHours: int
    var fundedAt: Option<int>
    var funding: Option<Funding>
    var completedAt: Option<int>
    var buyerSignature: Option<string>
    var arbiterSignature: Option<string>
    var disputedBy: Option<string>
    var reason: Option<string>
    var decision: Option<string>

    constructor (terms: Terms, now: int, timeoutHours: int)
      ensures View() == Created(terms, now, timeoutHours)
    {
      this.terms, status, createdAt, this.timeoutHours := terms, Pending, now, timeoutHours;
      fundedAt, funding, completedAt, buyerSignature, arbiterSignature := None, None, None, None, None;
      disputedBy, reason, decision := None, None, None;
    }

    function View(): Deal
      reads this
    {
      Deal(terms, status, createdAt, timeoutHours, fundedAt, funding, completedAt,
           buyerSignature, arbiterSignature, disputedBy, reason, decision)
    }
  }

  class EscrowManager {
    var deals: map<string, EscrowDeal>

    constructor ()
      ensures deals == map[]
    {
      deals := map[];
    }

    /** The objects an operation on `id` may change: that deal and no other. */
    function Target(id: string): set<EscrowDeal>
      reads this
    {
      if id in deals then {deals[id]} else {}
    }

    /** Whether an operation on `id` succeeds. */
    predicate Accepts(id: string, e: Event)
      reads this, Target(id)
    {
      id in deals && Allowed(deals[id].View(), e)
    }

    method CreateDeal(id: string, terms: Terms, now: int, timeoutHours: int) returns (d: EscrowDeal)
      modifies this
      ensures fresh(d) && deals == old(deals)[id := d] && d.View() == Created(terms, now, timeoutHours)
    {
      d := new EscrowDeal(terms, now, timeoutHours);
      deals := deals[id := d];
    }

    method FundDeal(id: string, funding: Funding, now: int) returns (r: Result<EscrowDeal, EscrowError>)
      modifies Target(id)
      ensures r.Ok? <==> old(Accepts(id, Event(Op.Fund(funding), now)))
      ensures r == if r.Ok? then Ok(deals[id]) else Err(if id in deals then WrongStatus else NotFound)
      ensures id in deals ==> deals[id].View() == Step(old(deals[id].View()), Event(Op.Fund(funding), now))
    {
      if id !in deals {
        return Err(NotFound);
      }
      var deal := deals[id];
      if deal.status != Pending {
        return Err(WrongStatus);
      }
      deal.status := Funded;
      deal.funding := Some(funding);
      deal.fundedAt := Some(now);
      r := Ok(deal);
    }

    method Deliver(id: string, now: int) returns (r: Result<EscrowDeal, EscrowError>)
      modifies Target(id)
      ensures r.Ok? <==> old(Accepts(id, Event(MarkDelivered, now)))
      ensures r == if r.Ok? then Ok(deals[id]) else Err(if id in deals then WrongStatus else NotFound)
      ensures id in deals ==> deals[id].View() == Step(old(deals[id].View()), Event(MarkDelivered, now))
    {
      if id !in deals {
        return Err(NotFound);
      }
      var deal := deals[id];
      if deal.status != Funded {
        return Err(WrongStatus);
      }
      deal.status := Delivered;
      r := Ok(deal);
    }

    method Release(id: string, signature: string, now: int) returns (r: Result<EscrowDeal, EscrowError>)
      modifies Target(id)
      ensures r.Ok? <==> old(Accepts(id, Event(Op.Release(signature), now)))
      ensures r == if r.Ok? then Ok(deals[id]) else Err(if id in deals then WrongStatus else NotFound)
      ensures id in deals ==> deals[id].View() == Step(old(deals[id].View()), Event(Op.Release(signature), now))
    {
      if id !in deals {
        return Err(NotFound);
      }
      var deal := deals[id];
      if !CanRelease(deal.View()) {
        return Err(WrongStatus);
      }
      deal.buyerSignature := Some(signature);
      deal.status := Completed;
      deal.completedAt := Some(now);
      r := Ok(deal);
    }

    method Dispute(id: string, reason: string, openedBy: string, now: int) returns (r: Result<EscrowDeal, EscrowError>)
      modifies Target(id)
      ensures r.Ok? <==> old(Accepts(id, Event(OpenDispute(reason, openedBy), now)))
      ensures r == if r.Ok? then Ok(deals[id]) else Err(if id in deals then WrongStatus else NotFound)
      ensures id in deals ==> deals[id].View() == Step(old(deals[id].View()), Event(OpenDispute(reason, openedBy), now))
    {
      if id !in deals {
        return Err(NotFound);
      }
      var deal := deals[id];
      if deal.status != Funded && deal.status != Delivered {
        return Err(WrongStatus);
      }
      deal.status := Disputed;
      deal.disputedBy := Some(openedBy);
      deal.reason := Some(reason);
      r := Ok(deal);
    }

    method Arbitrate(id: string, decision: string, signature: string, now: int)
      returns (r: Result<EscrowDeal, EscrowError>)
      modifies Target(id)
      ensures r.Ok? <==> old(Accepts(id, Event(Op.Arbitrate(decision, signature), now)))
      ensures r == if r.Ok? then Ok(deals[id]) else Err(if id in deals then WrongStatus else NotFound)
      ensures id in deals ==>
        deals[id].View() == Step(old(deals[id].View()), Event(Op.Arbitrate(decision, signature), now))
    {
      if id !in deals {
        return Err(NotFound);
      }
      var deal := deals[id];
      if deal.status != Disputed {
        return Err(WrongStatus);
      }
      deal.decision := Some(decision);
      deal.arbiterSignature := Some(signature);
      if decision == "release" {
        deal.status := Completed;
        deal.completedAt := Some(now);
      } else {
        deal.status := Refunded;
      }
      r := Ok(deal);
    }

    method RequestRefund(id: string, now: int) returns (r: Result<EscrowDeal, EscrowError>)
      modifies Target(id)
      ensures r.Ok? <==> old(Accepts(id, Event(Op.RequestRefund, now)))
      ensures r == if r.Ok? then Ok(deals[id]) else Err(if id in deals then WrongStatus else NotFound)
      ensures id in deals ==> deals[id].View() == Step(old(deals[id].View()), Event(Op.RequestRefund, now))
    {
      if id !in deals {
        return Err(NotFound);
      }
      var deal := deals[id];
      if IsExpired(deal.View(), now) {
        deal.status := Expired;
        return Ok(deal);
      }
      if !CanRefund(deal.View()) {
        return Err(WrongStatus);
      }
      r := Ok(deal);
    }
  }
}
