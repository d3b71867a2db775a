/**
 `TransactionScheduler` of sthrip/privacy.py. Clock readings (seconds) and draws of the
 random generator are inputs.
 */
module Scheduler {
  import opened Common
  import opened Shuffle

  // Transactions are opaque; the number tells two of them apart.
  datatype Item = Item(transaction: nat, broadcastAt: int, scheduledAt: int)

  // Unknown stands for any other privacy level string.
  datatype PrivacyLevel = Low | Medium | High | Paranoid | Unknown

  function DelayRange(level: PrivacyLevel): (r: (nat, nat))
    ensures r.0 <= r.1
  {
    match level
    case Low => (0, 300)
    case Medium => (300, 3600)
    case High => (3600, 14400)
    case Paranoid => (14400, 86400)
    case Unknown => (0, 0)
  }

  ghost predicate CanDelay(level: PrivacyLevel, delay: int) {
    var (low, high) := DelayRange(level);
    exists draw: nat :: draw <= high - low && SecureRandInt(low, high, draw) == Ok(delay)
  }

  /** The delays that can be drawn for a level: minutes, up to an hour, up to four hours, up to a day, none. */
  lemma DelaysExactly(level: PrivacyLevel, delay: int)
    ensures CanDelay(level, delay)
        <==> match level
             case Low => 0 <= delay <= 300
             case Medium => 300 <= delay <= 3600
             case High => 3600 <= delay <= 14400
             case Paranoid => 14400 <= delay <= 86400
             case Unknown => delay == 0
  {
    var (low, high) := DelayRange(level);
    if low <= delay <= high { assert SecureRandInt(low, high, delay - low) == Ok(delay); }
  }

  predicate Due(item: Item, now: int) {
    item.broadcastAt <= now
  }

  /** The items that are due, or that are not, in their order. */
  function Select(queue: seq<Item>, now: int, due: bool): seq<Item> {
    if queue == [] then []
    else
      var last := queue[|queue| - 1];
      Select(queue[..|queue| - 1], now, due) + if Due(last, now) == due then [last] else []
  }

  // ---------------------------------------------------------------- whole runs

  datatype Op = Schedule(item: Item) | GetPending(now: int) | ClearHistory

  // The queue, and what was handed out and thrown away so far.
  datatype State = State(queue: seq<Item>, released: seq<Item>, cleared: seq<Item>)

  function Step(s: State, op: Op): State {
    match op
    case Schedule(item) => s.(queue := s.queue + [item])
    case GetPending(now) =>
      State(Select(s.queue, now, false), s.released + Select(s.queue, now, true), s.cleared)
    case ClearHistory => State([], s.released, s.cleared + s.queue)
  }

  function Run(ops: seq<Op>): State {
    if ops == [] then State([], [], []) else Step(Run(ops[..|ops| - 1]), ops[|ops| - 1])
  }

  function Scheduled(ops: seq<Op>): seq<Item> {
    if ops == [] then []
    else Scheduled(ops[..|ops| - 1]) + if ops[|ops| - 1].Schedule? then [ops[|ops| - 1].item] else []
  }

  /** The last item goes to exactly one of the two selections. */
  lemma SelectAdds(queue: seq<Item>, now: int, due: bool)
    requires queue != []
    ensures var before, last := queue[..|queue| - 1], queue[|queue| - 1];
      multiset(Select(queue, now, due))
        == multiset(Select(before, now, due)) + if Due(last, now) == due then multiset{last} else multiset{}
  {
    var chosen := Select(queue[..|queue| - 1], now, due);
    assert chosen + [] == chosen;
  }

  lemma {:induction false} SelectSplits(queue: seq<Item>, now: int)
    ensures multiset(Select(queue, now, true)) + multiset(Select(queue, now, false)) == multiset(queue)
  {
    if queue != [] {
      var before, last := queue[..|queue| - 1], queue[|queue| - 1];
      SelectSplits(before, now);
      assert queue == before + [last];
      SelectAdds(queue, now, true);
      SelectAdds(queue, now, false);
    }
  }

  /** Nothing is lost or duplicated: scheduled is released, queued and cleared together. */
  lemma {:induction false} NothingLost(ops: seq<Op>)
    ensures var s := Run(ops);
      multiset(Scheduled(ops)) == multiset(s.released) + multiset(s.queue) + multiset(s.cleared)
  {
    if ops != [] {
      NothingLost(ops[..|ops| - 1]);
      if ops[|ops| - 1].GetPending? {
        SelectSplits(Run(ops[..|ops| - 1]).queue, ops[|ops| - 1].now);
      }
    }
  }

  /** The i-th operation scheduled an item that no later operation cleared or found due. */
  ghost predicate Waiting(ops: seq<Op>, i: nat)
    requires i < |ops|
  {
    && ops[i].Schedule?
    && forall j :: i < j < |ops| ==> !Takes(ops[j], ops[i].item)
  }

  predicate Takes(op: Op, item: Item) {
    op.ClearHistory? || (op.GetPending? && item.broadcastAt <= op.now)
  }

  /** The items still waiting among the first `n` operations, in scheduling order. */
  ghost function StillWaiting(ops: seq<Op>, n: nat): seq<Item>
    requires n <= |ops|
  {
    if n == 0 then [] else StillWaiting(ops, n - 1) + if Waiting(ops, n - 1) then [ops[n - 1].item] else []
  }

  lemma WaitingStep(ops: seq<Op>, i: nat)
    requires i < |ops| - 1
    ensures Waiting(ops, i) <==> Waiting(ops[..|ops| - 1], i) && !Takes(ops[|ops| - 1], ops[i].item)
  {
    var before := ops[..|ops| - 1];
    if Waiting(ops, i) {
      forall j | i < j < |before| ensures !Takes(before[j], before[i].item) { assert before[j] == ops[j]; }
    }
    if Waiting(before, i) && !Takes(ops[|ops| - 1], ops[i].item) {
      forall j | i < j < |ops| ensures !Takes(ops[j], ops[i].item) {
        if j < |before| { assert before[j] == ops[j]; }
      }
    }
  }

  lemma {:induction false} StillWaitingStep(ops: seq<Op>, n: nat)
    requires n < |ops|
    ensures var before, last := StillWaiting(ops[..|ops| - 1], n), ops[|ops| - 1];
      StillWaiting(ops, n)
        == match last
           case Schedule(_) => before
           case ClearHistory => []
           case GetPending(now) => Select(before, now, false)
  {
    if n > 0 {
      StillWaitingStep(ops, n - 1);
      WaitingStep(ops, n - 1);
      var earlier := ops[..|ops| - 1];
      assert earlier[n - 1] == ops[n - 1];
      var shorter, kept := StillWaiting(earlier, n - 1), StillWaiting(ops, n - 1);
      assert shorter + [] == shorter && kept + [] == kept;
      if Waiting(earlier, n - 1) && ops[|ops| - 1].GetPending? {
        SelectSnoc(shorter, ops[n - 1].item, ops[|ops| - 1].now, false);
        assert Select(shorter, ops[|ops| - 1].now, false) + [] == Select(shorter, ops[|ops| - 1].now, false);
      }
    }
  }

  lemma SelectSnoc(queue: seq<Item>, item: Item, now: int, due: bool)
    ensures Select(queue + [item], now, due) == Select(queue, now, due) + if Due(item, now) == due then [item] else []
  {
    assert (queue + [item])[..|queue|] == queue;
  }

  /**
   After any run the queue holds, in scheduling order, exactly the items that nothing has
   cleared and that no call of get_pending has found due since they were scheduled.
   */
  lemma {:induction false} QueueIsWaiting(ops: seq<Op>)
    ensures Run(ops).queue == StillWaiting(ops, |ops|)
  {
    if ops != [] {
      QueueIsWaiting(ops[..|ops| - 1]);
      StillWaitingStep(ops, |ops| - 1);
    }
  }

  lemma {:induction false} SelectExactly(queue: seq<Item>, now: int, due: bool, item: Item)
    ensures item in Select(queue, now, due) <==> item in queue && Due(item, now) == due
  {
    if queue != [] {
      SelectExactly(queue[..|queue| - 1], now, due, item);
      assert queue == queue[..|queue| - 1] + [queue[|queue| - 1]];
    }
  }

  /** An item was scheduled, and a later get_pending found it due. */
  ghost predicate ScheduledThenDue(ops: seq<Op>, item: Item) {
    exists i, j :: 0 <= i < j < |ops|
      && ops[i] == Op.Schedule(item) && ops[j].GetPending? && item.broadcastAt <= ops[j].now
  }

  lemma {:induction false} QueuedWasScheduled(ops: seq<Op>, item: Item) returns (i: nat)
    requires item in Run(ops).queue
    ensures i < |ops| && ops[i] == Op.Schedule(item)
  {
    var before, last := ops[..|ops| - 1], ops[|ops| - 1];
    if last == Op.Schedule(item) {
      i := |ops| - 1;
    } else {
      if last.GetPending? { SelectExactly(Run(before).queue, last.now, false, item); }
      i := QueuedWasScheduled(before, item);
    }
  }

  /** Over every run, nothing is handed out before its broadcast time. */
  lemma {:induction false} NeverReleasedEarly(ops: seq<Op>, item: Item)
    requires item in Run(ops).released
    ensures ScheduledThenDue(ops, item)
  {
    var before, last := ops[..|ops| - 1], ops[|ops| - 1];
    if item in Run(before).released {
      NeverReleasedEarly(before, item);
      var i, j :| 0 <= i < j < |before|
        && before[i] == Op.Schedule(item) && before[j].GetPending? && item.broadcastAt <= before[j].now;
      assert ops[i] == before[i] && ops[j] == before[j];
    } else {
      SelectExactly(Run(before).queue, last.now, true, item);
      var i := QueuedWasScheduled(before, item);
      assert ops[i] == Op.Schedule(item) && ops[|ops| - 1].GetPending?;
    }
  }

  // ---------------------------------------------------------------- the program

  const MIN_INTERVAL_SECONDS := 300

  /** A transaction that follows the last one too closely waits for the rest of the interval, if that is longer. */
  function Spaced(delay: nat, last: Option<int>, now: int): (r: nat)
    ensures r >= delay
    ensures last.Some? ==> now + r >= last.value + 300
    ensures r > delay ==> last.Some? && now + r == last.value + 300
  {
    if last.Some? && now - last.value < MIN_INTERVAL_SECONDS && delay < MIN_INTERVAL_SECONDS - (now - last.value)
    then MIN_INTERVAL_SECONDS - (now - last.value)
    else delay
  }

  class TransactionScheduler {
    var queue: seq<Item>
    var lastTxTime: Option<int>

    constructor ()
      ensures queue == Run([]).queue && lastTxTime == None
    {
      queue, lastTxTime := [], None;
    }

    /**
     `draw` is the result of randbelow for the range of the level. No method sets lastTxTime to
     a time, so the interval never makes a difference to an object made by the constructor.
     */
    method Schedule(transaction: nat, level: PrivacyLevel, draw: nat, now: int) returns (broadcastAt: int)
      requires draw <= DelayRange(level).1 - DelayRange(level).0
      modifies `queue
      ensures lastTxTime == None ==> now + DelayRange(level).0 <= broadcastAt <= now + DelayRange(level).1
      ensures lastTxTime.Some? ==> broadcastAt >= lastTxTime.value + 300
      ensures broadcastAt == now + Spaced(DelayRange(level).0 + draw, lastTxTime, now)
      ensures queue == Step(State(old(queue), [], []), Op.Schedule(Item(transaction, broadcastAt, now))).queue
    {
      var delay: nat := if level == Unknown then 0
                        else SecureRandInt(DelayRange(level).0, DelayRange(level).1, draw).value;
      if lastTxTime.Some? {
        var sinceLast := now - lastTxTime.value;
        if sinceLast < MIN_INTERVAL_SECONDS && delay < MIN_INTERVAL_SECONDS - sinceLast {
          delay := MIN_INTERVAL_SECONDS - sinceLast;
        }
      }
      broadcastAt := now + delay;
      queue := queue + [Item(transaction, broadcastAt, now)];
    }

    method GetPending(now: int) returns (ready: seq<Item>)
      modifies `queue
      ensures queue == Step(State(old(queue), [], []), Op.GetPending(now)).queue
      ensures ready == Select(old(queue), now, true)
      ensures forall item :: item in ready <==> item in old(queue) && item.broadcastAt <= now
    {
      ready := [];
      var pending := [];
      for i := 0 to |queue|
        invariant ready == Select(queue[..i], now, true)
        invariant pending == Select(queue[..i], now, false)
      {
        assert queue[..i + 1][..i] == queue[..i];
        if Due(queue[i], now) {
          ready := ready + [queue[i]];
        } else {
          pending := pending + [queue[i]];
        }
      }
      assert queue[..|queue|] == queue;
      forall item ensures item in ready <==> item in queue && item.broadcastAt <= now {
        SelectExactly(queue, now, true, item);
      }
      queue := pending;
    }

    method ClearHistory()
      modifies this
      ensures queue == Step(State(old(queue), [], []), Op.ClearHistory).queue && lastTxTime == None
    {
      queue, lastTxTime := [], None;
    }
  }
}
