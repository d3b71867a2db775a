/** Picking the least used of a fixed set of nodes, over and over. */
module Fairness {

  /** Python's min with a key: the first position of a smallest count. */
  function Pick(counts: seq<nat>): (i: nat)
    requires counts != []
    ensures i < |counts|
    ensures forall k :: 0 <= k < |counts| ==> counts[i] <= counts[k]
    ensures forall k :: 0 <= k < i ==> counts[i] < counts[k]
  {
    if |counts| == 1 then 0
    else
      var rest := counts[..|counts| - 1];
      var i := Pick(rest);
      if counts[|counts| - 1] < counts[i] then |counts| - 1 else i
  }

  function Increment(counts: seq<nat>, i: nat): (r: seq<nat>)
    requires i < |counts|
    ensures |r| == |counts|
  {
    counts[i := counts[i] + 1]
  }

  function Use(counts: seq<nat>): (r: seq<nat>)
    requires counts != []
    ensures |r| == |counts|
  {
    Increment(counts, Pick(counts))
  }

  function AfterCalls(counts: seq<nat>, n: nat): (r: seq<nat>)
    requires counts != []
    ensures |r| == |counts|
  {
    if n == 0 then counts else Use(AfterCalls(counts, n - 1))
  }

  function Sum(counts: seq<nat>): nat {
    if counts == [] then 0 else Sum(counts[..|counts| - 1]) + counts[|counts| - 1]
  }

  ghost predicate Within(counts: seq<nat>, low: nat, width: nat) {
    forall k :: 0 <= k < |counts| ==> low <= counts[k] <= low + width
  }

  lemma {:induction false} SumAfterIncrement(counts: seq<nat>, i: nat)
    requires i < |counts|
    ensures Sum(Increment(counts, i)) == Sum(counts) + 1
  {
    var after := Increment(counts, i);
    var n := |counts| - 1;
    if i == n {
      assert after[..n] == counts[..n];
    } else {
      SumAfterIncrement(counts[..n], i);
      assert after[..n] == Increment(counts[..n], i);
    }
  }

  /** Every call is counted once. */
  lemma {:induction false} TotalRises(counts: seq<nat>, n: nat)
    requires counts != []
    ensures Sum(AfterCalls(counts, n)) == Sum(counts) + n
  {
    if n > 0 {
      TotalRises(counts, n - 1);
      var before := AfterCalls(counts, n - 1);
      SumAfterIncrement(before, Pick(before));
    }
  }

  lemma UseKeepsWidth(counts: seq<nat>, low: nat, width: nat) returns (after: nat)
    requires counts != [] && width >= 1 && Within(counts, low, width)
    ensures Within(Use(counts), after, width)
  {
    after := if counts[Pick(counts)] == low + width then low + 1 else low;
  }

  /** Counts that lie within a band at least one wide stay within a band of that width. */
  lemma {:induction false} SpreadNeverWidens(counts: seq<nat>, low: nat, width: nat, n: nat) returns (after: nat)
    requires counts != [] && width >= 1 && Within(counts, low, width)
    ensures Within(AfterCalls(counts, n), after, width)
  {
    after := low;
    if n > 0 {
      after := SpreadNeverWidens(counts, low, width, n - 1);
      after := UseKeepsWidth(AfterCalls(counts, n - 1), after, width);
    }
  }

  ghost predicate AtMost(counts: seq<nat>, top: nat) {
    forall k :: 0 <= k < |counts| ==> counts[k] <= top
  }

  ghost predicate AllEqual(counts: seq<nat>, top: nat) {
    forall k :: 0 <= k < |counts| ==> counts[k] == top
  }

  lemma {:induction false} SumBound(counts: seq<nat>, top: nat)
    requires AtMost(counts, top)
    ensures Sum(counts) <= |counts| * top
    ensures Sum(counts) == |counts| * top <==> AllEqual(counts, top)
  {
    if counts != [] {
      var n := |counts| - 1;
      SumBound(counts[..n], top);
      assert |counts| * top == n * top + top;
      if AllEqual(counts, top) { assert AllEqual(counts[..n], top); }
      if AllEqual(counts[..n], top) && counts[n] == top {
        forall k | 0 <= k < |counts| ensures counts[k] == top { if k < n { assert counts[..n][k] == top; } }
      }
    }
  }

  /** While the counts do not all stand at `top`, a call does not exceed it. */
  lemma UseStaysBelow(counts: seq<nat>, top: nat)
    requires counts != [] && AtMost(counts, top) && !AllEqual(counts, top)
    ensures AtMost(Use(counts), top)
  {
    var k :| 0 <= k < |counts| && counts[k] != top;
    assert counts[Pick(counts)] <= counts[k] < top;
  }

  lemma {:induction false} StaysBelow(counts: seq<nat>, top: nat, n: nat)
    requires counts != [] && AtMost(counts, top) && Sum(counts) + n <= |counts| * top
    ensures AtMost(AfterCalls(counts, n), top)
  {
    if n > 0 {
      StaysBelow(counts, top, n - 1);
      TotalRises(counts, n - 1);
      SumBound(AfterCalls(counts, n - 1), top);
      UseStaysBelow(AfterCalls(counts, n - 1), top);
    }
  }

  /**
   For any level no lower than the largest count, all counts stand at that level after
   exactly as many calls as are missing to it, and after no other number of calls.
   */
  lemma EvenExactly(counts: seq<nat>, top: nat, n: nat)
    requires counts != [] && AtMost(counts, top)
    ensures AllEqual(AfterCalls(counts, n), top) <==> Sum(counts) + n == |counts| * top
  {
    TotalRises(counts, n);
    var after := AfterCalls(counts, n);
    if AllEqual(after, top) {
      SumBound(after, top);
    }
    if Sum(counts) + n == |counts| * top {
      StaysBelow(counts, top, n);
      SumBound(after, top);
    }
  }
}
