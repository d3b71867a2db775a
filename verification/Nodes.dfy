/** `NodeManager` of sthrip/network.py. Random choices are explicit draws. */
module Nodes {
  import opened Common
  import opened Fairness

  datatype NodePriority = RandomNode | Fastest | Closest | LeastUsed

  datatype NodeError = NoAvailableNodes

  class MoneroNode {
    const host: string
    var latencyMs: Option<nat>
    var useCount: nat

    constructor (host: string, latencyMs: Option<nat>)
      ensures this.host == host && this.latencyMs == latencyMs && useCount == 0
    {
      this.host, this.latencyMs, useCount := host, latencyMs, 0;
    }
  }

  function Counts(nodes: seq<MoneroNode>): (counts: seq<nat>)
    reads nodes
    ensures |counts| == |nodes|
  {
    seq(|nodes|, i requires 0 <= i < |nodes| reads nodes => nodes[i].useCount)
  }

  /** The nodes whose host has not failed, in order. */
  function Working(nodes: seq<MoneroNode>, failed: set<string>): (r: seq<MoneroNode>)
    ensures forall i :: 0 <= i < |r| ==> r[i] in nodes && r[i].host !in failed
    ensures forall i :: 0 <= i < |nodes| && nodes[i].host !in failed ==> nodes[i] in r
  {
    if nodes == [] then []
    else
      (if nodes[0].host in failed then [] else [nodes[0]]) + Working(nodes[1..], failed)
  }

  /** Node by node, in the order of the list. */
  lemma {:induction false} WorkingSnoc(nodes: seq<MoneroNode>, node: MoneroNode, failed: set<string>)
    ensures Working(nodes + [node], failed) == Working(nodes, failed) + if node.host in failed then [] else [node]
  {
    if nodes != [] {
      assert (nodes + [node])[1..] == nodes[1..] + [node];
      WorkingSnoc(nodes[1..], node, failed);
    }
  }

  lemma {:induction false} WorkingDistinct(nodes: seq<MoneroNode>, failed: set<string>)
    requires Distinct(nodes)
    ensures Distinct(Working(nodes, failed))
  {
    if nodes != [] {
      WorkingDistinct(nodes[1..], failed);
      assert nodes[0] !in nodes[1..];
    }
  }

  function Latencies(nodes: seq<MoneroNode>): (latencies: seq<Option<nat>>)
    reads nodes
    ensures |latencies| == |nodes|
  {
    seq(|nodes|, i requires 0 <= i < |nodes| reads nodes => nodes[i].latencyMs)
  }

  /** The smallest known latency, the first of several; any position when none is known. */
  predicate IsFastest(latencies: seq<Option<nat>>, i: nat)
    requires i < |latencies|
  {
    forall k :: 0 <= k < |latencies| && latencies[k].Some? ==>
      && latencies[i].Some?
      && latencies[i].value <= latencies[k].value
      && (k < i ==> latencies[i].value < latencies[k].value)
  }

  /** If any latency is known, there is one such position. */
  lemma OneFastest(latencies: seq<Option<nat>>, i: nat, j: nat)
    requires i < |latencies| && j < |latencies| && exists k :: 0 <= k < |latencies| && latencies[k].Some?
    requires IsFastest(latencies, i) && IsFastest(latencies, j)
    ensures i == j && latencies[i].Some?
  {
  }

  /** Every place the chosen node has in the list counts one use more, and no other. */
  predicate Bumped(nodes: seq<MoneroNode>, i: nat, before: seq<nat>, after: seq<nat>)
    requires i < |nodes| && |before| == |after| == |nodes|
  {
    forall k :: 0 <= k < |nodes| ==> after[k] == before[k] + One(nodes[k] == nodes[i])
  }

  lemma BumpedDistinct(nodes: seq<MoneroNode>, i: nat, before: seq<nat>, after: seq<nat>)
    requires i < |nodes| && |before| == |after| == |nodes| && Bumped(nodes, i, before, after)
    ensures Distinct(nodes) ==> after == Increment(before, i)
  {
  }

  class NodeManager {
    var nodes: seq<MoneroNode>
    var currentIndex: nat
    var failed: set<string>

    function Available(excludeFailed: bool): seq<MoneroNode>
      reads `nodes, `failed
    {
      if excludeFailed then Working(nodes, failed) else nodes
    }

    constructor (nodes: seq<MoneroNode>)
      ensures this.nodes == nodes && failed == {} && currentIndex == 0
    {
      this.nodes, currentIndex, failed := nodes, 0, {};
    }

    method FindFastest(available: seq<MoneroNode>, draw: nat) returns (best: nat)
      requires available != []
      ensures best < |available| && IsFastest(Latencies(available), best)
    {
      best := draw % |available|;
      var measured := false;
      for i := 0 to |available|
        invariant best < |available|
        invariant measured ==> best < i && available[best].latencyMs.Some? && IsFastest(Latencies(available)[..i], best)
        invariant !measured ==> forall k :: 0 <= k < i ==> available[k].latencyMs.None?
      {
        var latency := available[i].latencyMs;
        if latency.Some? && (!measured || latency.value < available[best].latencyMs.value) {
          best, measured := i, true;
        }
        assert Latencies(available)[..i + 1][..i] == Latencies(available)[..i];
      }
      assert Latencies(available)[..|available|] == Latencies(available);
    }

    method Choose(strategy: NodePriority, available: seq<MoneroNode>, draw: nat) returns (i: nat)
      requires available != []
      modifies `currentIndex
      ensures Counts(available) == old(Counts(available)) && Latencies(available) == old(Latencies(available))
      ensures i < |available|
      ensures strategy == LeastUsed ==> i == Pick(Counts(available))
      ensures strategy == Fastest ==> IsFastest(Latencies(available), i)
      ensures strategy == Closest ==> i == old(currentIndex) % |available|
      ensures currentIndex == old(currentIndex) + if strategy == Closest then 1 else 0
    {
      match strategy {
        case RandomNode => i := draw % |available|;
        case LeastUsed => i := Pick(Counts(available));
        case Fastest =>
          i := FindFastest(available, draw);
        case Closest =>
          i := currentIndex % |available|;
          currentIndex := currentIndex + 1;
      }
    }

    method CountUse(available: seq<MoneroNode>, i: nat)
      requires i < |available|
      modifies available`useCount
      ensures Bumped(available, i, old(Counts(available)), Counts(available))
      ensures Latencies(available) == old(Latencies(available))
    {
      available[i].useCount := available[i].useCount + 1;
    }

    /** The chosen node's count, and nothing else, goes up by one. */
    method GetFrom(strategy: NodePriority, available: seq<MoneroNode>, draw: nat) returns (i: nat)
      requires available != []
      modifies `currentIndex, available`useCount
      ensures i < |available|
      ensures Bumped(available, i, old(Counts(available)), Counts(available))
      ensures strategy == LeastUsed ==> i == Pick(old(Counts(available)))
      ensures strategy == Fastest ==> IsFastest(Latencies(available), i)
      ensures strategy == Closest ==> i == old(currentIndex) % |available|
      ensures currentIndex == old(currentIndex) + if strategy == Closest then 1 else 0
    {
      i := Choose(strategy, available, draw);
      CountUse(available, i);
    }

    method GetNode(strategy: NodePriority, excludeFailed: bool, draw: nat) returns (r: Result<nat, NodeError>)
      modifies `currentIndex, Available(excludeFailed)`useCount
      ensures r.Err? <==> old(Available(excludeFailed)) == []
      ensures r.Err? ==> currentIndex == old(currentIndex)
      ensures r.Ok? ==>
        var nodes := old(Available(excludeFailed));
        && r.value < |nodes|
        && (excludeFailed ==> nodes[r.value].host !in failed)
        && Bumped(nodes, r.value, old(Counts(nodes)), Counts(nodes))
        && (strategy == LeastUsed ==> r.value == Pick(old(Counts(nodes))))
        && (strategy == Fastest ==> IsFastest(Latencies(nodes), r.value))
        && (strategy == Closest ==> r.value == old(currentIndex) % |nodes|)
    {
      var available := Available(excludeFailed);
      if |available| == 0 {
        return Err(NoAvailableNodes);
      }
      var i := GetFrom(strategy, available, draw);
      r := Ok(i);
    }

    method GetOneLeastUsed(excludeFailed: bool)
      requires Available(excludeFailed) != [] && Distinct(nodes)
      modifies `currentIndex, Available(excludeFailed)`useCount
      ensures Counts(Available(excludeFailed)) == Use(old(Counts(Available(excludeFailed))))
    {
      ghost var available := Available(excludeFailed);
      ghost var before := Counts(available);
      WorkingDistinct(nodes, failed);
      var r := GetNode(LeastUsed, excludeFailed, 0);
      BumpedDistinct(available, r.value, before, Counts(available));
    }

    /** Calls for the least used node, one after the other, give the counts that Fairness reasons about. */
    method GetLeastUsed(excludeFailed: bool, n: nat)
      requires Available(excludeFailed) != [] && Distinct(nodes)
      modifies `currentIndex, Available(excludeFailed)`useCount
      ensures Counts(Available(excludeFailed)) == AfterCalls(old(Counts(Available(excludeFailed))), n)
    {
      for k := 0 to n
        invariant Counts(Available(excludeFailed)) == AfterCalls(old(Counts(Available(excludeFailed))), k)
      {
        GetOneLeastUsed(excludeFailed);
      }
    }

    method MarkFailed(node: MoneroNode)
      modifies `failed
      ensures failed == old(failed) + {node.host}
      ensures node !in Available(true)
    {
      failed := failed + {node.host};
    }

    method MarkRecovered(node: MoneroNode)
      modifies `failed
      ensures failed == old(failed) - {node.host}
      ensures node in nodes ==> node in Available(true)
    {
      failed := failed - {node.host};
    }
  }
}
