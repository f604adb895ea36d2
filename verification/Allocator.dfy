/** Placing shard positions on nodes by rendezvous ranking, and how little moves when the
    membership changes.
  */
module Allocator {
  import opened Lists
  import opened Orders
  import opened Wrappers

  type NodeId = nat

  datatype ShardAssignment = ShardAssignment(position: nat, primary: NodeId, replicas: seq<NodeId>)

  /** The rendezvous weight of a position on a node; any function will do. */
  type Weight = (nat, NodeId) -> nat

  /** Heavier first, then by id. */
  predicate Ahead(weight: Weight, position: nat, a: NodeId, b: NodeId) {
    weight(position, a) > weight(position, b) || (weight(position, a) == weight(position, b) && a < b)
  }

  function AheadAt(weight: Weight, position: nat): (NodeId, NodeId) -> bool {
    (a: NodeId, b: NodeId) => Ahead(weight, position, a, b)
  }

  function Ranking(weight: Weight, position: nat, nodes: seq<NodeId>): seq<NodeId> {
    SortDedup(nodes, AheadAt(weight, position))
  }

  function Clamp(rf: nat, n: nat): nat {
    var most := if n > 1 then n else 1;
    if rf < 1 then 1 else if rf > most then most else rf
  }

  /** The nodes of a position, primary first. */
  function Chosen(weight: Weight, position: nat, nodes: seq<NodeId>, rf: nat): seq<NodeId> {
    var ranked := Ranking(weight, position, nodes);
    ranked[..if Clamp(rf, |nodes|) <= |ranked| then Clamp(rf, |nodes|) else |ranked|]
  }

  lemma AheadOrder(weight: Weight, position: nat)
    ensures StrictTotal(AheadAt(weight, position))
  {
  }

  lemma {:induction false} InsertNewPlace(x: NodeId, s: seq<NodeId>, less: (NodeId, NodeId) -> bool) returns (k: nat)
    requires x !in s
    ensures k <= |s| && InsertNew(x, s, less) == s[..k] + [x] + s[k..]
  {
    if s == [] || less(x, s[0]) {
      k := 0;
    } else {
      var t := s[1..];
      var k' := InsertNewPlace(x, t, less);
      k := k' + 1;
      assert [s[0]] + t[..k'] == s[..k] && t[k'..] == s[k..];
    }
  }

  /** A ranking of distinct nodes lists each of them once. */
  lemma {:induction false} RankingComplete(weight: Weight, position: nat, nodes: seq<NodeId>)
    requires Distinct(nodes)
    ensures |Ranking(weight, position, nodes)| == |nodes|
    ensures forall n :: n in Ranking(weight, position, nodes) <==> n in nodes
    ensures Distinct(Ranking(weight, position, nodes))
  {
    AheadOrder(weight, position);
    var less := AheadAt(weight, position);
    hide AheadAt;
    forall n ensures n in SortDedup(nodes, less) <==> n in nodes { SortDedupMember(nodes, less, n); }
    SortDedupListing(nodes, less);
    if nodes != [] {
      var rest := nodes[1..];
      RankingComplete(weight, position, rest);
      SortDedupMember(rest, less, nodes[0]);
      assert nodes[0] !in rest;
      var k := InsertNewPlace(nodes[0], SortDedup(rest, less), less);
    }
  }

  // ---- one more node ----

  /** A new node takes one place in the ranking and changes nothing else. */
  lemma RankingWithNode(weight: Weight, position: nat, nodes: seq<NodeId>, x: NodeId) returns (k: nat)
    requires x !in nodes
    ensures var ranked := Ranking(weight, position, nodes);
            k <= |ranked| && Ranking(weight, position, nodes + [x]) == ranked[..k] + [x] + ranked[k..]
  {
    AheadOrder(weight, position);
    var less := AheadAt(weight, position);
    hide AheadAt;
    var ranked, grown := SortDedup(nodes, less), SortDedup(nodes + [x], less);
    SortDedupListing(nodes, less);
    SortDedupListing(nodes + [x], less);
    SortDedupMember(nodes, less, x);
    k := InsertNewPlace(x, ranked, less);
    InsertNewAscending(x, ranked, less);
    forall n ensures n in Elements(grown) <==> n in Elements(InsertNew(x, ranked, less)) {
      InsertNewMember(x, ranked, less, n);
      SortDedupMember(nodes, less, n);
      SortDedupMember(nodes + [x], less, n);
    }
    AscendingUnique(grown, InsertNew(x, ranked, less), less);
  }

  /** Adding a node leaves a position's nodes as they are or puts the newcomer among them, at the cost
      of at most the last one. */
  lemma AddMovesMinimally(weight: Weight, position: nat, nodes: seq<NodeId>, x: NodeId, rf: nat)
    requires Distinct(nodes) && nodes != [] && x !in nodes
    ensures var before, after := Chosen(weight, position, nodes, rf), Chosen(weight, position, nodes + [x], rf);
            && |before| <= |after| <= |before| + 1
            && exists k :: 0 <= k <= |before| && after == (before[..k] + [x] + before[k..])[..|after|]
  {
    var ranked := Ranking(weight, position, nodes);
    var k := RankingWithNode(weight, position, nodes, x);
    RankingComplete(weight, position, nodes);
    var before, after := Chosen(weight, position, nodes, rf), Chosen(weight, position, nodes + [x], rf);
    var grown := ranked[..k] + [x] + ranked[k..];
    hide Ranking;
    var n := |before|;
    assert before == ranked[..n] && after == grown[..|after|];
    if k <= n {
      assert before[..k] + [x] + before[k..] == grown[..n + 1];
    } else {
      assert before[..n] + [x] + before[n..] == before + [x];
      assert grown[..n] == before;
    }
  }

  // ---- one node less ----

  /** Positions that did not hold the removed node keep their nodes; the others lose it and gain at most
      one, at the end. */
  lemma RemoveMovesMinimally(weight: Weight, position: nat, nodes: seq<NodeId>, x: NodeId, rf: nat)
    requires Distinct(nodes + [x]) && nodes != []
    ensures var before, after := Chosen(weight, position, nodes + [x], rf), Chosen(weight, position, nodes, rf);
            && (x !in before ==> after == before)
            && (x in before ==> |after| <= |before|)
            && (x in before ==> exists k ::
                0 <= k < |before| && before[k] == x && before[..k] + before[k + 1..] <= after)
  {
    assert x !in nodes by { assert (nodes + [x])[|nodes|] == x; assert forall i :: 0 <= i < |nodes| ==>
        (nodes + [x])[i] == nodes[i]; }
    assert Distinct(nodes) by { assert forall i :: 0 <= i < |nodes| ==> (nodes + [x])[i] == nodes[i]; }
    var ranked := Ranking(weight, position, nodes);
    var k := RankingWithNode(weight, position, nodes, x);
    RankingComplete(weight, position, nodes);
    var before, after := Chosen(weight, position, nodes + [x], rf), Chosen(weight, position, nodes, rf);
    var grown := ranked[..k] + [x] + ranked[k..];
    hide Ranking;
    assert before == grown[..|before|] && after == ranked[..|after|];
    if k < |before| {
      assert before[k] == x;
      assert before[..k] + before[k + 1..] == ranked[..|before| - 1];
    } else {
      assert before == ranked[..|before|];
      assert x !in before;
    }
  }

  /** The plan does not depend on the order the nodes are listed in. */
  lemma PlanIgnoresOrder(weight: Weight, position: nat, a: seq<NodeId>, b: seq<NodeId>, rf: nat)
    requires Distinct(a) && Distinct(b) && Elements(a) == Elements(b)
    ensures Chosen(weight, position, a, rf) == Chosen(weight, position, b, rf)
  {
    AheadOrder(weight, position);
    SortDedupByElements(a, b, AheadAt(weight, position));
    RankingComplete(weight, position, a);
    RankingComplete(weight, position, b);
  }

  // ---- the plan ----

  lemma SomeoneChosen(weight: Weight, position: nat, nodes: seq<NodeId>, rf: nat)
    requires Distinct(nodes) && nodes != []
    ensures |Chosen(weight, position, nodes, rf)| == Clamp(rf, |nodes|) > 0
    ensures Distinct(Chosen(weight, position, nodes, rf))
    ensures forall n :: n in Chosen(weight, position, nodes, rf) ==> n in nodes
  {
    RankingComplete(weight, position, nodes);
    hide Ranking;
  }

  /** One assignment per position, in order, on distinct nodes. */
  method PlanAssignments(weight: Weight, nodes: seq<NodeId>, numShards: nat, rf: nat)
    returns (plan: seq<ShardAssignment>)
    requires Distinct(nodes) && nodes != []
    ensures |plan| == numShards
    ensures forall p :: 0 <= p < numShards ==>
              && plan[p].position == p && [plan[p].primary] + plan[p].replicas == Chosen(weight, p, nodes, rf)
              && Distinct([plan[p].primary] + plan[p].replicas) && 1 + |plan[p].replicas| == Clamp(rf, |nodes|)
  {
    plan := [];
    for p := 0 to numShards
      invariant |plan| == p
      invariant forall i :: 0 <= i < p ==>
              && plan[i].position == i && [plan[i].primary] + plan[i].replicas == Chosen(weight, i, nodes, rf)
              && Distinct([plan[i].primary] + plan[i].replicas) && 1 + |plan[i].replicas| == Clamp(rf, |nodes|)
    {
      SomeoneChosen(weight, p, nodes, rf);
      hide Chosen;
      var chosen := Chosen(weight, p, nodes, rf);
      assert [chosen[0]] + chosen[1..] == chosen;
      plan := plan + [ShardAssignment(p, chosen[0], chosen[1..])];
    }
  }

  // ---- what a rebalance commits ----

  function AssignmentAt(current: seq<ShardAssignment>, position: nat): Option<ShardAssignment> {
    if current == [] then None
    else if current[0].position == position then Some(current[0])
    else AssignmentAt(current[1..], position)
  }

  /** The desired assignments that are not already in force. */
  function Changed(current: seq<ShardAssignment>, desired: seq<ShardAssignment>): seq<ShardAssignment> {
    Filter((d: ShardAssignment) => AssignmentAt(current, d.position) != Some(d), desired)
  }
}
