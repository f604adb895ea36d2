/** The cluster-state document and the changes that are committed to it. Its lists are the unique
    sorted listings of last-writer-wins maps.
  */
module Control {
  import opened Allocator
  import opened Keyed
  import opened Lists
  import opened Wrappers

  datatype NodeRole = Data | Manager

  datatype NodeDescriptor = NodeDescriptor(id: NodeId, addr: Option<string>, role: NodeRole)

  datatype AssignmentGeneration = AssignmentGeneration(position: nat, generation: nat)

  datatype ClusterState = ClusterState(
    epoch: nat,
    nodes: seq<NodeDescriptor>,
    voters: seq<NodeId>,
    assignments: seq<ShardAssignment>,
    numShards: nat,
    vnodes: nat,
    dictFingerprint: nat,
    modelVersion: nat,
    placementGeneration: nat,
    generations: seq<AssignmentGeneration>)

  datatype Change =
    | AddNode(node: NodeDescriptor)
    | RemoveNode(id: NodeId)
    | AssignShard(assignment: ShardAssignment)
    | BumpModelVersion(fingerprint: nat)
    | SetShardCount(count: nat)

  const MAX_GENERATION: nat := 0xFFFF_FFFF_FFFF_FFFF
  const INITIAL_GENERATION: nat := 1

  function NextGeneration(g: nat): nat {
    if g + 1 > MAX_GENERATION then MAX_GENERATION else g + 1
  }

  // ---- applying a change to the lists ----

  function NodeKey(n: NodeDescriptor): nat { n.id }

  function PositionKey(a: ShardAssignment): nat { a.position }

  function GenerationKey(g: AssignmentGeneration): nat { g.position }

  function Default(position: nat): ShardAssignment { ShardAssignment(position, 0, []) }

  predicate Has(assignments: seq<ShardAssignment>, position: nat) {
    exists a :: a in assignments && a.position == position
  }

  /** A default assignment for every position below the count that has none. */
  function Filled(assignments: seq<ShardAssignment>, count: nat): seq<ShardAssignment> {
    if count == 0 then assignments
    else
      var before := Filled(assignments, count - 1);
      if Has(before, count - 1) then before else before + [Default(count - 1)]
  }

  function GenerationOf(generations: seq<AssignmentGeneration>, position: nat): nat {
    if generations == [] then 0
    else if generations[0].position == position then generations[0].generation
    else GenerationOf(generations[1..], position)
  }

  function Bumped(generations: seq<AssignmentGeneration>, position: nat): seq<AssignmentGeneration> {
    Replaced(generations, AssignmentGeneration(position, NextGeneration(GenerationOf(generations, position))),
             GenerationKey)
  }

  function ApplyChange(s: ClusterState, c: Change): ClusterState {
    match c
    case AddNode(node) => s.(nodes := Replaced(s.nodes, node, NodeKey))
    case RemoveNode(id) => s.(nodes := Filter((n: NodeDescriptor) => NodeKey(n) != id, s.nodes))
    case AssignShard(a) =>
      s.(assignments := Replaced(s.assignments, a, PositionKey), generations := Bumped(s.generations, a.position))
    case BumpModelVersion(fingerprint) =>
      s.(dictFingerprint := fingerprint, modelVersion := s.modelVersion + 1,
         placementGeneration := NextGeneration(s.placementGeneration))
    case SetShardCount(count) =>
      var kept := Filter((a: ShardAssignment) => PositionKey(a) < count, s.assignments);
      s.(numShards := count, placementGeneration := NextGeneration(s.placementGeneration),
         assignments := SortBy(Filled(kept, count), PositionKey),
         generations := Filter((g: AssignmentGeneration) => GenerationKey(g) < count, s.generations))
  }

  // ---- the maps behind the lists ----

  datatype Document = Document(
    nodes: map<nat, NodeDescriptor>,
    assignments: map<nat, ShardAssignment>,
    generations: map<nat, AssignmentGeneration>)

  /** How often a position was assigned since it last came into being. */
  function Counted(d: Document, position: nat): nat {
    if position in d.generations then d.generations[position].generation else 0
  }

  /** Last writer wins. */
  function Written(d: Document, c: Change): Document {
    match c
    case AddNode(node) => d.(nodes := d.nodes[node.id := node])
    case RemoveNode(id) => d.(nodes := map k | k in d.nodes && k != id :: d.nodes[k])
    case AssignShard(a) =>
      var next := AssignmentGeneration(a.position, NextGeneration(Counted(d, a.position)));
      d.(assignments := d.assignments[a.position := a], generations := d.generations[a.position := next])
    case BumpModelVersion(_) => d
    case SetShardCount(count) =>
      d.(assignments := map p | 0 <= p < count :: if p in d.assignments then d.assignments[p] else Default(p),
         generations := map p | p in d.generations && p < count :: d.generations[p])
  }

  ghost predicate Canonical(s: ClusterState, d: Document) {
    && ListingOf(s.nodes, NodeKey, d.nodes)
    && ListingOf(s.assignments, PositionKey, d.assignments)
    && ListingOf(s.generations, GenerationKey, d.generations)
  }

  lemma {:induction false} FilledMember(assignments: seq<ShardAssignment>, count: nat, a: ShardAssignment)
    ensures a in Filled(assignments, count)
       <==> a in assignments || (a.position < count && a == Default(a.position) && !Has(assignments, a.position))
  {
    if count > 0 {
      FilledMember(assignments, count - 1, a);
      var p := count - 1;
      FilledHas(assignments, p);
    }
  }

  lemma {:induction false} FilledHas(assignments: seq<ShardAssignment>, count: nat)
    ensures Has(Filled(assignments, count), count) <==> Has(assignments, count)
    decreases count, 0
  {
    if Has(assignments, count) {
      var a :| a in assignments && a.position == count;
      FilledKeeps(assignments, count, a);
    }
    if Has(Filled(assignments, count), count) {
      var a :| a in Filled(assignments, count) && a.position == count;
      FilledOrigin(assignments, count, a);
    }
  }

  lemma {:induction false} FilledKeeps(assignments: seq<ShardAssignment>, count: nat, a: ShardAssignment)
    requires a in assignments
    ensures a in Filled(assignments, count)
  {
    if count > 0 { FilledKeeps(assignments, count - 1, a); }
  }

  lemma {:induction false} FilledOrigin(assignments: seq<ShardAssignment>, count: nat, a: ShardAssignment)
    requires a in Filled(assignments, count)
    ensures a in assignments || a.position < count
  {
    if count > 0 && a in Filled(assignments, count - 1) { FilledOrigin(assignments, count - 1, a); }
  }

  lemma {:induction false} FilledApart(assignments: seq<ShardAssignment>, count: nat)
    requires KeysApart(assignments, PositionKey)
    ensures KeysApart(Filled(assignments, count), PositionKey)
  {
    if count > 0 {
      var before := Filled(assignments, count - 1);
      FilledApart(assignments, count - 1);
      if !Has(before, count - 1) {
        forall i | 0 <= i < |before| ensures PositionKey(before[i]) != count - 1 { assert before[i] in before; }
      }
    }
  }

  lemma SortedFill(kept: seq<ShardAssignment>, count: nat)
    requires AscendingBy(kept, PositionKey)
    ensures var sorted := SortBy(Filled(kept, count), PositionKey);
            && AscendingBy(sorted, PositionKey)
            && forall a :: a in sorted <==>
                a in kept || (a.position < count && a == Default(a.position) && !Has(kept, a.position))
  {
    assert KeysApart(kept, PositionKey);
    FilledApart(kept, count);
    var filled := Filled(kept, count);
    SortByListing(filled, PositionKey);
    hide SortBy;
    forall a ensures a in filled <==>
        a in kept || (a.position < count && a == Default(a.position) && !Has(kept, a.position)) {
      FilledMember(kept, count, a);
    }
  }

  lemma CountListing(s: ClusterState, d: Document, count: nat)
    requires ListingOf(s.assignments, PositionKey, d.assignments)
    ensures ListingOf(ApplyChange(s, SetShardCount(count)).assignments, PositionKey,
                      Written(d, SetShardCount(count)).assignments)
  {
    hide *;
    WrittenCount(d, count);
    var kept := CountApplied(s, count);
    ListedAscending(s.assignments, d.assignments);
    KeptFacts(s.assignments, kept, count);
    SortedFill(kept, count);
    SpreadListing(s.assignments, d.assignments, kept, SortBy(Filled(kept, count), PositionKey), count);
  }

  lemma ListedAscending(assignments: seq<ShardAssignment>, m: map<nat, ShardAssignment>)
    requires ListingOf(assignments, PositionKey, m)
    ensures AscendingBy(assignments, PositionKey)
  {
  }

  lemma CountApplied(s: ClusterState, count: nat) returns (kept: seq<ShardAssignment>)
    ensures kept == Filter((a: ShardAssignment) => PositionKey(a) < count, s.assignments)
    ensures ApplyChange(s, SetShardCount(count)).assignments == SortBy(Filled(kept, count), PositionKey)
  {
    kept := Filter((a: ShardAssignment) => PositionKey(a) < count, s.assignments);
  }

  lemma KeptFacts(assignments: seq<ShardAssignment>, kept: seq<ShardAssignment>, count: nat)
    requires AscendingBy(assignments, PositionKey)
    requires kept == Filter((a: ShardAssignment) => PositionKey(a) < count, assignments)
    ensures AscendingBy(kept, PositionKey) && forall a :: a in kept <==> a in assignments && a.position < count
  {
    var keep := (a: ShardAssignment) => PositionKey(a) < count;
    FilterAscending(keep, assignments, PositionKey);
    forall a ensures a in kept <==> a in assignments && a.position < count { FilterMember(keep, assignments, a); }
  }

  lemma SpreadListing(given: seq<ShardAssignment>, m: map<nat, ShardAssignment>, kept: seq<ShardAssignment>,
                      sorted: seq<ShardAssignment>, count: nat)
    requires ListingOf(given, PositionKey, m) && AscendingBy(sorted, PositionKey)
    requires forall a :: a in kept <==> a in given && a.position < count
    requires forall a :: a in sorted <==>
               a in kept || (a.position < count && a == Default(a.position) && !Has(kept, a.position))
    ensures ListingOf(sorted, PositionKey, map p | 0 <= p < count :: if p in m then m[p] else Default(p))
  {
    var grown := map p | 0 <= p < count :: if p in m then m[p] else Default(p);
    forall p | 0 <= p < count ensures Has(kept, p) <==> p in m {
      if p in m { assert m[p] in kept; }
    }
    forall a | a in sorted ensures a.position in grown && grown[a.position] == a { }
    forall p | p in grown ensures PositionKey(grown[p]) == p && grown[p] in sorted { }
  }

  /** Every change keeps the lists the listings of the maps. */
  lemma ChangeListing(s: ClusterState, d: Document, c: Change)
    requires Canonical(s, d)
    ensures Canonical(ApplyChange(s, c), Written(d, c))
  {
    match c {
      case AddNode(node) =>
        hide ListingOf, Replaced;
        ReplacedListing(s.nodes, node, NodeKey, d.nodes);
      case RemoveNode(id) =>
        RemoveListing(s.nodes, d.nodes, id);
        hide ListingOf, Filter;
      case AssignShard(a) =>
        GenerationAt(s.generations, d, a.position);
        hide ListingOf, Replaced;
        ReplacedListing(s.assignments, a, PositionKey, d.assignments);
        var next := AssignmentGeneration(a.position, NextGeneration(Counted(d, a.position)));
        ReplacedListing(s.generations, next, GenerationKey, d.generations);
      case BumpModelVersion(_) =>
      case SetShardCount(count) =>
        CountListing(s, d, count);
        PruneListing(s.generations, d.generations, count);
        hide ListingOf, Filled, SortBy, Filter;
    }
  }

  lemma {:induction false} GenerationIs(generations: seq<AssignmentGeneration>, g: AssignmentGeneration)
    requires AscendingBy(generations, GenerationKey) && g in generations
    ensures GenerationOf(generations, g.position) == g.generation
  {
    if generations[0] != g {
      var i :| 0 <= i < |generations| && generations[i] == g;
      assert GenerationKey(generations[0]) < GenerationKey(generations[i]);
      GenerationIs(generations[1..], g);
    }
  }

  lemma {:induction false} NoGeneration(generations: seq<AssignmentGeneration>, position: nat)
    requires forall g :: g in generations ==> g.position != position
    ensures GenerationOf(generations, position) == 0
  {
    if generations != [] {
      assert generations[0] in generations;
      NoGeneration(generations[1..], position);
    }
  }

  lemma GenerationAt(generations: seq<AssignmentGeneration>, d: Document, position: nat)
    requires ListingOf(generations, GenerationKey, d.generations)
    ensures GenerationOf(generations, position) == Counted(d, position)
  {
    if position in d.generations {
      GenerationIs(generations, d.generations[position]);
    } else {
      NoGeneration(generations, position);
    }
  }

  lemma PruneListing(generations: seq<AssignmentGeneration>, m: map<nat, AssignmentGeneration>, count: nat)
    requires ListingOf(generations, GenerationKey, m)
    ensures ListingOf(Filter((g: AssignmentGeneration) => GenerationKey(g) < count, generations), GenerationKey,
                      map p | p in m && p < count :: m[p])
  {
    var keep := (g: AssignmentGeneration) => GenerationKey(g) < count;
    FilterAscending(keep, generations, GenerationKey);
    forall g ensures g in Filter(keep, generations) <==>
        g in generations && GenerationKey(g) < count { FilterMember(keep, generations, g); }
    hide Filter;
  }

  lemma RemoveListing(nodes: seq<NodeDescriptor>, m: map<nat, NodeDescriptor>, id: nat)
    requires ListingOf(nodes, NodeKey, m)
    ensures ListingOf(Filter((n: NodeDescriptor) => NodeKey(n) != id, nodes), NodeKey, map k | k in m && k != id ::
              m[k])
  {
    var keep := (n: NodeDescriptor) => NodeKey(n) != id;
    FilterAscending(keep, nodes, NodeKey);
    forall n ensures n in Filter(keep, nodes) <==> n in nodes && NodeKey(n) != id { FilterMember(keep, nodes, n); }
    hide Filter;
  }

  predicate SameLists(a: ClusterState, b: ClusterState) {
    a.nodes == b.nodes && a.assignments == b.assignments && a.generations == b.generations
  }

  function ApplyAll(s: ClusterState, cs: seq<Change>): ClusterState {
    if cs == [] then s else ApplyChange(ApplyAll(s, cs[..|cs| - 1]), cs[|cs| - 1])
  }

  function WrittenAll(d: Document, cs: seq<Change>): Document {
    if cs == [] then d else Written(WrittenAll(d, cs[..|cs| - 1]), cs[|cs| - 1])
  }

  /** After any sequence of changes, `nodes`, `assignments` and `generations` are the sorted listings of
      the last-writer-wins maps, and the only ones. */
  lemma {:induction false} DocumentIsCanonical(s: ClusterState, d: Document, cs: seq<Change>)
    requires Canonical(s, d)
    ensures Canonical(ApplyAll(s, cs), WrittenAll(d, cs))
    ensures forall other :: Canonical(other, WrittenAll(d, cs)) ==>
              SameLists(other, ApplyAll(s, cs))
  {
    if cs != [] {
      DocumentIsCanonical(s, d, cs[..|cs| - 1]);
      hide Canonical, ApplyChange, Written;
      ChangeListing(ApplyAll(s, cs[..|cs| - 1]), WrittenAll(d, cs[..|cs| - 1]), cs[|cs| - 1]);
    }
    OnlyListing(ApplyAll(s, cs), WrittenAll(d, cs));
  }

  lemma OnlyListing(s: ClusterState, d: Document)
    requires Canonical(s, d)
    ensures forall other :: Canonical(other, d) ==> SameLists(other, s)
  {
    hide ListingOf;
    forall other: ClusterState | Canonical(other, d)
      ensures SameLists(other, s)
    {
      OneListing(other.generations, s.generations, GenerationKey, d.generations);
      OneListing(other.nodes, s.nodes, NodeKey, d.nodes);
      OneListing(other.assignments, s.assignments, PositionKey, d.assignments);
    }
  }

  /** A shard-count change leaves exactly one assignment per position and keeps the survivors. */
  lemma CountIsDense(s: ClusterState, d: Document, count: nat)
    requires Canonical(s, d)
    ensures var after := ApplyChange(s, SetShardCount(count)).assignments;
            && |after| == count
            && forall p :: 0 <= p < count ==>
                 && after[p].position == p
                 && after[p] == if p in d.assignments then d.assignments[p] else Default(p)
  {
    CountListing(s, d, count);
    var after := ApplyChange(s, SetShardCount(count)).assignments;
    var m := Written(d, SetShardCount(count)).assignments;
    hide ApplyChange, Written;
    assert m == map p | 0 <= p < count ::
        (if p in d.assignments then d.assignments[p] else Default(p)) by { WrittenCount(d, count); }
    DenseListing(after, PositionKey, m, count);
  }

  lemma WrittenCount(d: Document, count: nat)
    ensures Written(d, SetShardCount(count)).assignments
         == map p | 0 <= p < count :: (if p in d.assignments then d.assignments[p] else Default(p))
  {
  }

  /** The listing of a map on `0 .. count` has the value of `p` at place `p`. */
  lemma DenseListing<T(!new)>(s: seq<T>, key: T -> nat, m: map<nat, T>, count: nat)
    requires ListingOf(s, key, m) && forall k :: k in m <==> 0 <= k < count
    ensures |s| == count && forall p :: 0 <= p < count ==> s[p] == m[p]
  {
    var dense := seq(count, p requires p in m => m[p]);
    forall p | 0 <= p < count ensures key(dense[p]) == p { assert p in m; }
    forall x | x in dense ensures key(x) in m && m[key(x)] == x {
      var p :| 0 <= p < count && dense[p] == x;
    }
    forall k | k in m ensures m[k] in dense { assert dense[k] == m[k]; }
    assert ListingOf(dense, key, m);
    OneListing(s, dense, key, m);
  }

  // ---- rebalancing ----

  lemma {:induction false} FirstAt(assignments: seq<ShardAssignment>, m: map<nat, ShardAssignment>, position: nat)
    requires ListingOf(assignments, PositionKey, m)
    ensures AssignmentAt(assignments, position) == if position in m then Some(m[position]) else None
  {
    if position in m {
      FoundAt(assignments, m[position]);
    } else {
      NotFoundAt(assignments, position);
    }
  }

  lemma {:induction false} FoundAt(assignments: seq<ShardAssignment>, a: ShardAssignment)
    requires AscendingBy(assignments, PositionKey) && a in assignments
    ensures AssignmentAt(assignments, a.position) == Some(a)
  {
    if assignments[0] != a {
      var i :| 0 <= i < |assignments| && assignments[i] == a;
      assert PositionKey(assignments[0]) < PositionKey(assignments[i]);
      FoundAt(assignments[1..], a);
    }
  }

  lemma {:induction false} NotFoundAt(assignments: seq<ShardAssignment>, position: nat)
    requires forall a :: a in assignments ==> a.position != position
    ensures AssignmentAt(assignments, position) == None
  {
    if assignments != [] {
      assert assignments[0] in assignments;
      NotFoundAt(assignments[1..], position);
    }
  }

  /** One proposal per changed assignment. */
  function Proposals(changed: seq<ShardAssignment>): seq<Change> {
    Map(a => AssignShard(a), changed)
  }

  /** `after` is `given` with the assignments of the list written over it, as far as `position` goes. */
  ghost predicate WrittenOver(changed: seq<ShardAssignment>, given: map<nat, ShardAssignment>,
                              after: map<nat, ShardAssignment>, position: nat) {
    && (forall a :: a in changed && a.position == position ==> position in after && after[position] == a)
    && ((forall a :: a in changed ==> a.position != position) ==>
          (position in after <==> position in given) && (position in after ==> after[position] == given[position]))
  }

  lemma WrittenOverMore(rest: seq<ShardAssignment>, last: ShardAssignment, given: map<nat, ShardAssignment>,
                        before: map<nat, ShardAssignment>, position: nat)
    requires WrittenOver(rest, given, before, position) && forall a :: a in rest ==> a.position != last.position
    ensures WrittenOver(rest + [last], given, before[last.position := last], position)
  {
  }

  lemma LastProposal(d: Document, changed: seq<ShardAssignment>)
    requires changed != []
    ensures WrittenAll(d, Proposals(changed)).assignments
         == var last := changed[|changed| - 1];
            WrittenAll(d, Proposals(changed[..|changed| - 1])).assignments[last.position := last]
  {
    var all := Proposals(changed);
    assert all[..|all| - 1] == Proposals(changed[..|changed| - 1]);
  }

  /** A list of assignments, at most one per position, written over the document. */
  lemma {:induction false} ProposalsWrite(d: Document, changed: seq<ShardAssignment>, position: nat)
    requires KeysApart(changed, PositionKey)
    ensures WrittenOver(changed, d.assignments, WrittenAll(d, Proposals(changed)).assignments, position)
  {
    if changed != [] {
      var rest, last := changed[..|changed| - 1], changed[|changed| - 1];
      ProposalsWrite(d, rest, position);
      LastProposal(d, changed);
      forall a | a in rest ensures a.position != last.position {
        var i :| 0 <= i < |rest| && rest[i] == a;
        assert PositionKey(changed[i]) != PositionKey(changed[|changed| - 1]);
      }
      assert changed == rest + [last];
      hide WrittenAll, Proposals, WrittenOver, KeysApart;
      WrittenOverMore(rest, last, d.assignments, WrittenAll(d, Proposals(rest)).assignments, position);
    }
  }

  lemma {:induction false} FilterApart<T(!new)>(keep: T -> bool, s: seq<T>, key: T -> nat)
    requires KeysApart(s, key)
    ensures KeysApart(Filter(keep, s), key)
  {
    if s != [] {
      var rest := s[..|s| - 1];
      FilterApart(keep, rest, key);
      var kept := Filter(keep, rest);
      forall i | 0 <= i < |kept| ensures key(kept[i]) != key(s[|s| - 1]) {
        FilterMember(keep, rest, kept[i]);
        var k :| 0 <= k < |rest| && rest[k] == kept[i];
        assert s[k] == kept[i];
      }
    }
  }

  lemma ChangedMember(current: seq<ShardAssignment>, desired: seq<ShardAssignment>, a: ShardAssignment)
    ensures a in Changed(current, desired) <==> a in desired && AssignmentAt(current, a.position) != Some(a)
  {
    FilterMember((d: ShardAssignment) => AssignmentAt(current, d.position) != Some(d), desired, a);
  }

  /** Committing a rebalance's difference puts every desired assignment in force, so the next difference
      is empty. */
  lemma RebalanceReachesPlan(s: ClusterState, d: Document, desired: seq<ShardAssignment>)
    requires Canonical(s, d) && KeysApart(desired, PositionKey)
    ensures var after := ApplyAll(s, Proposals(Changed(s.assignments, desired)));
            && (forall a :: a in desired ==> a in after.assignments)
            && Changed(after.assignments, desired) == []
  {
    var changed := Changed(s.assignments, desired);
    var cs := Proposals(changed);
    FilterApart((x: ShardAssignment) => AssignmentAt(s.assignments, x.position) != Some(x), desired, PositionKey);
    DocumentIsCanonical(s, d, cs);
    var after, d' := ApplyAll(s, cs), WrittenAll(d, cs);
    forall a ensures a in changed <==> a in desired && AssignmentAt(s.assignments, a.position) != Some(a) {
      ChangedMember(s.assignments, desired, a);
    }
    hide Changed, Proposals, ApplyAll, WrittenAll;
    forall a | a in desired
      ensures a in after.assignments && AssignmentAt(after.assignments, a.position) == Some(a)
    {
      InForce(s, d, desired, changed, d', a);
      FirstAt(after.assignments, d'.assignments, a.position);
    }
    var left := Changed(after.assignments, desired);
    if left != [] {
      ChangedMember(after.assignments, desired, left[0]);
    }
  }

  lemma InForce(s: ClusterState, d: Document, desired: seq<ShardAssignment>, changed: seq<ShardAssignment>,
                d': Document, a: ShardAssignment)
    requires Canonical(s, d) && KeysApart(desired, PositionKey) && KeysApart(changed, PositionKey) && a in desired
    requires forall x :: x in changed <==> x in desired && AssignmentAt(s.assignments, x.position) != Some(x)
    requires d' == WrittenAll(d, Proposals(changed))
    ensures a.position in d'.assignments && d'.assignments[a.position] == a
  {
    ProposalsWrite(d, changed, a.position);
    FirstAt(s.assignments, d.assignments, a.position);
    hide WrittenAll, Proposals;
    if a !in changed {
      forall x | x in changed ensures x.position != a.position {
        var i :| 0 <= i < |desired| && desired[i] == x;
        var j :| 0 <= j < |desired| && desired[j] == a;
      }
    }
  }

  lemma PlanInForce(s: ClusterState, d: Document, desired: seq<ShardAssignment>, changed: seq<ShardAssignment>,
                    d': Document)
    requires Canonical(s, d) && KeysApart(desired, PositionKey) && KeysApart(changed, PositionKey)
    requires forall k :: k in d.assignments <==> 0 <= k < |desired|
    requires forall p :: 0 <= p < |desired| ==> desired[p].position == p
    requires forall x :: x in changed <==> x in desired && AssignmentAt(s.assignments, x.position) != Some(x)
    requires d' == WrittenAll(d, Proposals(changed))
    ensures forall p :: 0 <= p < |desired| ==> p in d'.assignments && d'.assignments[p] == desired[p]
    ensures forall k :: k in d'.assignments ==> k < |desired|
  {
    hide Canonical, WrittenAll, Proposals, KeysApart;
    forall p | 0 <= p < |desired| ensures p in d'.assignments && d'.assignments[p] == desired[p] {
      assert desired[p] in desired;
      InForce(s, d, desired, changed, d', desired[p]);
    }
    forall k: nat | k in d'.assignments ensures k < |desired| {
      ProposalsWrite(d, changed, k);
    }
  }

  /** For a plan over exactly the document's positions, the assignments become the plan itself. */
  lemma RebalanceIsPlan(s: ClusterState, d: Document, desired: seq<ShardAssignment>)
    requires Canonical(s, d) && forall k :: k in d.assignments <==> 0 <= k < |desired|
    requires forall p :: 0 <= p < |desired| ==> desired[p].position == p
    ensures ApplyAll(s, Proposals(Changed(s.assignments, desired))).assignments == desired
  {
    var changed := Changed(s.assignments, desired);
    var cs := Proposals(changed);
    FilterApart((x: ShardAssignment) => AssignmentAt(s.assignments, x.position) != Some(x), desired, PositionKey);
    DocumentIsCanonical(s, d, cs);
    var after, d' := ApplyAll(s, cs), WrittenAll(d, cs);
    forall a ensures a in changed <==> a in desired && AssignmentAt(s.assignments, a.position) != Some(a) {
      ChangedMember(s.assignments, desired, a);
    }
    assert KeysApart(desired, PositionKey);
    hide Changed, Proposals, ApplyAll, WrittenAll, ListingOf, KeysApart;
    PlanInForce(s, d, desired, changed, d');
    DenseListing(after.assignments, PositionKey, d'.assignments, |desired|);
  }

  // ---- the in-memory control plane ----

  function SingleNode(numShards: nat, vnodes: nat, fingerprint: nat): ClusterState {
    ClusterState(0, [NodeDescriptor(0, None, Manager)], [0], seq(numShards, (p: nat) => Default(p)), numShards, vnodes,
                 fingerprint, 0, INITIAL_GENERATION, [])
  }

  lemma SingleNodeCanonical(numShards: nat, vnodes: nat, fingerprint: nat)
    ensures Canonical(SingleNode(numShards, vnodes, fingerprint),
                      Document(map[0 := NodeDescriptor(0, None, Manager)],
                               map p | 0 <= p < numShards :: Default(p), map[]))
  {
    var s := SingleNode(numShards, vnodes, fingerprint);
    var m: map<nat, ShardAssignment> := map p | 0 <= p < numShards :: Default(p);
    forall k | k in m ensures m[k] in s.assignments { assert s.assignments[k] == m[k]; }
  }

  lemma EpochApart(s: ClusterState, d: Document, epoch: nat)
    requires Canonical(s, d)
    ensures Canonical(s.(epoch := epoch), d)
  {
    hide ListingOf;
  }

  class InMemoryControlPlane {
    var state: ClusterState
    ghost var document: Document

    ghost predicate Valid()
      reads this
    {
      Canonical(state, document)
    }

    constructor (numShards: nat, vnodes: nat, fingerprint: nat)
      ensures Valid() && state == SingleNode(numShards, vnodes, fingerprint)
    {
      state := SingleNode(numShards, vnodes, fingerprint);
      document := Document(map[0 := NodeDescriptor(0, None, Manager)], map p | 0 <= p < numShards :: Default(p), map[]);
      SingleNodeCanonical(numShards, vnodes, fingerprint);
    }

    /** Commit one change: the document moves on by one epoch, and its lists stay canonical. */
    method Propose(change: Change) returns (version: nat)
      requires Valid()
      modifies this
      ensures Valid() && document == Written(old(document), change)
      ensures state == ApplyChange(old(state), change).(epoch := old(state.epoch) + 1) && version == state.epoch
    {
      hide Canonical, Replaced, Filter, SortBy, Filled, Bumped, Written;
      ChangeListing(state, document, change);
      var next := state;
      match change {
        case AddNode(node) =>
          var nodes := ReplaceNode(next, node, document);
          next := next.(nodes := nodes);
        case RemoveNode(id) =>
          next := next.(nodes := Filter((n: NodeDescriptor) => NodeKey(n) != id, next.nodes));
        case AssignShard(a) =>
          var assignments := ReplaceAssignment(next, a, document);
          next := next.(assignments := assignments, generations := Bumped(next.generations, a.position));
        case BumpModelVersion(fingerprint) =>
          next := next.(dictFingerprint := fingerprint, modelVersion := next.modelVersion + 1,
                        placementGeneration := NextGeneration(next.placementGeneration));
        case SetShardCount(count) =>
          var kept := Filter((a: ShardAssignment) => PositionKey(a) < count, next.assignments);
          var filled := FillPositions(kept, count);
          next := next.(numShards := count, placementGeneration := NextGeneration(next.placementGeneration),
                        assignments := SortBy(filled, PositionKey),
                        generations := Filter((g: AssignmentGeneration) => GenerationKey(g) < count, next.generations));
      }
      EpochApart(next, Written(document, change), next.epoch + 1);
      next := next.(epoch := next.epoch + 1);
      state := next;
      document := Written(document, change);
      version := next.epoch;
    }

    static method ReplaceNode(s: ClusterState, node: NodeDescriptor, ghost d: Document)
      returns (nodes: seq<NodeDescriptor>)
      requires Canonical(s, d)
      ensures nodes == Replaced(s.nodes, node, NodeKey)
    {
      nodes := Replace(s.nodes, node, NodeKey, d.nodes);
    }

    static method ReplaceAssignment(s: ClusterState, a: ShardAssignment, ghost d: Document)
      returns (assignments: seq<ShardAssignment>)
      requires Canonical(s, d)
      ensures assignments == Replaced(s.assignments, a, PositionKey)
    {
      assignments := Replace(s.assignments, a, PositionKey, d.assignments);
    }

    /** Retain what has another key, push, sort: the listing of a map becomes that of the updated map. */
    static method Replace<T(!new)>(s: seq<T>, x: T, key: T -> nat, ghost m: map<nat, T>) returns (r: seq<T>)
      requires ListingOf(s, key, m)
      ensures ListingOf(r, key, m[key(x) := x]) && r == Replaced(s, x, key)
    {
      ReplacedListing(s, x, key, m);
      hide ListingOf, Filter, SortBy;
      r := Filter(y => key(y) != key(x), s);
      r := r + [x];
      r := SortBy(r, key);
    }

    static method FillPositions(assignments: seq<ShardAssignment>, count: nat) returns (filled: seq<ShardAssignment>)
      ensures filled == Filled(assignments, count)
    {
      filled := assignments;
      for p := 0 to count
        invariant filled == Filled(assignments, p)
      {
        if !Has(filled, p) {
          filled := filled + [Default(p)];
        }
      }
    }
  }
}
