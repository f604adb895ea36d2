/** Which routed shard may emit a matched row, so that every row is emitted exactly once. */
module Ownership {
  import opened Orders
  import opened Wrappers

  datatype PlacementMode = Standalone | Selective | ReplicatedAlwaysVisible | ReplicatedBroad

  datatype QueryPlacement = QueryPlacement(generation: nat, numShards: nat, mode: PlacementMode, positions: seq<nat>)

  datatype OwnershipContext = OwnershipContext(generation: nat, numShards: nat, routed: seq<nat>,
                                               broadEvaluator: Option<nat>)

  datatype OwnershipError =
    | UnknownMode(value: nat)
    | InvalidStandalone
    | MissingGeneration
    | EmptyShardSpace
    | EmptySelectivePlacement
    | PositionsNotStrictlySorted
    | RouteNotStrictlySorted
    | UnexpectedReplicatedPositions
    | PositionOutOfRange(position: nat, numShards: nat)
    | BroadEvaluatorNotRouted(evaluator: nat)
    | EmptyRoute

  const STANDALONE_GENERATION: nat := 0

  ghost predicate Within(positions: seq<nat>, numShards: nat) {
    forall i :: 0 <= i < |positions| ==> positions[i] < numShards
  }

  ghost predicate ValidPlacement(p: QueryPlacement) {
    if p.mode.Standalone? then p.generation == STANDALONE_GENERATION && p.numShards == 0 && p.positions == []
    else
      && p.generation != STANDALONE_GENERATION && p.numShards != 0
      && if p.mode.Selective? then p.positions != [] && Ascending(p.positions, NatLess) &&
          Within(p.positions, p.numShards)
         else p.positions == []
  }

  ghost predicate ValidContext(c: OwnershipContext) {
    && c.generation != STANDALONE_GENERATION && c.numShards != 0 && c.routed != []
    && Ascending(c.routed, NatLess) && Within(c.routed, c.numShards)
    && (c.broadEvaluator.Some? ==> c.broadEvaluator.value in c.routed)
  }

  /** The check both validations make: in range and strictly increasing, reporting the first offence. */
  method CheckPositions(positions: seq<nat>, numShards: nat, unsorted: OwnershipError)
    returns (error: Option<OwnershipError>)
    ensures error.None? <==> Ascending(positions, NatLess) && Within(positions, numShards)
    ensures error.Some? ==> Offends(positions, numShards, unsorted, error.value)
    ensures error.Some? ==> error.value == unsorted || error.value.PositionOutOfRange?
  {
    var previous: Option<nat> := None;
    for i := 0 to |positions|
      invariant Ascending(positions[..i], NatLess) && Within(positions[..i], numShards)
      invariant previous == if i == 0 then None else Some(positions[i - 1])
    {
      if positions[i] >= numShards {
        assert FirstOffence(positions, numShards, i, unsorted, PositionOutOfRange(positions[i], numShards));
        return Some(PositionOutOfRange(positions[i], numShards));
      }
      if previous.Some? && previous.value >= positions[i] {
        assert FirstOffence(positions, numShards, i, unsorted, unsorted);
        return Some(unsorted);
      }
      assert positions[..i + 1] == positions[..i] + [positions[i]];
      assert i > 0 ==> positions[..i][i - 1] == positions[i - 1];
      previous := Some(positions[i]);
    }
    assert positions[..|positions|] == positions;
    return None;
  }

  /** Everything before `k` is in order, and `k` is not. */
  ghost predicate FirstOffence(positions: seq<nat>, numShards: nat, k: nat, unsorted: OwnershipError,
                               error: OwnershipError)
    requires k < |positions|
  {
    && error == (if positions[k] >= numShards then PositionOutOfRange(positions[k], numShards) else unsorted)
    && Ascending(positions[..k], NatLess) && Within(positions[..k], numShards)
    && (positions[k] >= numShards || (k > 0 && positions[k - 1] >= positions[k]))
  }

  /** The check a placement fails first. At most one error fits. */
  ghost predicate PlacementFault(p: QueryPlacement, error: OwnershipError) {
    var clustered := !p.mode.Standalone? && p.generation != STANDALONE_GENERATION;
    match error
    case InvalidStandalone => p.mode.Standalone? && !ValidPlacement(p)
    case MissingGeneration => !p.mode.Standalone? && !clustered
    case EmptyShardSpace => clustered && p.numShards == 0
    case EmptySelectivePlacement => clustered && p.numShards != 0 && p.mode.Selective? && p.positions == []
    case UnexpectedReplicatedPositions => clustered && p.numShards != 0 && !p.mode.Selective? && p.positions != []
    case _ =>
      && clustered && p.numShards != 0 && p.mode.Selective?
      && Offends(p.positions, p.numShards, PositionsNotStrictlySorted, error)
  }

  ghost predicate ContextFault(c: OwnershipContext, error: OwnershipError) {
    var shaped := c.generation != STANDALONE_GENERATION && c.numShards != 0 && c.routed != [];
    match error
    case MissingGeneration => c.generation == STANDALONE_GENERATION
    case EmptyShardSpace => c.generation != STANDALONE_GENERATION && c.numShards == 0
    case EmptyRoute => c.generation != STANDALONE_GENERATION && c.numShards != 0 && c.routed == []
    case BroadEvaluatorNotRouted(x) =>
      shaped && Ascending(c.routed, NatLess) && Within(c.routed, c.numShards) && c.broadEvaluator == Some(x) &&
          x !in c.routed
    case _ => shaped && Offends(c.routed, c.numShards, RouteNotStrictlySorted, error)
  }

  ghost predicate Offends(positions: seq<nat>, numShards: nat, unsorted: OwnershipError, error: OwnershipError) {
    exists k :: 0 <= k < |positions| && FirstOffence(positions, numShards, k, unsorted, error)
  }

  lemma FirstIsFirst(positions: seq<nat>, numShards: nat, unsorted: OwnershipError, j: nat, k: nat, e: OwnershipError,
                     f: OwnershipError)
    requires j < k < |positions| && FirstOffence(positions, numShards, k, unsorted, f)
    ensures !FirstOffence(positions, numShards, j, unsorted, e)
  {
    assert positions[..k][j] == positions[j];
    if j > 0 { assert positions[..k][j - 1] == positions[j - 1]; }
  }

  lemma OneOffence(positions: seq<nat>, numShards: nat, unsorted: OwnershipError, e: OwnershipError, f: OwnershipError)
    requires Offends(positions, numShards, unsorted, e) && Offends(positions, numShards, unsorted, f)
    ensures e == f
  {
    var j :| 0 <= j < |positions| && FirstOffence(positions, numShards, j, unsorted, e);
    var k :| 0 <= k < |positions| && FirstOffence(positions, numShards, k, unsorted, f);
    if j < k { FirstIsFirst(positions, numShards, unsorted, j, k, e, f); }
    if k < j { FirstIsFirst(positions, numShards, unsorted, k, j, f, e); }
  }

  method ValidatePlacement(p: QueryPlacement) returns (error: Option<OwnershipError>)
    ensures error.None? <==> ValidPlacement(p)
    ensures error.Some? ==> PlacementFault(p, error.value)
  {
    if p.mode.Standalone? {
      if p.generation != STANDALONE_GENERATION || p.numShards != 0 || p.positions != [] {
        return Some(InvalidStandalone);
      }
      return None;
    }
    if p.generation == STANDALONE_GENERATION {
      return Some(MissingGeneration);
    }
    if p.numShards == 0 {
      return Some(EmptyShardSpace);
    }
    if p.mode.Selective? {
      if p.positions == [] {
        return Some(EmptySelectivePlacement);
      }
      error := CheckPositions(p.positions, p.numShards, PositionsNotStrictlySorted);
    } else {
      error := if p.positions != [] then Some(UnexpectedReplicatedPositions) else None;
    }
  }

  /** A faulty placement or route has one fault, so the error reported is the only one that fits. */
  lemma OneFault(p: QueryPlacement, c: OwnershipContext, e: OwnershipError, f: OwnershipError)
    ensures PlacementFault(p, e) && PlacementFault(p, f) ==> e == f
    ensures ContextFault(c, e) && ContextFault(c, f) ==> e == f
  {
    hide Ascending, Within, Offends;
    if PlacementFault(p, e) && PlacementFault(p, f) { OnePlacementFault(p, e, f); }
    if ContextFault(c, e) && ContextFault(c, f) { OneContextFault(c, e, f); }
  }

  lemma OnePlacementFault(p: QueryPlacement, e: OwnershipError, f: OwnershipError)
    requires PlacementFault(p, e) && PlacementFault(p, f)
    ensures e == f
  {
    var positions, n := p.positions, p.numShards;
    if Offends(positions, n, PositionsNotStrictlySorted, e) && Offends(positions, n, PositionsNotStrictlySorted, f) {
      OneOffence(positions, n, PositionsNotStrictlySorted, e, f);
    }
    assert positions == [] ==> !Offends(positions, n, PositionsNotStrictlySorted, e);
    assert positions == [] ==> !Offends(positions, n, PositionsNotStrictlySorted, f);
    hide Offends, Ascending, Within;
  }

  lemma OneContextFault(c: OwnershipContext, e: OwnershipError, f: OwnershipError)
    requires ContextFault(c, e) && ContextFault(c, f)
    ensures e == f
  {
    var routed, n := c.routed, c.numShards;
    if Offends(routed, n, RouteNotStrictlySorted, e) && Offends(routed, n, RouteNotStrictlySorted, f) {
      OneOffence(routed, n, RouteNotStrictlySorted, e, f);
    }
    OrderlyIsNoOffence(routed, n, e);
    OrderlyIsNoOffence(routed, n, f);
    hide Offends, Ascending, Within;
  }

  lemma OrderlyIsNoOffence(positions: seq<nat>, numShards: nat, e: OwnershipError)
    ensures Ascending(positions, NatLess) && Within(positions, numShards) ==>
              !Offends(positions, numShards, RouteNotStrictlySorted, e)
  {
  }

  method ValidateContext(c: OwnershipContext) returns (error: Option<OwnershipError>)
    ensures error.None? <==> ValidContext(c)
    ensures error.Some? ==> ContextFault(c, error.value)
  {
    if c.generation == STANDALONE_GENERATION {
      return Some(MissingGeneration);
    }
    if c.numShards == 0 {
      return Some(EmptyShardSpace);
    }
    if c.routed == [] {
      return Some(EmptyRoute);
    }
    error := CheckPositions(c.routed, c.numShards, RouteNotStrictlySorted);
    if error.Some? {
      return;
    }
    if c.broadEvaluator.Some? && c.broadEvaluator.value !in c.routed {
      return Some(BroadEvaluatorNotRouted(c.broadEvaluator.value));
    }
  }

  /** A selective placement from positions in any order: accepted exactly when there is a generation, a
      shard space and at least one position, all in range. */
  method SelectivePlacement(generation: nat, numShards: nat, positions: seq<nat>)
    returns (r: Result<QueryPlacement, OwnershipError>)
    ensures r.Ok? <==>
              generation != STANDALONE_GENERATION && numShards != 0 && positions != [] && Within(positions, numShards)
    ensures r.Ok? ==> ValidPlacement(r.value) && r.value.mode == Selective && forall x :: x in r.value.positions <==>
              x in positions
    ensures r.Ok? ==> r.value.generation == generation && r.value.numShards == numShards
  {
    var sorted := SortDedup(positions, NatLess);
    SortedFacts(positions, numShards);
    hide SortDedup;
    var value := QueryPlacement(generation, numShards, Selective, sorted);
    var error := ValidatePlacement(value);
    r := if error.Some? then Err(error.value) else Ok(value);
  }

  lemma SortedFacts(positions: seq<nat>, numShards: nat)
    ensures var sorted := SortDedup(positions, NatLess);
            && Ascending(sorted, NatLess) && (forall x :: x in sorted <==> x in positions)
            && (sorted == [] <==> positions == []) && (Within(sorted, numShards) <==> Within(positions, numShards))
  {
    NatOrder();
    var sorted := SortDedup(positions, NatLess);
    SortDedupListing(positions, NatLess);
    forall x ensures x in sorted <==> x in positions { SortDedupMember(positions, NatLess, x); }
    hide SortDedup;
    if positions != [] { assert positions[0] in sorted; }
    if sorted != [] { assert sorted[0] in positions; }
    assert forall i :: 0 <= i < |sorted| ==> sorted[i] in sorted;
    assert forall i :: 0 <= i < |positions| ==> positions[i] in positions;
  }

  function ModeByte(mode: PlacementMode): nat {
    match mode
    case Standalone => 0
    case Selective => 1
    case ReplicatedAlwaysVisible => 2
    case ReplicatedBroad => 3
  }

  function ModeOf(b: nat): Option<PlacementMode> {
    match b
    case 0 => Some(Standalone)
    case 1 => Some(Selective)
    case 2 => Some(ReplicatedAlwaysVisible)
    case 3 => Some(ReplicatedBroad)
    case _ => None
  }

  /** A placement read back from its stored fields, without normalizing them. */
  method FromRaw(generation: nat, numShards: nat, mode: nat, positions: seq<nat>)
    returns (r: Result<QueryPlacement, OwnershipError>)
    ensures r.Ok? ==> ValidPlacement(r.value) && r.value.generation == generation && r.value.numShards == numShards
                      && ModeByte(r.value.mode) == mode && r.value.positions == positions
    ensures forall p :: ValidPlacement(p) && p.generation == generation && p.numShards == numShards &&
              ModeByte(p.mode) == mode && p.positions == positions
              ==> r == Ok(p)
  {
    var m := ModeOf(mode);
    if m.None? {
      return Err(UnknownMode(mode));
    }
    var value := QueryPlacement(generation, numShards, m.value, positions);
    var error := ValidatePlacement(value);
    hide ValidPlacement;
    r := if error.Some? then Err(error.value) else Ok(value);
  }

  // ---- the owner ----

  /** The least position in both lists. */
  ghost predicate IsLeastCommon(a: seq<nat>, b: seq<nat>, owner: Option<nat>) {
    match owner
    case Some(x) => x in a && x in b && forall y :: y in a && y in b ==> x <= y
    case None => forall y :: y in a ==> y !in b
  }

  /** Two fingers over two sorted lists. */
  method LeastCommon(a: seq<nat>, b: seq<nat>) returns (owner: Option<nat>)
    requires Ascending(a, NatLess) && Ascending(b, NatLess)
    ensures IsLeastCommon(a, b, owner)
  {
    var p, r := 0, 0;
    while p < |a| && r < |b|
      invariant p <= |a| && r <= |b|
      invariant forall i :: 0 <= i < p && r < |b| ==> a[i] < b[r]
      invariant forall j :: 0 <= j < r && p < |a| ==> b[j] < a[p]
      invariant forall i, j :: 0 <= i < |a| && 0 <= j < |b| && (i < p || j < r) ==> a[i] != b[j]
      decreases |a| - p + |b| - r
    {
      if a[p] < b[r] {
        forall j | 0 <= j < |b| ensures a[p] != b[j] { if j > r { assert b[r] < b[j]; } }
        p := p + 1;
      } else if a[p] > b[r] {
        forall i | 0 <= i < |a| ensures a[i] != b[r] { if i > p { assert a[p] < a[i]; } }
        r := r + 1;
      } else {
        forall y | y in a && y in b ensures a[p] <= y {
          var i :| 0 <= i < |a| && a[i] == y;
          var j :| 0 <= j < |b| && b[j] == y;
          if i > p { assert a[p] < a[i]; }
        }
        return Some(a[p]);
      }
    }
    return None;
  }

  /** The one position that may emit a row, in the terms of the request's route. */
  ghost predicate Owns(c: OwnershipContext, p: QueryPlacement, owner: Option<nat>) {
    if p.generation != c.generation || p.numShards != c.numShards then owner == None
    else
      match p.mode
      case Standalone => owner == None
      case Selective => IsLeastCommon(p.positions, c.routed, owner)
      case ReplicatedAlwaysVisible => owner == if c.routed == [] then None else Some(c.routed[0])
      case ReplicatedBroad => owner == c.broadEvaluator
  }

  method Owner(c: OwnershipContext, p: QueryPlacement) returns (owner: Option<nat>)
    requires ValidContext(c) && ValidPlacement(p)
    ensures Owns(c, p, owner)
  {
    if p.generation != c.generation || p.numShards != c.numShards {
      return None;
    }
    match p.mode {
      case Standalone => owner := None;
      case Selective => owner := LeastCommon(p.positions, c.routed);
      case ReplicatedAlwaysVisible => owner := Some(c.routed[0]);
      case ReplicatedBroad => owner := c.broadEvaluator;
    }
  }

  /** The position may emit the row. */
  ghost predicate Emits(c: OwnershipContext, p: QueryPlacement, position: nat) {
    Owns(c, p, Some(position))
  }

  method ShouldEmit(c: OwnershipContext, p: QueryPlacement, position: nat) returns (emit: bool)
    requires ValidContext(c) && ValidPlacement(p)
    ensures emit <==> Emits(c, p, position)
  {
    var owner := Owner(c, p);
    if Emits(c, p, position) {
      OneOwner(c, p, owner, Some(position));
    }
    emit := owner == Some(position);
  }

  /** A batch decides each title by that title's own route. */
  method BatchShouldEmit(contexts: seq<OwnershipContext>, index: nat, p: QueryPlacement, position: nat)
    returns (emit: bool)
    requires index < |contexts| && ValidContext(contexts[index]) && ValidPlacement(p)
    ensures emit <==> Emits(contexts[index], p, position)
  {
    emit := ShouldEmit(contexts[index], p, position);
  }

  lemma OneOwner(c: OwnershipContext, p: QueryPlacement, a: Option<nat>, b: Option<nat>)
    requires Owns(c, p, a) && Owns(c, p, b)
    ensures a == b
  {
  }

  /** The number of routed positions that emit is at most one. */
  lemma AtMostOneEmitter(c: OwnershipContext, p: QueryPlacement, a: nat, b: nat)
    requires Emits(c, p, a) && Emits(c, p, b)
    ensures a == b
  {
    OneOwner(c, p, Some(a), Some(b));
  }

  ghost predicate SomeEmitter(c: OwnershipContext, p: QueryPlacement) {
    exists position :: position in c.routed && Emits(c, p, position)
  }

  ghost predicate Meet(a: seq<nat>, b: seq<nat>) {
    exists x :: x in a && x in b
  }

  lemma {:induction false} LeastFrom(a: seq<nat>, b: seq<nat>, x: nat) returns (least: nat)
    requires x in a && x in b
    ensures IsLeastCommon(a, b, Some(least))
    decreases x
  {
    if y: nat :| y in a && y in b && y < x {
      least := LeastFrom(a, b, y);
    } else {
      least := x;
    }
  }

  /** Exactly once: within the request's generation and shard space, a selective row has an emitter iff its
      placement and the route meet, and the emitter stores the row; an always-visible row always has one;
      a broad row has one iff a broad evaluator is set. Outside them nothing is emitted. */
  lemma ExactlyOnce(c: OwnershipContext, p: QueryPlacement)
    requires ValidContext(c) && ValidPlacement(p)
    ensures forall a, b :: Emits(c, p, a) && Emits(c, p, b) ==> a == b
    ensures forall a :: Emits(c, p, a) ==> a in c.routed
    ensures p.generation != c.generation || p.numShards != c.numShards || p.mode == Standalone ==> !SomeEmitter(c, p)
    ensures p.generation == c.generation && p.numShards == c.numShards ==>
              && (p.mode == Selective ==> (SomeEmitter(c, p) <==> Meet(p.positions, c.routed)))
              && (p.mode == Selective ==> forall a :: Emits(c, p, a) ==> a in p.positions)
              && (p.mode == Selective ==> forall a, b :: Emits(c, p, a) && b in p.positions && b in c.routed ==> a <= b)
              && (p.mode == ReplicatedAlwaysVisible ==> SomeEmitter(c, p))
              && (p.mode == ReplicatedBroad ==> (SomeEmitter(c, p) <==> c.broadEvaluator.Some?))
  {
    forall a, b | Emits(c, p, a) && Emits(c, p, b) ensures a == b { AtMostOneEmitter(c, p, a, b); }
    if p.generation == c.generation && p.numShards == c.numShards {
      match p.mode {
        case Standalone =>
        case Selective =>
          if Meet(p.positions, c.routed) {
            var x :| x in p.positions && x in c.routed;
            var least := LeastFrom(p.positions, c.routed, x);
            assert least in c.routed && Emits(c, p, least);
          }
        case ReplicatedAlwaysVisible =>
          assert c.routed[0] in c.routed && Emits(c, p, c.routed[0]);
        case ReplicatedBroad =>
          if c.broadEvaluator.Some? {
            assert c.broadEvaluator.value in c.routed && Emits(c, p, c.broadEvaluator.value);
          }
      }
    }
  }
}
