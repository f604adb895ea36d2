/** Token graphs of quoted clauses and of titles, and what it means for a quoted clause to
    occur in a title. Every matcher of the system is proved against `Occurs`.
  */
module PhraseGraphs {

  type FeatureId = nat

  /** One edge of a title graph: a single label over token positions `start .. end`. */
  datatype PositionArc = PositionArc(feature: FeatureId, start: nat, end: nat)

  /** One edge of a quoted clause: a set of equivalent labels. */
  datatype PhraseArc = PhraseArc(start: nat, end: nat, alternatives: seq<FeatureId>)

  datatype PhraseGraph = PhraseGraph(positions: nat, arcs: seq<PhraseArc>)

  /** A pair of boundaries, one in the query graph and one in the title graph. */
  type State = (nat, nat)

  // ---- what a caller hands over ----

  ghost predicate Sorted(s: seq<nat>) {
    forall i, j :: 0 <= i < j < |s| ==> s[i] <= s[j]
  }

  /** The canonical arc order, as far as the searches rely on it. */
  ghost predicate Canonical(q: PhraseGraph) {
    && (forall i, j :: 0 <= i < j < |q.arcs| ==> q.arcs[i].start <= q.arcs[j].start)
    && (forall i :: 0 <= i < |q.arcs| ==> Sorted(q.arcs[i].alternatives))
  }

  ghost predicate SortedTitle(title: seq<PositionArc>) {
    forall i, j :: 0 <= i < j < |title| ==> title[i].start <= title[j].start
  }

  // ---- the definition: a query path and a title path taken in step ----

  ghost predicate IsQueryPath(q: PhraseGraph, path: seq<nat>, from: nat, to: nat) {
    if path == [] then from == to
    else
      var last := path[|path| - 1];
      last < |q.arcs| && q.arcs[last].end == to && IsQueryPath(q, path[..|path| - 1], from, q.arcs[last].start)
  }

  ghost predicate IsTitlePath(title: seq<PositionArc>, path: seq<nat>, from: nat, to: nat) {
    if path == [] then from == to
    else
      var last := path[|path| - 1];
      last < |title| && title[last].end == to && IsTitlePath(title, path[..|path| - 1], from, title[last].start)
  }

  /** Edge for edge, the title's label is one the query edge accepts. Widths may differ. */
  ghost predicate InStep(q: PhraseGraph, title: seq<PositionArc>, queryPath: seq<nat>, titlePath: seq<nat>) {
    && |queryPath| == |titlePath|
    && forall k :: 0 <= k < |queryPath| ==>
         && queryPath[k] < |q.arcs| && titlePath[k] < |title|
         && title[titlePath[k]].feature in q.arcs[queryPath[k]].alternatives
  }

  ghost predicate Reached(q: PhraseGraph, title: seq<PositionArc>, start: nat, s: State) {
    exists queryPath, titlePath ::
      && IsQueryPath(q, queryPath, 0, s.0)
      && IsTitlePath(title, titlePath, start, s.1)
      && InStep(q, title, queryPath, titlePath)
  }

  /** The quoted clause occurs in the title: some title start has a title path in step with a
      complete path through a clause that spans at least one position. */
  ghost predicate Occurs(q: PhraseGraph, titlePositions: nat, title: seq<PositionArc>) {
    && q.positions != 0
    && exists start, to :: 0 <= start < titlePositions && Reached(q, title, start, (q.positions, to))
  }

  // ---- one step of the product graph ----

  /** Query arc `i` and title arc `j` leave `s` together. */
  ghost predicate Leaves(q: PhraseGraph, title: seq<PositionArc>, s: State, i: nat, j: nat) {
    && i < |q.arcs| && j < |title|
    && q.arcs[i].start == s.0 && title[j].start == s.1
    && title[j].feature in q.arcs[i].alternatives
  }

  function Target(q: PhraseGraph, title: seq<PositionArc>, i: nat, j: nat): State
    requires i < |q.arcs| && j < |title|
  {
    (q.arcs[i].end, title[j].end)
  }

  ghost predicate Expanded(q: PhraseGraph, title: seq<PositionArc>, s: State, seen: set<State>) {
    forall i, j :: Leaves(q, title, s, i, j) ==> Target(q, title, i, j) in seen
  }

  lemma QueryPathExtends(q: PhraseGraph, path: seq<nat>, from: nat, i: nat)
    requires i < |q.arcs| && IsQueryPath(q, path, from, q.arcs[i].start)
    ensures IsQueryPath(q, path + [i], from, q.arcs[i].end)
  {
    assert (path + [i])[..|path|] == path;
  }

  lemma TitlePathExtends(title: seq<PositionArc>, path: seq<nat>, from: nat, j: nat)
    requires j < |title| && IsTitlePath(title, path, from, title[j].start)
    ensures IsTitlePath(title, path + [j], from, title[j].end)
  {
    assert (path + [j])[..|path|] == path;
  }

  lemma InStepExtends(q: PhraseGraph, title: seq<PositionArc>, queryPath: seq<nat>, titlePath: seq<nat>, i: nat, j: nat)
    requires InStep(q, title, queryPath, titlePath) && i < |q.arcs| && j < |title|
    requires title[j].feature in q.arcs[i].alternatives
    ensures InStep(q, title, queryPath + [i], titlePath + [j])
  {
  }

  lemma ReachedExtends(q: PhraseGraph, title: seq<PositionArc>, start: nat, s: State, i: nat, j: nat)
    requires Reached(q, title, start, s) && Leaves(q, title, s, i, j)
    ensures Reached(q, title, start, Target(q, title, i, j))
  {
    hide IsQueryPath, IsTitlePath, InStep;
    var queryPath, titlePath :|
      && IsQueryPath(q, queryPath, 0, s.0)
      && IsTitlePath(title, titlePath, start, s.1)
      && InStep(q, title, queryPath, titlePath);
    QueryPathExtends(q, queryPath, 0, i);
    TitlePathExtends(title, titlePath, start, j);
    InStepExtends(q, title, queryPath, titlePath, i, j);
  }

  lemma ReachedAtStart(q: PhraseGraph, title: seq<PositionArc>, start: nat)
    ensures Reached(q, title, start, (0, start))
  {
    assert IsQueryPath(q, [], 0, 0) && IsTitlePath(title, [], start, start) && InStep(q, title, [], []);
  }

  /** A set that holds the start and is closed under steps holds every reachable state. */
  lemma {:induction false} ClosedHoldsPath(q: PhraseGraph, title: seq<PositionArc>, seen: set<State>,
                                           start: nat, queryPath: seq<nat>, titlePath: seq<nat>, s: State)
    requires (0, start) in seen
    requires forall t :: t in seen ==> Expanded(q, title, t, seen)
    requires IsQueryPath(q, queryPath, 0, s.0) && IsTitlePath(title, titlePath, start, s.1)
    requires InStep(q, title, queryPath, titlePath)
    ensures s in seen
    decreases |queryPath|
  {
    if queryPath != [] {
      var n := |queryPath| - 1;
      var i, j := queryPath[n], titlePath[n];
      var before := (q.arcs[i].start, title[j].start);
      assert queryPath[..n][..] == queryPath[..n];
      ClosedHoldsPath(q, title, seen, start, queryPath[..n], titlePath[..n], before);
      assert Leaves(q, title, before, i, j);
      assert s == Target(q, title, i, j);
    }
  }

  lemma ClosedHoldsReached(q: PhraseGraph, title: seq<PositionArc>, seen: set<State>, start: nat, s: State)
    requires (0, start) in seen
    requires forall t :: t in seen ==> Expanded(q, title, t, seen)
    requires Reached(q, title, start, s)
    ensures s in seen
  {
    var queryPath, titlePath :|
      && IsQueryPath(q, queryPath, 0, s.0)
      && IsTitlePath(title, titlePath, start, s.1)
      && InStep(q, title, queryPath, titlePath);
    ClosedHoldsPath(q, title, seen, start, queryPath, titlePath, s);
  }

  // ---- how many states there are ----

  /** The end pairs of query arc `i` with the first `m` title arcs. */
  ghost function Row(q: PhraseGraph, title: seq<PositionArc>, i: nat, m: nat): (r: set<State>)
    requires i < |q.arcs| && m <= |title|
    ensures |r| <= m
    ensures forall j :: 0 <= j < m ==> Target(q, title, i, j) in r
  {
    if m == 0 then {} else Row(q, title, i, m - 1) + {Target(q, title, i, m - 1)}
  }

  /** The end pairs of the first `n` query arcs. */
  ghost function Ends(q: PhraseGraph, title: seq<PositionArc>, n: nat): (r: set<State>)
    requires n <= |q.arcs|
    ensures |r| <= n * |title|
    ensures forall i, j :: 0 <= i < n && 0 <= j < |title| ==> Target(q, title, i, j) in r
  {
    if n == 0 then {}
    else
      assert n * |title| == (n - 1) * |title| + |title|;
      Ends(q, title, n - 1) + Row(q, title, n - 1, |title|)
  }

  ghost function Starts(titlePositions: nat): (r: set<State>)
    ensures |r| == titlePositions
    ensures forall s :: s in r <==> s.0 == 0 && s.1 < titlePositions
  {
    if titlePositions == 0 then {} else Starts(titlePositions - 1) + {(0, titlePositions - 1)}
  }

  /** Every state a search can see. */
  ghost function Universe(q: PhraseGraph, titlePositions: nat, title: seq<PositionArc>): (r: set<State>)
    ensures Starts(titlePositions) <= r
    ensures forall i, j :: 0 <= i < |q.arcs| && 0 <= j < |title| ==> Target(q, title, i, j) in r
  {
    Starts(titlePositions) + Ends(q, title, |q.arcs|)
  }

  lemma UniverseSize(q: PhraseGraph, titlePositions: nat, title: seq<PositionArc>)
    ensures |Universe(q, titlePositions, title)| <= titlePositions + |q.arcs| * |title|
  {
  }

  lemma SubsetSize<T>(a: set<T>, b: set<T>)
    requires a <= b
    ensures |a| <= |b|
  {
    if a != {} {
      var x :| x in a;
      SubsetSize(a - {x}, b - {x});
    }
  }
}
