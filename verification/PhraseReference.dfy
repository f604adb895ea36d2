/** The reference matcher's breadth-first search for a quoted clause, and its agreement with
    the engine's searches.
  */
module PhraseReference {
  import opened Orders
  import opened PhraseGraphs
  import opened PhraseSearch
  import opened Wrappers

  predicate ForwardEdge(start: nat, end: nat, positions: nat) {
    start < end <= positions
  }

  /** The clause without the edges that stand still, go back or leave the clause. */
  ghost function ForwardArcs(arcs: seq<PhraseArc>, positions: nat): (r: seq<PhraseArc>)
    ensures forall a :: a in r <==> a in arcs && ForwardEdge(a.start, a.end, positions)
    ensures (forall a :: a in arcs ==> ForwardEdge(a.start, a.end, positions)) ==> r == arcs
  {
    if arcs == [] then []
    else
      assert arcs == [arcs[0]] + arcs[1..];
      var rest := ForwardArcs(arcs[1..], positions);
      if ForwardEdge(arcs[0].start, arcs[0].end, positions) then [arcs[0]] + rest else rest
  }

  ghost function ForwardClause(q: PhraseGraph): PhraseGraph {
    PhraseGraph(q.positions, ForwardArcs(q.arcs, q.positions))
  }

  ghost function ForwardTitle(title: seq<PositionArc>, positions: nat): (r: seq<PositionArc>)
    ensures forall a :: a in r <==> a in title && ForwardEdge(a.start, a.end, positions)
    ensures (forall a :: a in title ==> ForwardEdge(a.start, a.end, positions)) ==> r == title
  {
    if title == [] then []
    else
      assert title == [title[0]] + title[1..];
      var rest := ForwardTitle(title[1..], positions);
      if ForwardEdge(title[0].start, title[0].end, positions) then [title[0]] + rest else rest
  }

  ghost predicate WellFormed(q: PhraseGraph, titlePositions: nat, title: seq<PositionArc>) {
    && (forall a :: a in q.arcs ==> ForwardEdge(a.start, a.end, q.positions))
    && (forall a :: a in title ==> ForwardEdge(a.start, a.end, titlePositions))
  }

  // ---- one step, said of arcs instead of their places ----

  ghost predicate StepsTo(q: PhraseGraph, title: seq<PositionArc>, s: State, t: State) {
    exists a, b ::
      && a in q.arcs && b in title
      && a.start == s.0 && b.start == s.1 && b.feature in a.alternatives
      && t == (a.end, b.end)
  }

  lemma StepsToIsLeaves(q: PhraseGraph, title: seq<PositionArc>, s: State, t: State)
    ensures StepsTo(q, title, s, t) <==> exists i, j :: Leaves(q, title, s, i, j) && t == Target(q, title, i, j)
  {
    if StepsTo(q, title, s, t) {
      var a, b :| a in q.arcs && b in title && a.start == s.0 && b.start == s.1 && b.feature in a.alternatives &&
          t == (a.end, b.end);
      var i :| 0 <= i < |q.arcs| && q.arcs[i] == a;
      var j :| 0 <= j < |title| && title[j] == b;
      assert Leaves(q, title, s, i, j);
    }
    if i: nat, j: nat :| Leaves(q, title, s, i, j) && t == Target(q, title, i, j) {
      assert q.arcs[i] in q.arcs && title[j] in title;
    }
  }

  lemma {:induction false} DistinctFits<T>(s: seq<T>, universe: set<T>)
    requires Distinct(s) && forall x :: x in s ==> x in universe
    ensures |s| <= |universe|
  {
    if s != [] {
      var n := |s| - 1;
      assert forall x :: x in s[..n] ==> x in s;
      DistinctFits(s[..n], universe - {s[n]});
    }
  }

  /** The search's invariant: the list has no repeats, holds every start, holds only reachable
      states, and the states before `next` are no goals and fully expanded. */
  ghost predicate Explored(q: PhraseGraph, titlePositions: nat, title: seq<PositionArc>, reachable: seq<State>,
                           next: nat) {
    && Distinct(reachable) && next <= |reachable|
    && (forall k :: 0 <= k < titlePositions ==> (0, k) in reachable)
    && (forall s :: s in reachable ==> ReachedFromAny(q, titlePositions, title, s))
    && (forall k, t :: 0 <= k < next && StepsTo(q, title, reachable[k], t) ==> t in reachable)
    && (forall k :: 0 <= k < next ==> reachable[k].0 != q.positions)
  }

  lemma ReachedSteps(q: PhraseGraph, titlePositions: nat, title: seq<PositionArc>, s: State, t: State)
    requires ReachedFromAny(q, titlePositions, title, s) && StepsTo(q, title, s, t)
    ensures ReachedFromAny(q, titlePositions, title, t)
  {
    StepsToIsLeaves(q, title, s, t);
    var start :| 0 <= start < titlePositions && Reached(q, title, start, s);
    var i, j :| Leaves(q, title, s, i, j) && t == Target(q, title, i, j);
    ReachedExtends(q, title, start, s, i, j);
  }

  lemma ReachedInUniverse(q: PhraseGraph, titlePositions: nat, title: seq<PositionArc>, s: State)
    requires ReachedFromAny(q, titlePositions, title, s)
    ensures s in Universe(q, titlePositions, title)
  {
    var start :| 0 <= start < titlePositions && Reached(q, title, start, s);
    var queryPath, titlePath :|
      && IsQueryPath(q, queryPath, 0, s.0)
      && IsTitlePath(title, titlePath, start, s.1)
      && InStep(q, title, queryPath, titlePath);
    if queryPath == [] {
      assert s in Starts(titlePositions);
    } else {
      assert s == Target(q, title, queryPath[|queryPath| - 1], titlePath[|titlePath| - 1]);
    }
  }

  lemma ExploredAll(q: PhraseGraph, titlePositions: nat, title: seq<PositionArc>, reachable: seq<State>)
    requires Explored(q, titlePositions, title, reachable, |reachable|)
    ensures !Occurs(q, titlePositions, title)
  {
    var seen := set s | s in reachable;
    forall s | s in seen
      ensures Expanded(q, title, s, seen)
    {
      forall i, j | Leaves(q, title, s, i, j)
        ensures Target(q, title, i, j) in seen
      {
        StepsToIsLeaves(q, title, s, Target(q, title, i, j));
        var k :| 0 <= k < |reachable| && reachable[k] == s;
      }
    }
    forall start, to | 0 <= start < titlePositions
      ensures !Reached(q, title, start, (q.positions, to))
    {
      if Reached(q, title, start, (q.positions, to)) {
        ClosedHoldsReached(q, title, seen, start, (q.positions, to));
      }
    }
  }

  /** The loop's test for an edge and an item. */
  predicate Takes(q: PhraseGraph, titlePositions: nat, at: State, edge: PhraseArc, item: PositionArc) {
    && edge.start == at.0 && at.0 < edge.end <= q.positions
    && item.start == at.1 && at.1 < item.end <= titlePositions
    && item.feature in edge.alternatives
  }

  /** Some pair of arcs is taken from `at` to `t`. */
  ghost predicate TakesTo(q: PhraseGraph, titlePositions: nat, title: seq<PositionArc>, at: State, t: State) {
    exists i, j ::
      && 0 <= i < |q.arcs| && 0 <= j < |title|
      && Takes(q, titlePositions, at, q.arcs[i], title[j]) && t == (q.arcs[i].end, title[j].end)
  }

  lemma TakesIsStep(q: PhraseGraph, titlePositions: nat, title: seq<PositionArc>, at: State, t: State)
    ensures StepsTo(ForwardClause(q), ForwardTitle(title, titlePositions), at, t)
       <==> TakesTo(q, titlePositions, title, at, t)
  {
    var fq, ft := ForwardClause(q), ForwardTitle(title, titlePositions);
    if StepsTo(fq, ft, at, t) {
      var a, b :| a in fq.arcs && b in ft && a.start == at.0 && b.start == at.1 && b.feature in a.alternatives &&
          t == (a.end, b.end);
      var i :| 0 <= i < |q.arcs| && q.arcs[i] == a;
      var j :| 0 <= j < |title| && title[j] == b;
      assert Takes(q, titlePositions, at, q.arcs[i], title[j]);
    }
    if i, j :|
        && 0 <= i < |q.arcs| && 0 <= j < |title|
        && Takes(q, titlePositions, at, q.arcs[i], title[j]) && t == (q.arcs[i].end, title[j].end)
    {
      assert q.arcs[i] in fq.arcs && title[j] in ft;
    }
  }

  /** What a partly run extension of `at` leaves: no repeats, the old list in front, and only
      pairs the loop's test takes behind it. */
  ghost predicate Extended(q: PhraseGraph, titlePositions: nat, title: seq<PositionArc>, at: State,
                           reachable0: seq<State>, reachable: seq<State>) {
    && Distinct(reachable) && reachable0 <= reachable
    && forall s :: s in reachable && s !in reachable0 ==>
         TakesTo(q, titlePositions, title, at, s)
  }

  method ExtendEdge(q: PhraseGraph, titlePositions: nat, title: seq<PositionArc>, at: State, i: nat,
                    ghost reachable0: seq<State>, reachable1: seq<State>)
    returns (reachable: seq<State>)
    requires i < |q.arcs| && q.arcs[i].start == at.0 && at.0 < q.arcs[i].end <= q.positions
    requires Extended(q, titlePositions, title, at, reachable0, reachable1)
    ensures Extended(q, titlePositions, title, at, reachable0, reachable) && reachable1 <= reachable
    ensures forall j :: 0 <= j < |title| && Takes(q, titlePositions, at, q.arcs[i], title[j]) ==>
              (q.arcs[i].end, title[j].end) in reachable
  {
    reachable := reachable1;
    for j := 0 to |title|
      invariant Extended(q, titlePositions, title, at, reachable0, reachable) && reachable1 <= reachable
      invariant forall l :: 0 <= l < j && Takes(q, titlePositions, at, q.arcs[i], title[l]) ==>
                  (q.arcs[i].end, title[l].end) in reachable
    {
      var item := title[j];
      if item.start == at.1 && item.end > at.1 && item.end <= titlePositions && item.feature in q.arcs[i].alternatives {
        var pair := (q.arcs[i].end, item.end);
        if pair !in reachable {
          reachable := reachable + [pair];
        }
      }
    }
  }

  /** Try every pair of arcs from one state, adding the pairs not listed yet. */
  method Extend(q: PhraseGraph, titlePositions: nat, title: seq<PositionArc>, at: State, reachable0: seq<State>)
    returns (reachable: seq<State>)
    requires Distinct(reachable0)
    ensures Extended(q, titlePositions, title, at, reachable0, reachable)
    ensures forall i, j ::
              0 <= i < |q.arcs| && 0 <= j < |title| && Takes(q, titlePositions, at, q.arcs[i], title[j]) ==>
              (q.arcs[i].end, title[j].end) in reachable
  {
    reachable := reachable0;
    for i := 0 to |q.arcs|
      invariant Extended(q, titlePositions, title, at, reachable0, reachable)
      invariant forall k, l :: 0 <= k < i && 0 <= l < |title| && Takes(q, titlePositions, at, q.arcs[k], title[l]) ==>
                  (q.arcs[k].end, title[l].end) in reachable
    {
      var edge := q.arcs[i];
      if edge.start != at.0 || edge.end <= at.0 || edge.end > q.positions {
        continue;
      }
      reachable := ExtendEdge(q, titlePositions, title, at, i, reachable0, reachable);
    }
  }

  /** Extending the next state keeps the invariant for the forward graphs. */
  lemma ExploredNext(q: PhraseGraph, titlePositions: nat, title: seq<PositionArc>, reachable: seq<State>, next: nat,
                     reachable': seq<State>)
    requires Explored(ForwardClause(q), titlePositions, ForwardTitle(title, titlePositions), reachable, next)
    requires next < |reachable|
    requires reachable[next].0 != q.positions
    requires Extended(q, titlePositions, title, reachable[next], reachable, reachable')
    requires forall i, j ::
               0 <= i < |q.arcs| && 0 <= j < |title| &&
               Takes(q, titlePositions, reachable[next], q.arcs[i], title[j]) ==>
               (q.arcs[i].end, title[j].end) in reachable'
    ensures Explored(ForwardClause(q), titlePositions, ForwardTitle(title, titlePositions), reachable', next + 1)
  {
    var fq, ft := ForwardClause(q), ForwardTitle(title, titlePositions);
    assert fq.positions == q.positions;
    hide Explored, Extended, StepsTo, Takes, ReachedFromAny, ForwardClause, ForwardTitle;
    NextReached(q, titlePositions, title, reachable, next, reachable');
    forall t | StepsTo(fq, ft, reachable[next], t) ensures t in reachable' {
      TakesIsStep(q, titlePositions, title, reachable[next], t);
      TakenIsIn(q, titlePositions, title, reachable[next], t, reachable');
    }
    ExtendedKeeps(q, titlePositions, title, reachable[next], reachable, reachable');
    ExploredGrows(fq, titlePositions, ft, reachable, next, reachable');
  }

  lemma ExtendedKeeps(q: PhraseGraph, titlePositions: nat, title: seq<PositionArc>, at: State, reachable: seq<State>,
                      reachable': seq<State>)
    requires Extended(q, titlePositions, title, at, reachable, reachable')
    ensures Distinct(reachable') && reachable <= reachable'
  {
  }

  /** What is added is reached in one step from a reached state. */
  lemma NextReached(q: PhraseGraph, titlePositions: nat, title: seq<PositionArc>, reachable: seq<State>, next: nat,
                    reachable': seq<State>)
    requires Explored(ForwardClause(q), titlePositions, ForwardTitle(title, titlePositions), reachable, next)
    requires next < |reachable| && Extended(q, titlePositions, title, reachable[next], reachable, reachable')
    ensures forall s :: s in reachable' ==>
              ReachedFromAny(ForwardClause(q), titlePositions, ForwardTitle(title, titlePositions), s)
  {
    var fq, ft := ForwardClause(q), ForwardTitle(title, titlePositions);
    hide StepsTo, TakesTo, ReachedFromAny, ForwardClause, ForwardTitle;
    assert ReachedFromAny(fq, titlePositions, ft, reachable[next]);
    forall s | s in reachable'
      ensures ReachedFromAny(fq, titlePositions, ft, s)
    {
      if s !in reachable {
        TakesIsStep(q, titlePositions, title, reachable[next], s);
        ReachedSteps(fq, titlePositions, ft, reachable[next], s);
      }
    }
  }

  lemma ExploredGrows(q: PhraseGraph, titlePositions: nat, title: seq<PositionArc>, reachable: seq<State>, next: nat,
                      reachable': seq<State>)
    requires Explored(q, titlePositions, title, reachable, next) && next < |reachable|
    requires reachable <= reachable' && Distinct(reachable') && reachable[next].0 != q.positions
    requires forall s :: s in reachable' ==> ReachedFromAny(q, titlePositions, title, s)
    requires forall t :: StepsTo(q, title, reachable[next], t) ==> t in reachable'
    ensures Explored(q, titlePositions, title, reachable', next + 1)
  {
    hide StepsTo, ReachedFromAny, Distinct;
    forall k, t | 0 <= k < next + 1 && StepsTo(q, title, reachable'[k], t)
      ensures t in reachable'
    {
      assert reachable'[k] == reachable[k];
      if k < next { KeptIsIn(reachable, reachable', t); }
    }
    forall k | 0 <= k < titlePositions ensures (0, k) in reachable' { KeptIsIn(reachable, reachable', (0, k)); }
  }

  lemma TakenIsIn(q: PhraseGraph, titlePositions: nat, title: seq<PositionArc>, at: State, t: State,
                  reachable: seq<State>)
    requires TakesTo(q, titlePositions, title, at, t)
    requires forall i, j ::
               0 <= i < |q.arcs| && 0 <= j < |title| && Takes(q, titlePositions, at, q.arcs[i], title[j]) ==>
               (q.arcs[i].end, title[j].end) in reachable
    ensures t in reachable
  {
  }

  lemma KeptIsIn(reachable: seq<State>, reachable': seq<State>, t: State)
    requires reachable <= reachable' && t in reachable
    ensures t in reachable'
  {
    var m :| 0 <= m < |reachable| && reachable[m] == t;
    assert reachable'[m] == t;
  }

  /** Every title start, in order. */
  function StartStates(titlePositions: nat): (r: seq<State>)
    ensures |r| == titlePositions
    ensures forall k :: 0 <= k < titlePositions ==> r[k] == (0, k)
  {
    seq(titlePositions, k requires 0 <= k => (0, k))
  }

  lemma StartsExplored(q: PhraseGraph, titlePositions: nat, title: seq<PositionArc>)
    ensures Explored(q, titlePositions, title, StartStates(titlePositions), 0)
  {
    var reachable := StartStates(titlePositions);
    forall s | s in reachable
      ensures ReachedFromAny(q, titlePositions, title, s)
    {
      ReachedAtStart(q, title, s.1);
    }
    forall k | 0 <= k < titlePositions
      ensures (0, k) in reachable
    {
      assert reachable[k] == (0, k);
    }
  }

  lemma ReferenceGoal(q: PhraseGraph, titlePositions: nat, title: seq<PositionArc>, reachable: seq<State>, next: nat)
    requires Explored(q, titlePositions, title, reachable, next) && next < |reachable|
    requires q.positions != 0 && reachable[next].0 == q.positions
    ensures Occurs(q, titlePositions, title)
  {
    var at := reachable[next];
    assert at in reachable && at == (q.positions, at.1);
  }

  /** The breadth-first search decides occurrence in the forward graphs, whatever the input. */
  method RefPhraseGraphMatches(q: PhraseGraph, titlePositions: nat, title: seq<PositionArc>) returns (found: bool)
    ensures found <==> Occurs(ForwardClause(q), titlePositions, ForwardTitle(title, titlePositions))
  {
    ghost var fq, ft := ForwardClause(q), ForwardTitle(title, titlePositions);
    if q.positions == 0 || q.arcs == [] {
      NoArcsNoOccurrence(fq, titlePositions, ft);
      return false;
    }
    var reachable := StartStates(titlePositions);
    StartsExplored(fq, titlePositions, ft);
    var next := 0;
    while next < |reachable|
      invariant 0 <= next
      invariant Explored(fq, titlePositions, ft, reachable, next)
      decreases |Universe(fq, titlePositions, ft)| - next
    {
      if reachable[next].0 == q.positions {
        ReferenceGoal(fq, titlePositions, ft, reachable, next);
        return true;
      }
      ghost var before := reachable;
      reachable := Extend(q, titlePositions, title, reachable[next], reachable);
      ExploredNext(q, titlePositions, title, before, next, reachable);
      Bounded(fq, titlePositions, ft, before, next);
      next := next + 1;
    }
    ExploredAll(fq, titlePositions, ft, reachable);
    return false;
  }

  lemma Bounded(q: PhraseGraph, titlePositions: nat, title: seq<PositionArc>, reachable: seq<State>, next: nat)
    requires Explored(q, titlePositions, title, reachable, next)
    ensures |reachable| <= |Universe(q, titlePositions, title)|
  {
    forall s | s in reachable
      ensures s in Universe(q, titlePositions, title)
    {
      ReachedInUniverse(q, titlePositions, title, s);
    }
    DistinctFits(reachable, Universe(q, titlePositions, title));
  }

  // ---- the three matchers ----

  /** On well-formed graphs the two questions are one. */
  lemma OneLanguage(q: PhraseGraph, titlePositions: nat, title: seq<PositionArc>)
    requires WellFormed(q, titlePositions, title)
    ensures Occurs(ForwardClause(q), titlePositions, ForwardTitle(title, titlePositions)) ==
              Occurs(q, titlePositions, title)
  {
    assert ForwardClause(q) == q;
  }

  /** Engine, budgeted engine and reference, run on the same graphs, never contradict each other. */
  method ThreeMatchersAgree(q: PhraseGraph, titlePositions: nat, title: seq<PositionArc>)
    returns (engine: bool, bounded: Option<bool>, reference: bool)
    requires Canonical(q) && SortedTitle(title)
    requires WellFormed(q, titlePositions, title)
    ensures engine == reference
    ensures bounded.Some? ==> bounded.value == engine
    ensures WithinBudget(q, titlePositions, title) ==> bounded == Some(engine)
  {
    engine := PhraseGraphMatches(q, titlePositions, title);
    bounded := PhraseGraphMatchesBounded(q, titlePositions, title, true);
    reference := RefPhraseGraphMatches(q, titlePositions, title);
    OneLanguage(q, titlePositions, title);
  }

  /** Without well-formedness they differ: a title edge that runs past the title is an
      occurrence to the engine and none to the reference. */
  lemma IllFormedTitleSeparates()
    ensures exists q, title ::
      && Canonical(q) && SortedTitle(title)
      && Occurs(q, 1, title) && !Occurs(ForwardClause(q), 1, ForwardTitle(title, 1))
  {
    var q := PhraseGraph(1, [PhraseArc(0, 1, [7])]);
    var title := [PositionArc(7, 0, 5)];
    ReachedAtStart(q, title, 0);
    ReachedExtends(q, title, 0, (0, 0), 0, 0);
    assert Reached(q, title, 0, (q.positions, 5));
    assert title[0] !in ForwardTitle(title, 1);
    assert ForwardTitle(title, 1) == [];
    forall start, to | 0 <= start < 1
      ensures !Reached(ForwardClause(q), [], start, (1, to))
    {
    }
    assert ForwardClause(q).positions == 1;
  }
}
