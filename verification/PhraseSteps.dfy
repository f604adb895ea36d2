/** A quoted clause occurs by steps of the product graph alone: graphs that take the same steps
    occur in the same titles, whatever the order and number of their arcs.
  */
module PhraseSteps {
  import opened PhraseGraphs
  import opened PhraseReference

  ghost predicate StepsWithin(q: PhraseGraph, title: seq<PositionArc>, q': PhraseGraph, title': seq<PositionArc>) {
    forall s, t :: StepsTo(q, title, s, t) ==> StepsTo(q', title', s, t)
  }

  lemma {:induction false} PathSimulated(q: PhraseGraph, title: seq<PositionArc>, q': PhraseGraph,
                                         title': seq<PositionArc>, start: nat, queryPath: seq<nat>, titlePath: seq<nat>,
                                         s: State)
    requires StepsWithin(q, title, q', title')
    requires IsQueryPath(q, queryPath, 0, s.0) && IsTitlePath(title, titlePath, start, s.1)
    requires InStep(q, title, queryPath, titlePath)
    ensures Reached(q', title', start, s)
    decreases |queryPath|
  {
    if queryPath == [] {
      ReachedAtStart(q', title', start);
    } else {
      var n := |queryPath| - 1;
      var i, j := queryPath[n], titlePath[n];
      var before := (q.arcs[i].start, title[j].start);
      PathSimulated(q, title, q', title', start, queryPath[..n], titlePath[..n], before);
      assert Leaves(q, title, before, i, j) && s == Target(q, title, i, j);
      StepSimulated(q, title, q', title', start, before, i, j);
    }
  }

  lemma StepSimulated(q: PhraseGraph, title: seq<PositionArc>, q': PhraseGraph, title': seq<PositionArc>,
                      start: nat, s: State, i: nat, j: nat)
    requires StepsWithin(q, title, q', title') && Leaves(q, title, s, i, j)
    requires Reached(q', title', start, s)
    ensures Reached(q', title', start, Target(q, title, i, j))
  {
    hide Reached, StepsTo;
    var t := Target(q, title, i, j);
    StepsToIsLeaves(q, title, s, t);
    StepsToIsLeaves(q', title', s, t);
    var i': nat, j': nat :| Leaves(q', title', s, i', j') && t == Target(q', title', i', j');
    ReachedExtends(q', title', start, s, i', j');
  }

  /** More steps, no fewer occurrences. */
  lemma OccursWithin(q: PhraseGraph, title: seq<PositionArc>, q': PhraseGraph, title': seq<PositionArc>,
                     titlePositions: nat)
    requires StepsWithin(q, title, q', title') && q'.positions == q.positions
    requires Occurs(q, titlePositions, title)
    ensures Occurs(q', titlePositions, title')
  {
    var start: nat, to: nat :| 0 <= start < titlePositions && Reached(q, title, start, (q.positions, to));
    var s := (q.positions, to);
    var queryPath, titlePath :|
      && IsQueryPath(q, queryPath, 0, s.0)
      && IsTitlePath(title, titlePath, start, s.1)
      && InStep(q, title, queryPath, titlePath);
    PathSimulated(q, title, q', title', start, queryPath, titlePath, s);
  }

  lemma SameSteps(q: PhraseGraph, title: seq<PositionArc>, q': PhraseGraph, title': seq<PositionArc>,
                  titlePositions: nat)
    requires StepsWithin(q, title, q', title') && StepsWithin(q', title', q, title) && q'.positions == q.positions
    ensures Occurs(q, titlePositions, title) <==> Occurs(q', titlePositions, title')
  {
    if Occurs(q, titlePositions, title) { OccursWithin(q, title, q', title', titlePositions); }
    if Occurs(q', titlePositions, title') { OccursWithin(q', title', q, title, titlePositions); }
  }

  /** A clause that occurs has an arc with a label the title's graph carries. */
  lemma OccurrenceShowsLabel(q: PhraseGraph, titlePositions: nat, title: seq<PositionArc>)
    returns (a: PhraseArc, b: PositionArc)
    requires Occurs(q, titlePositions, title)
    ensures a in q.arcs && b in title && b.feature in a.alternatives
  {
    var start: nat, to: nat :| 0 <= start < titlePositions && Reached(q, title, start, (q.positions, to));
    var queryPath, titlePath :|
      && IsQueryPath(q, queryPath, 0, q.positions)
      && IsTitlePath(title, titlePath, start, to)
      && InStep(q, title, queryPath, titlePath);
    a, b := q.arcs[queryPath[0]], title[titlePath[0]];
  }
}
