/** The engine's two searches for a quoted clause in a title: the unbounded depth-first search
    and the budgeted one that may give up.
  */
module PhraseSearch {
  import opened Orders
  import opened PhraseGraphs
  import opened Wrappers

  const PHRASE_GRAPH_MAX_STATES := 65536
  const PHRASE_GRAPH_MAX_WORK := 65536

  // ---- library searches over sorted lists ----

  /** Binary search of a sorted label list. */
  method HasFeature(s: seq<FeatureId>, x: FeatureId) returns (found: bool)
    requires Sorted(s)
    ensures found <==> x in s
  {
    var lo, hi := 0, |s|;
    while lo < hi
      invariant 0 <= lo <= hi <= |s|
      invariant forall i :: 0 <= i < lo ==> s[i] < x
      invariant forall i :: hi <= i < |s| ==> x < s[i]
    {
      var mid := (lo + hi) / 2;
      if s[mid] < x {
        lo := mid + 1;
      } else if x < s[mid] {
        hi := mid;
      } else {
        return true;
      }
    }
    return false;
  }

  predicate Before(a: State, b: State) {
    a.0 < b.0 || (a.0 == b.0 && a.1 < b.1)
  }

  ghost predicate SortedStates(s: seq<State>) {
    Ascending(s, Before)
  }

  /** Binary search of the `seen` list: the place of `x`, or where it goes. */
  method FindState(s: seq<State>, x: State) returns (found: bool, at: nat)
    requires SortedStates(s)
    ensures found <==> x in s
    ensures at <= |s|
    ensures !found ==> SortedStates(s[..at] + [x] + s[at..])
  {
    var lo, hi := 0, |s|;
    while lo < hi
      invariant 0 <= lo <= hi <= |s|
      invariant forall i :: 0 <= i < lo ==> Before(s[i], x)
      invariant forall i :: hi <= i < |s| ==> Before(x, s[i])
    {
      var mid := (lo + hi) / 2;
      if Before(s[mid], x) {
        lo := mid + 1;
      } else if Before(x, s[mid]) {
        hi := mid;
      } else {
        return true, mid;
      }
    }
    return false, lo;
  }

  /** First index at or after `from` whose arc starts at or after `node`. */
  method PartitionPoint(title: seq<PositionArc>, from: nat, node: nat) returns (at: nat)
    requires SortedTitle(title) && from <= |title|
    ensures from <= at <= |title|
    ensures forall j :: from <= j < at ==> title[j].start < node
    ensures forall j :: at <= j < |title| ==> node <= title[j].start
  {
    var lo, hi := from, |title|;
    while lo < hi
      invariant from <= lo <= hi <= |title|
      invariant forall j :: from <= j < lo ==> title[j].start < node
      invariant forall j :: hi <= j < |title| ==> node <= title[j].start
    {
      var mid := (lo + hi) / 2;
      if title[mid].start < node { lo := mid + 1; } else { hi := mid; }
    }
    at := lo;
  }

  // ---- the unbounded search ----

  /** The search's invariant: `seen` is sorted, every seen state is reachable and inside the
      finite universe, and a seen state off the stack is no goal and has all its successors seen. */
  ghost predicate Frontier(q: PhraseGraph, title: seq<PositionArc>, titlePositions: nat, start: nat,
                           seen: seq<State>, stack: seq<State>) {
    && SortedStates(seen)
    && (0, start) in seen
    && Elements(seen) <= Universe(q, titlePositions, title)
    && (forall s :: s in stack ==> s in seen)
    && (forall s :: s in seen ==> Reached(q, title, start, s))
    && (forall s :: s in seen && s !in stack ==>
          s.0 != q.positions && Expanded(q, title, s, Elements(seen)))
  }

  /** What one expansion leaves: `seen` and `stack` grew by the same new states, all of them
      targets of `node`. */
  ghost predicate Grown(q: PhraseGraph, title: seq<PositionArc>, node: State,
                        seen: seq<State>, stack: seq<State>, seen': seq<State>, stack': seq<State>) {
    && SortedStates(seen')
    && (forall s :: s in seen ==> s in seen')
    && (forall s :: s in stack ==> s in stack')
    && (forall s :: s in seen' && s !in seen ==>
        s in stack' && exists i, j :: Leaves(q, title, node, i, j) && s == Target(q, title, i, j))
    && (forall s :: s in stack' ==> s in stack || s in seen')
    && (seen' == seen ==> stack' == stack)
  }

  /** Insert one target if it is new. */
  method Visit(q: PhraseGraph, title: seq<PositionArc>, ghost node: State, i: nat, j: nat,
               ghost seen0: seq<State>, ghost stack0: seq<State>, seen: seq<State>, stack: seq<State>)
    returns (seen': seq<State>, stack': seq<State>)
    requires Leaves(q, title, node, i, j)
    requires Grown(q, title, node, seen0, stack0, seen, stack)
    ensures Grown(q, title, node, seen0, stack0, seen', stack')
    ensures Target(q, title, i, j) in seen'
    ensures forall s :: s in seen ==> s in seen'
  {
    var next := (q.arcs[i].end, title[j].end);
    var found, at := FindState(seen, next);
    if found {
      return seen, stack;
    }
    seen' := seen[..at] + [next] + seen[at..];
    stack' := stack + [next];
    assert next == Target(q, title, i, j);
    assert seen' != seen0 by {
      assert next in seen';
    }
    assert forall s :: s in seen' <==> s in seen || s == next;
  }

  /** The nested arc loops: skip to the arcs that leave `node`, take them while they do. */
  method Expand(q: PhraseGraph, title: seq<PositionArc>, node: State, seen0: seq<State>, stack0: seq<State>)
    returns (seen: seq<State>, stack: seq<State>)
    requires Canonical(q) && SortedTitle(title) && SortedStates(seen0)
    ensures Grown(q, title, node, seen0, stack0, seen, stack)
    ensures Expanded(q, title, node, Elements(seen))
  {
    seen, stack := seen0, stack0;
    var i := 0;
    while i < |q.arcs| && q.arcs[i].start < node.0
      invariant 0 <= i <= |q.arcs|
      invariant forall k :: 0 <= k < i ==> q.arcs[k].start < node.0
    {
      i := i + 1;
    }
    while i < |q.arcs| && q.arcs[i].start == node.0
      invariant 0 <= i <= |q.arcs|
      invariant Grown(q, title, node, seen0, stack0, seen, stack)
      invariant forall k, l :: 0 <= k < i && Leaves(q, title, node, k, l) ==> Target(q, title, k, l) in seen
    {
      seen, stack := ExpandArc(q, title, node, i, seen0, stack0, seen, stack);
      i := i + 1;
    }
  }

  method ExpandArc(q: PhraseGraph, title: seq<PositionArc>, node: State, i: nat,
                   ghost seen0: seq<State>, ghost stack0: seq<State>, seen1: seq<State>, stack1: seq<State>)
    returns (seen: seq<State>, stack: seq<State>)
    requires Canonical(q) && SortedTitle(title)
    requires i < |q.arcs| && q.arcs[i].start == node.0
    requires Grown(q, title, node, seen0, stack0, seen1, stack1)
    ensures Grown(q, title, node, seen0, stack0, seen, stack)
    ensures forall s :: s in seen1 ==> s in seen
    ensures forall l :: Leaves(q, title, node, i, l) ==> Target(q, title, i, l) in seen
  {
    seen, stack := seen1, stack1;
    var j := 0;
    while j < |title| && title[j].start < node.1
      invariant 0 <= j <= |title|
      invariant forall l :: 0 <= l < j ==> title[l].start < node.1
    {
      j := j + 1;
    }
    while j < |title| && title[j].start == node.1
      invariant 0 <= j <= |title|
      invariant Grown(q, title, node, seen0, stack0, seen, stack)
      invariant forall s :: s in seen1 ==> s in seen
      invariant forall l :: 0 <= l < j && Leaves(q, title, node, i, l) ==> Target(q, title, i, l) in seen
    {
      var accepted := HasFeature(q.arcs[i].alternatives, title[j].feature);
      if accepted {
        seen, stack := Visit(q, title, node, i, j, seen0, stack0, seen, stack);
      }
      j := j + 1;
    }
  }

  /** Popping `node` and expanding it keeps the frontier. */
  lemma FrontierKept(q: PhraseGraph, title: seq<PositionArc>, titlePositions: nat, start: nat, node: State,
                     seen: seq<State>, rest: seq<State>, seen': seq<State>, stack': seq<State>)
    requires Frontier(q, title, titlePositions, start, seen, rest + [node])
    requires node.0 != q.positions
    requires Grown(q, title, node, seen, rest, seen', stack')
    requires Expanded(q, title, node, Elements(seen'))
    ensures Frontier(q, title, titlePositions, start, seen', stack')
  {
    assert node in rest + [node];
    forall s | s in seen'
      ensures s in Universe(q, titlePositions, title) && Reached(q, title, start, s)
    {
      if s !in seen {
        var i, j :| Leaves(q, title, node, i, j) && s == Target(q, title, i, j);
        ReachedExtends(q, title, start, node, i, j);
      } else {
        assert s in Elements(seen);
      }
    }
    forall s | s in seen' && s !in stack'
      ensures s.0 != q.positions && Expanded(q, title, s, Elements(seen'))
    {
      if s != node {
        assert s in seen && s !in rest + [node];
        assert Elements(seen) <= Elements(seen');
      }
    }
  }

  /** Whether the clause occurs in the title, from one title start. */
  method MatchFrom(q: PhraseGraph, titlePositions: nat, title: seq<PositionArc>, start: nat) returns (found: bool)
    requires Canonical(q) && SortedTitle(title)
    requires start < titlePositions
    ensures found <==> exists to :: Reached(q, title, start, (q.positions, to))
  {
    var stack: seq<State> := [(0, start)];
    var seen: seq<State> := [(0, start)];
    ReachedAtStart(q, title, start);
    assert (0, start) in Starts(titlePositions);
    while stack != []
      invariant Frontier(q, title, titlePositions, start, seen, stack)
      decreases Universe(q, titlePositions, title) - Elements(seen), |stack|
    {
      var node := stack[|stack| - 1];
      ghost var before, beforeSeen := stack, seen;
      stack := stack[..|stack| - 1];
      assert before == stack + [node];
      assert node in before;
      if node.0 == q.positions {
        assert node == (q.positions, node.1);
        return true;
      }
      ghost var rest := stack;
      seen, stack := Expand(q, title, node, seen, stack);
      FrontierKept(q, title, titlePositions, start, node, beforeSeen, rest, seen, stack);
      Shrinks(q, titlePositions, title, beforeSeen, seen);
    }
    forall to | Reached(q, title, start, (q.positions, to))
      ensures false
    {
      ClosedHoldsReached(q, title, Elements(seen), start, (q.positions, to));
    }
    return false;
  }

  lemma Shrinks(q: PhraseGraph, titlePositions: nat, title: seq<PositionArc>, seen: seq<State>, seen': seq<State>)
    requires SortedStates(seen) && SortedStates(seen')
    requires forall s :: s in seen ==> s in seen'
    requires Elements(seen') <= Universe(q, titlePositions, title)
    ensures seen == seen' || Universe(q, titlePositions, title) - Elements(seen) > Universe(q, titlePositions,
              title) - Elements(seen')
  {
    if Elements(seen) == Elements(seen') {
      AscendingUnique(seen, seen', Before);
    } else {
      var x :| x in Elements(seen') && x !in Elements(seen);
      assert x in Universe(q, titlePositions, title) - Elements(seen);
    }
  }

  /** The unbounded search: one depth-first search per title start. */
  method PhraseGraphMatches(q: PhraseGraph, titlePositions: nat, title: seq<PositionArc>) returns (found: bool)
    requires Canonical(q) && SortedTitle(title)
    ensures found <==> Occurs(q, titlePositions, title)
  {
    if q.positions == 0 || q.arcs == [] {
      NoArcsNoOccurrence(q, titlePositions, title);
      return false;
    }
    for start := 0 to titlePositions
      invariant forall s, to :: 0 <= s < start ==> !Reached(q, title, s, (q.positions, to))
    {
      found := MatchFrom(q, titlePositions, title, start);
      if found {
        return true;
      }
    }
    return false;
  }

  lemma NoArcsNoOccurrence(q: PhraseGraph, titlePositions: nat, title: seq<PositionArc>)
    requires q.positions == 0 || q.arcs == []
    ensures !Occurs(q, titlePositions, title)
  {
    if q.positions != 0 {
      forall queryPath
        ensures !IsQueryPath(q, queryPath, 0, q.positions)
      {
      }
    }
  }

  // ---- the budgeted search ----

  ghost predicate ReachedFromAny(q: PhraseGraph, titlePositions: nat, title: seq<PositionArc>, s: State) {
    exists start :: 0 <= start < titlePositions && Reached(q, title, start, s)
  }

  /** The invariant of the search that shares one `seen` set among all title starts. */
  ghost predicate SharedFrontier(q: PhraseGraph, titlePositions: nat, title: seq<PositionArc>, universe: set<State>,
                                 seen: set<State>, stack: seq<State>) {
    && (forall k :: 0 <= k < titlePositions ==> (0, k) in seen)
    && seen <= universe
    && (forall s :: s in stack ==> s in seen)
    && (forall s :: s in seen ==> ReachedFromAny(q, titlePositions, title, s))
    && (forall s :: s in seen && s !in stack ==> s.0 != q.positions && Expanded(q, title, s, seen))
  }

  /** What a (possibly interrupted) budgeted expansion of `node` leaves. */
  ghost predicate SharedGrown(q: PhraseGraph, title: seq<PositionArc>, node: State,
                              seen: set<State>, stack: seq<State>, seen': set<State>, stack': seq<State>) {
    && seen <= seen'
    && stack <= stack'
    && (forall s :: s in seen' && s !in seen ==>
        s in stack' && exists i, j :: Leaves(q, title, node, i, j) && s == Target(q, title, i, j))
    && (forall s :: s in stack' ==> s in stack || s in seen')
    && |seen'| - |seen| == |stack'| - |stack|
  }

  // What the budgeted search does, step by step: which states it has seen and stacked, what it has spent,
  // and whether it has given up.

  datatype Run = Run(ok: bool, seen: set<State>, stack: seq<State>, work: nat)

  function Spend(run: Run): Run {
    if run.work >= PHRASE_GRAPH_MAX_WORK then run.(ok := false) else run.(work := run.work + 1)
  }

  /** Take in one target, unless there are too many states. */
  function Admit(run: Run, next: State): Run {
    if next in run.seen then run
    else if |run.seen| >= PHRASE_GRAPH_MAX_STATES then run.(ok := false)
    else run.(seen := run.seen + {next}, stack := run.stack + [next])
  }

  /** Query arc `i` against the first `n` title arcs: only those that leave the node are paid for. */
  function ArcRun(q: PhraseGraph, title: seq<PositionArc>, node: State, i: nat, n: nat, run: Run): Run
    requires i < |q.arcs| && n <= |title|
  {
    if n == 0 then run
    else
      var before := ArcRun(q, title, node, i, n - 1, run);
      if !before.ok || title[n - 1].start != node.1 then before
      else
        var paid := Spend(before);
        if paid.ok && title[n - 1].feature in q.arcs[i].alternatives then Admit(paid,
            Target(q, title, i, n - 1)) else paid
  }

  /** The first `n` query arcs: all are paid for up to the first that starts past the node. */
  function NodeRun(q: PhraseGraph, title: seq<PositionArc>, node: State, n: nat, run: Run): (r: Run)
    requires n <= |q.arcs|
    ensures r.ok && n > 0 ==> run.ok && run.work < r.work <= PHRASE_GRAPH_MAX_WORK
  {
    if n == 0 then run
    else
      var before := NodeRun(q, title, node, n - 1, run);
      if !before.ok || (n > 1 && q.arcs[n - 2].start > node.0) then before
      else
        var paid := Spend(before);
        ArcRunPays(q, title, node, n - 1, |title|, paid);
        if paid.ok && q.arcs[n - 1].start == node.0 then ArcRun(q, title, node, n - 1, |title|, paid) else paid
  }

  lemma {:induction false} ArcRunPays(q: PhraseGraph, title: seq<PositionArc>, node: State, i: nat, n: nat, run: Run)
    requires i < |q.arcs| && n <= |title|
    ensures var r := ArcRun(q, title, node, i, n, run);
            run.work <= r.work && (run.work <= PHRASE_GRAPH_MAX_WORK ==> r.work <= PHRASE_GRAPH_MAX_WORK) &&
                (r.ok ==> run.ok)
  {
    if n > 0 { ArcRunPays(q, title, node, i, n - 1, run); }
  }

  /** Pop, stop at the goal, expand, go on. */
  function SearchRun(q: PhraseGraph, title: seq<PositionArc>, run: Run): Option<bool>
    requires q.arcs != []
    decreases if run.work <= PHRASE_GRAPH_MAX_WORK then PHRASE_GRAPH_MAX_WORK + 1 - run.work else 0
  {
    if run.stack == [] then Some(false)
    else
      var node := run.stack[|run.stack| - 1];
      if node.0 == q.positions then Some(true)
      else
        var next := NodeRun(q, title, node, |q.arcs|, run.(stack := run.stack[..|run.stack| - 1]));
        if next.ok then SearchRun(q, title, next) else None
  }

  function Stacked(n: nat): seq<State> { seq(n, k => (0, k)) }

  /** The budgeted search as a whole. */
  ghost function BoundedAnswer(q: PhraseGraph, titlePositions: nat, title: seq<PositionArc>,
                               complete: bool): Option<bool> {
    if !complete then None
    else if q.positions == 0 || q.arcs == [] then Some(false)
    else if titlePositions > PHRASE_GRAPH_MAX_STATES then None
    else SearchRun(q, title, Run(true, Starts(titlePositions), Stacked(titlePositions), 0))
  }

  lemma Rows(i: nat, n: nat, width: nat)
    requires i < n
    ensures (i + 1) * width == i * width + width
    ensures (i + 1) * width <= n * width
  {
  }

  ghost function Repeated(n: nat, width: nat): nat {
    if n == 0 then 0 else Repeated(n - 1, width) + width
  }

  lemma {:induction false} RepeatedIsProduct(n: nat, width: nat)
    ensures Repeated(n, width) == n * width
  {
    if n > 0 {
      RepeatedIsProduct(n - 1, width);
      Rows(n - 1, n, width);
    }
  }

  /** How many states a search of these graphs can see at most. */
  ghost function StateBound(q: PhraseGraph, titlePositions: nat, title: seq<PositionArc>): nat {
    titlePositions + |q.arcs| * |title|
  }

  /** A finite set that holds every state the search can see. */
  ghost predicate IsUniverse(q: PhraseGraph, titlePositions: nat, title: seq<PositionArc>, universe: set<State>) {
    && (forall i, j :: 0 <= i < |q.arcs| && 0 <= j < |title| ==> Target(q, title, i, j) in universe)
    && |universe| <= StateBound(q, titlePositions, title)
  }

  lemma SharedFrontierKept(q: PhraseGraph, titlePositions: nat, title: seq<PositionArc>, universe: set<State>,
                           node: State, seen: set<State>, rest: seq<State>, seen': set<State>, stack': seq<State>)
    requires IsUniverse(q, titlePositions, title, universe)
    requires SharedFrontier(q, titlePositions, title, universe, seen, rest + [node])
    requires node.0 != q.positions
    requires SharedGrown(q, title, node, seen, rest, seen', stack')
    ensures seen' <= universe
    ensures Expanded(q, title, node, seen') ==> SharedFrontier(q, titlePositions, title, universe, seen', stack')
  {
    assert node in rest + [node];
    forall s | s in seen'
      ensures s in universe && ReachedFromAny(q, titlePositions, title, s)
    {
      if s !in seen {
        var i, j :| Leaves(q, title, node, i, j) && s == Target(q, title, i, j);
        var start :| 0 <= start < titlePositions && Reached(q, title, start, node);
        ReachedExtends(q, title, start, node, i, j);
      }
    }
    forall s | s in seen' && s !in stack' && Expanded(q, title, node, seen')
      ensures s.0 != q.positions && Expanded(q, title, s, seen')
    {
      if s != node {
        assert s in seen && s !in rest + [node];
      }
    }
  }

  /** Small enough for the budget whatever the arcs are. */
  ghost predicate WithinBudget(q: PhraseGraph, titlePositions: nat, title: seq<PositionArc>) {
    && StateBound(q, titlePositions, title) <= PHRASE_GRAPH_MAX_STATES
    && StateBound(q, titlePositions, title) * (|q.arcs| * (1 + |title|)) <= PHRASE_GRAPH_MAX_WORK
  }

  /** Put every title start on the stack. */
  method Seed(titlePositions: nat) returns (seen: set<State>, stack: seq<State>)
    ensures seen == Starts(titlePositions) && stack == Stacked(titlePositions)
  {
    stack, seen := [], {};
    for start := 0 to titlePositions
      invariant seen == Starts(start) && stack == Stacked(start)
    {
      stack, seen := stack + [(0, start)], seen + {(0, start)};
    }
  }

  /** An expansion that gave up did so because the graphs exceed the budget. */
  lemma GaveUp(q: PhraseGraph, titlePositions: nat, title: seq<PositionArc>, universe: set<State>, node: State,
               popped: nat, work: nat, before: set<State>, seen: set<State>)
    requires IsUniverse(q, titlePositions, title, universe)
    requires before <= universe && seen <= universe
    requires popped < |before|
    requires work <= Repeated(popped, |q.arcs| * (1 + |title|))
    requires
      || work + |q.arcs| * (1 + |title|) > PHRASE_GRAPH_MAX_WORK
      || TooMany(q, title, node, seen)
    ensures !WithinBudget(q, titlePositions, title)
  {
    var width, bound := |q.arcs| * (1 + |title|), StateBound(q, titlePositions, title);
    SubsetSize(before, universe);
    if work + width > PHRASE_GRAPH_MAX_WORK {
      RepeatedIsProduct(popped, width);
      Rows(popped, bound, width);
    } else {
      var i, l :| Leaves(q, title, node, i, l) && Target(q, title, i, l) !in seen && |seen| >= PHRASE_GRAPH_MAX_STATES;
      SubsetSize(seen + {Target(q, title, i, l)}, universe);
    }
  }

  lemma Exhausted(q: PhraseGraph, titlePositions: nat, title: seq<PositionArc>, universe: set<State>, seen: set<State>)
    requires SharedFrontier(q, titlePositions, title, universe, seen, [])
    ensures !Occurs(q, titlePositions, title)
  {
    forall start, to | 0 <= start < titlePositions
      ensures !Reached(q, title, start, (q.positions, to))
    {
      if Reached(q, title, start, (q.positions, to)) {
        ClosedHoldsReached(q, title, seen, start, (q.positions, to));
      }
    }
  }

  /** The frontier, and the work it took to get there. */
  ghost predicate Paid(q: PhraseGraph, titlePositions: nat, title: seq<PositionArc>, universe: set<State>, run: Run,
                       popped: nat) {
    && SharedFrontier(q, titlePositions, title, universe, run.seen, run.stack)
    && |run.seen| == popped + |run.stack|
    && run.work <= Repeated(popped, |q.arcs| * (1 + |title|))
  }

  /** What one query arc adds: new targets of the node, or a reason to give up. */
  ghost predicate ArcGrown(q: PhraseGraph, title: seq<PositionArc>, node: State, i: nat, n: nat, run: Run, r: Run) {
    && SharedGrown(q, title, node, run.seen, run.stack, r.seen, r.stack)
    && run.work <= r.work <= run.work + n
    && (r.ok ==> forall l :: 0 <= l < n && Leaves(q, title, node, i, l) ==> Target(q, title, i, l) in r.seen)
    && (!r.ok ==> run.work + |title| > PHRASE_GRAPH_MAX_WORK || TooMany(q, title, node, r.seen))
  }

  /** One more state would be one too many. */
  ghost predicate TooMany(q: PhraseGraph, title: seq<PositionArc>, node: State, seen: set<State>) {
    exists i, l :: Leaves(q, title, node, i, l) && Target(q, title, i, l) !in seen && |seen| >= PHRASE_GRAPH_MAX_STATES
  }

  lemma {:induction false} ArcRunGrows(q: PhraseGraph, title: seq<PositionArc>, node: State, i: nat, n: nat, run: Run)
    requires i < |q.arcs| && n <= |title| && q.arcs[i].start == node.0 && run.ok
    ensures ArcGrown(q, title, node, i, n, run, ArcRun(q, title, node, i, n, run))
  {
    hide ArcRun, ArcGrown, Taken;
    if n == 0 {
      NotYetGrown(q, title, node, i, run);
    } else {
      ArcRunGrows(q, title, node, i, n - 1, run);
      var before := ArcRun(q, title, node, i, n - 1, run);
      if !before.ok || title[n - 1].start != node.1 {
        ArcRunSame(q, title, node, i, n, run);
        GrownBySkipping(q, title, node, i, n, run, before);
      } else {
        ArcRunTakes(q, title, node, i, n - 1, run);
        GrownByTaking(q, title, node, i, n, run, before);
      }
    }
  }

  lemma NotYetGrown(q: PhraseGraph, title: seq<PositionArc>, node: State, i: nat, run: Run)
    requires run.ok && i < |q.arcs|
    ensures ArcGrown(q, title, node, i, 0, run, ArcRun(q, title, node, i, 0, run))
  {
    hide Leaves, Target, TooMany;
  }

  lemma GrownBySkipping(q: PhraseGraph, title: seq<PositionArc>, node: State, i: nat, n: nat, run: Run, r: Run)
    requires i < |q.arcs| && 0 < n <= |title| && ArcGrown(q, title, node, i, n - 1, run, r)
    requires !r.ok || title[n - 1].start != node.1
    ensures ArcGrown(q, title, node, i, n, run, r)
  {
    hide SharedGrown, TooMany, Target;
  }

  lemma GrownByTaking(q: PhraseGraph, title: seq<PositionArc>, node: State, i: nat, n: nat, run: Run, before: Run)
    requires i < |q.arcs| && 0 < n <= |title| && q.arcs[i].start == node.0 && title[n - 1].start == node.1
    requires before.ok && ArcGrown(q, title, node, i, n - 1, run, before)
    ensures ArcGrown(q, title, node, i, n, run, Taken(q, title, i, n - 1, before))
  {
    var paid, l := Spend(before), n - 1;
    if paid.ok && title[l].feature in q.arcs[i].alternatives {
      assert Leaves(q, title, node, i, l);
      GrownByAdmitting(q, title, node, i, l, run, paid);
    }
    hide SharedGrown, TooMany, Admit, Target;
  }

  lemma GrownByAdmitting(q: PhraseGraph, title: seq<PositionArc>, node: State, i: nat, l: nat, run: Run, paid: Run)
    requires Leaves(q, title, node, i, l) && paid.ok
    requires SharedGrown(q, title, node, run.seen, run.stack, paid.seen, paid.stack)
    ensures var r := Admit(paid, Target(q, title, i, l));
            && SharedGrown(q, title, node, run.seen, run.stack, r.seen, r.stack) && r.work == paid.work
            && paid.seen <= r.seen && (r.ok ==> Target(q, title, i, l) in r.seen)
            && (!r.ok ==> TooMany(q, title, node, r.seen))
  {
    hide Leaves, Target;
  }

  ghost predicate NodeGrown(q: PhraseGraph, title: seq<PositionArc>, node: State, n: nat, run: Run, r: Run) {
    && SharedGrown(q, title, node, run.seen, run.stack, r.seen, r.stack)
    && run.work <= r.work
    && (r.ok ==> r.work <= run.work + n * (1 + |title|))
    && (r.ok ==> forall k, l :: 0 <= k < n && Leaves(q, title, node, k, l) ==> Target(q, title, k, l) in r.seen)
    && (!r.ok ==> run.work + n * (1 + |title|) > PHRASE_GRAPH_MAX_WORK || TooMany(q, title, node, r.seen))
  }

  lemma GrownTwice(q: PhraseGraph, title: seq<PositionArc>, node: State, a: Run, b: Run, c: Run)
    requires SharedGrown(q, title, node, a.seen, a.stack, b.seen, b.stack)
    requires SharedGrown(q, title, node, b.seen, b.stack, c.seen, c.stack)
    ensures SharedGrown(q, title, node, a.seen, a.stack, c.seen, c.stack)
  {
    hide Leaves, Target;
  }

  lemma {:induction false} NodeRunGrows(q: PhraseGraph, title: seq<PositionArc>, node: State, n: nat, run: Run)
    requires Canonical(q) && n <= |q.arcs| && run.ok
    ensures NodeGrown(q, title, node, n, run, NodeRun(q, title, node, n, run))
  {
    if n > 0 {
      NodeRunGrows(q, title, node, n - 1, run);
      Rows(n - 1, n, 1 + |title|);
      var before := NodeRun(q, title, node, n - 1, run);
      var arc := q.arcs[n - 1];
      if before.ok && !(n > 1 && q.arcs[n - 2].start > node.0) && before.work < PHRASE_GRAPH_MAX_WORK &&
          arc.start == node.0 {
        var paid := Spend(before);
        var r := ArcRun(q, title, node, n - 1, |title|, paid);
        ArcRunGrows(q, title, node, n - 1, |title|, paid);
        GrownTwice(q, title, node, run, paid, r);
        hide ArcRun, NodeRun;
      }
    }
  }

  /** Popping a state that is not the goal keeps the frontier, or shows that the graphs exceed the budget. */
  lemma PopKeeps(q: PhraseGraph, titlePositions: nat, title: seq<PositionArc>, universe: set<State>, run: Run,
                 popped: nat)
    requires Canonical(q) && IsUniverse(q, titlePositions, title, universe) && run.ok && run.stack != []
    requires Paid(q, titlePositions, title, universe, run, popped) && run.stack[|run.stack| - 1].0 != q.positions
    ensures var next := NodeRun(q, title, run.stack[|run.stack| - 1], |q.arcs|,
                                run.(stack := run.stack[..|run.stack| - 1]));
            && (next.ok ==> Paid(q, titlePositions, title, universe, next, popped + 1))
            && (!next.ok ==> !WithinBudget(q, titlePositions, title))
  {
    var node, rest := run.stack[|run.stack| - 1], run.stack[..|run.stack| - 1];
    assert run.stack == rest + [node];
    var next := NodeRun(q, title, node, |q.arcs|, run.(stack := rest));
    NodeRunGrows(q, title, node, |q.arcs|, run.(stack := rest));
    hide NodeRun;
    SharedFrontierKept(q, titlePositions, title, universe, node, run.seen, rest, next.seen, next.stack);
    if next.ok {
      assert Expanded(q, title, node, next.seen);
    } else {
      GaveUp(q, titlePositions, title, universe, node, popped, run.work, run.seen, next.seen);
    }
  }

  lemma {:induction false} SearchRunTells(q: PhraseGraph, titlePositions: nat, title: seq<PositionArc>,
                                          universe: set<State>, run: Run, popped: nat)
    requires Canonical(q) && q.positions != 0 && q.arcs != [] && run.ok
    requires IsUniverse(q, titlePositions, title, universe)
    requires Paid(q, titlePositions, title, universe, run, popped)
    ensures var answer := SearchRun(q, title, run);
            && (answer.Some? ==> (answer.value <==> Occurs(q, titlePositions, title)))
            && (WithinBudget(q, titlePositions, title) ==> answer.Some?)
    decreases if run.work <= PHRASE_GRAPH_MAX_WORK then PHRASE_GRAPH_MAX_WORK + 1 - run.work else 0
  {
    if run.stack == [] {
      Exhausted(q, titlePositions, title, universe, run.seen);
    } else if run.stack[|run.stack| - 1].0 == q.positions {
      GoalReached(q, titlePositions, title, universe, run.seen, run.stack);
    } else {
      PopKeeps(q, titlePositions, title, universe, run, popped);
      var next := NodeRun(q, title, run.stack[|run.stack| - 1], |q.arcs|, run.(stack := run.stack[..|run.stack| - 1]));
      hide Paid, IsUniverse, WithinBudget, Occurs, NodeRun;
      if next.ok { SearchRunTells(q, titlePositions, title, universe, next, popped + 1); }
    }
  }

  lemma GoalReached(q: PhraseGraph, titlePositions: nat, title: seq<PositionArc>, universe: set<State>,
                    seen: set<State>, stack: seq<State>)
    requires q.positions != 0
    requires SharedFrontier(q, titlePositions, title, universe, seen, stack)
    requires stack != [] && stack[|stack| - 1].0 == q.positions
    ensures Occurs(q, titlePositions, title)
  {
    var node := stack[|stack| - 1];
    assert node in stack && node == (q.positions, node.1);
  }

  /** The budgeted search never lies although every start shares one set of seen states, and it answers
      whenever the title is complete and the graphs are small enough for the budget. */
  lemma BoundedNeverLies(q: PhraseGraph, titlePositions: nat, title: seq<PositionArc>, complete: bool)
    requires Canonical(q)
    ensures var answer := BoundedAnswer(q, titlePositions, title, complete);
            && (answer.Some? ==> (answer.value <==> Occurs(q, titlePositions, title)))
            && (complete && WithinBudget(q, titlePositions, title) ==> answer.Some?)
  {
    if q.positions == 0 || q.arcs == [] {
      NoArcsNoOccurrence(q, titlePositions, title);
    } else if complete && titlePositions <= PHRASE_GRAPH_MAX_STATES {
      var universe := Universe(q, titlePositions, title);
      UniverseSize(q, titlePositions, title);
      var run := Run(true, Starts(titlePositions), Stacked(titlePositions), 0);
      StartsPaid(q, titlePositions, title, universe, run);
      hide Paid, IsUniverse, WithinBudget, Occurs, SearchRun, Universe;
      SearchRunTells(q, titlePositions, title, universe, run, 0);
    }
  }

  lemma StackedHolds(n: nat, s: State)
    ensures s in Stacked(n) <==> s.0 == 0 && s.1 < n
  {
    if s.0 == 0 && s.1 < n { assert Stacked(n)[s.1] == s; }
  }

  lemma StartsReached(q: PhraseGraph, titlePositions: nat, title: seq<PositionArc>, s: State)
    requires s in Starts(titlePositions)
    ensures ReachedFromAny(q, titlePositions, title, s)
  {
    ReachedAtStart(q, title, s.1);
    hide Reached;
  }

  lemma StartsFrontier(q: PhraseGraph, titlePositions: nat, title: seq<PositionArc>, universe: set<State>,
                       seen: set<State>, stack: seq<State>)
    requires seen == Starts(titlePositions) && stack == Stacked(titlePositions) && seen <= universe
    ensures SharedFrontier(q, titlePositions, title, universe, seen, stack)
  {
    hide Starts, Stacked, ReachedFromAny, Expanded;
    forall s ensures s in stack <==> s in seen { StackedHolds(titlePositions, s); }
    forall s | s in seen ensures ReachedFromAny(q, titlePositions, title, s) {
      StartsReached(q, titlePositions, title, s);
    }
  }

  lemma StartsPaid(q: PhraseGraph, titlePositions: nat, title: seq<PositionArc>, universe: set<State>, run: Run)
    requires run == Run(true, Starts(titlePositions), Stacked(titlePositions), 0)
    requires universe == Universe(q, titlePositions, title)
    ensures Paid(q, titlePositions, title, universe, run, 0)
  {
    assert |run.stack| == titlePositions;
    hide Universe, Starts, Stacked, SharedFrontier, Repeated;
    StartsFrontier(q, titlePositions, title, universe, run.seen, run.stack);
  }

  // The loops of the budgeted search.

  /** Add one to the work counter unless the budget is used up. */
  method SpendWork(run: Run) returns (r: Run)
    ensures r == Spend(run)
  {
    if run.work >= PHRASE_GRAPH_MAX_WORK {
      return run.(ok := false);
    }
    return run.(work := run.work + 1);
  }

  /** A title arc that does not leave the node, or one behind the point of giving up, changes nothing. */
  lemma ArcRunSame(q: PhraseGraph, title: seq<PositionArc>, node: State, i: nat, n: nat, run: Run)
    requires i < |q.arcs| && 0 < n <= |title|
    requires !ArcRun(q, title, node, i, n - 1, run).ok || title[n - 1].start != node.1
    ensures ArcRun(q, title, node, i, n, run) == ArcRun(q, title, node, i, n - 1, run)
  {
    hide Spend, Admit, Target;
  }

  lemma {:induction false} ArcRunSkips(q: PhraseGraph, title: seq<PositionArc>, node: State, i: nat, n: nat, m: nat,
                                       run: Run)
    requires i < |q.arcs| && n <= m <= |title|
    requires !ArcRun(q, title, node, i, n, run).ok || forall l :: n <= l < m ==> title[l].start != node.1
    ensures ArcRun(q, title, node, i, m, run) == ArcRun(q, title, node, i, n, run)
    decreases m
  {
    hide ArcRun;
    if n < m {
      ArcRunSkips(q, title, node, i, n, m - 1, run);
      ArcRunSame(q, title, node, i, m, run);
    }
  }

  /** What a title arc that leaves the node adds to a search that has not given up. */
  function Taken(q: PhraseGraph, title: seq<PositionArc>, i: nat, j: nat, run: Run): Run
    requires i < |q.arcs| && j < |title|
  {
    var paid := Spend(run);
    if paid.ok && title[j].feature in q.arcs[i].alternatives then Admit(paid, Target(q, title, i, j)) else paid
  }

  lemma ArcRunTakes(q: PhraseGraph, title: seq<PositionArc>, node: State, i: nat, j: nat, run: Run)
    requires i < |q.arcs| && j < |title| && title[j].start == node.1 && ArcRun(q, title, node, i, j, run).ok
    ensures ArcRun(q, title, node, i, j + 1, run) == Taken(q, title, i, j, ArcRun(q, title, node, i, j, run))
  {
    hide Spend, Admit, Target;
  }

  method TakeArc(q: PhraseGraph, title: seq<PositionArc>, i: nat, j: nat, run: Run) returns (r: Run)
    requires Canonical(q) && i < |q.arcs| && j < |title|
    ensures r == Taken(q, title, i, j, run)
  {
    r := SpendWork(run);
    if r.ok {
      var accepted := HasFeature(q.arcs[i].alternatives, title[j].feature);
      if accepted {
        r := Admit(r, (q.arcs[i].end, title[j].end));
      }
    }
  }

  lemma ArcWindow(q: PhraseGraph, title: seq<PositionArc>, node: State, i: nat, first: nat, last: nat, run: Run)
    requires i < |q.arcs| && first <= last <= |title|
    requires forall l :: 0 <= l < |title| ==> (title[l].start == node.1 <==> first <= l < last)
    ensures ArcRun(q, title, node, i, first, run) == run
    ensures ArcRun(q, title, node, i, |title|, run) == ArcRun(q, title, node, i, last, run)
  {
    assert ArcRun(q, title, node, i, 0, run) == run;
    hide ArcRun;
    ArcRunSkips(q, title, node, i, 0, first, run);
    ArcRunSkips(q, title, node, i, last, |title|, run);
  }

  /** One query arc against the title arcs that leave the node. */
  method ExpandArcBounded(q: PhraseGraph, title: seq<PositionArc>, node: State, i: nat, first: nat, last: nat, run: Run)
    returns (r: Run)
    requires Canonical(q) && i < |q.arcs| && first <= last <= |title| && run.ok
    requires forall l :: 0 <= l < |title| ==> (title[l].start == node.1 <==> first <= l < last)
    ensures r == ArcRun(q, title, node, i, |title|, run)
  {
    r := run;
    hide ArcRun, Canonical, Taken;
    ArcWindow(q, title, node, i, first, last, run);
    for j := first to last
      invariant r.ok && r == ArcRun(q, title, node, i, j, run)
    {
      ArcRunTakes(q, title, node, i, j, run);
      r := TakeArc(q, title, i, j, r);
      if !r.ok {
        ArcRunSkips(q, title, node, i, j + 1, |title|, run);
        return;
      }
    }
  }

  lemma {:induction false} NodeRunStops(q: PhraseGraph, title: seq<PositionArc>, node: State, n: nat, m: nat, run: Run)
    requires Canonical(q) && n <= m <= |q.arcs|
    requires !NodeRun(q, title, node, n, run).ok || (n > 0 && q.arcs[n - 1].start > node.0)
    ensures NodeRun(q, title, node, m, run) == NodeRun(q, title, node, n, run)
    decreases m
  {
    if n < m {
      NodeRunStops(q, title, node, n, m - 1, run);
      hide ArcRun;
    }
  }

  /** All query arcs in order, with the early exit at the first arc past the node. */
  method ExpandBounded(q: PhraseGraph, title: seq<PositionArc>, node: State, run: Run) returns (r: Run)
    requires Canonical(q) && SortedTitle(title) && run.ok
    ensures r == NodeRun(q, title, node, |q.arcs|, run)
  {
    r := run;
    var first := PartitionPoint(title, 0, node.1);
    var last := PartitionPoint(title, first, node.1 + 1);
    hide ArcRun;
    for i := 0 to |q.arcs|
      invariant r.ok && r == NodeRun(q, title, node, i, run)
      invariant i > 0 ==> q.arcs[i - 1].start <= node.0
    {
      r := SpendWork(r);
      if r.ok && q.arcs[i].start > node.0 {
        NodeRunStops(q, title, node, i + 1, |q.arcs|, run);
        return;
      }
      if r.ok && q.arcs[i].start == node.0 {
        r := ExpandArcBounded(q, title, node, i, first, last, r);
      }
      if !r.ok {
        NodeRunStops(q, title, node, i + 1, |q.arcs|, run);
        return;
      }
    }
  }

  /** The budgeted search never lies, and answers whenever the title is complete and the graphs are small
      enough for the budget. What it answers beyond that depends on the graphs alone. */
  method PhraseGraphMatchesBounded(q: PhraseGraph, titlePositions: nat, title: seq<PositionArc>, complete: bool)
    returns (answer: Option<bool>)
    requires Canonical(q) && SortedTitle(title)
    ensures answer == BoundedAnswer(q, titlePositions, title, complete)
    ensures answer.Some? ==> (answer.value <==> Occurs(q, titlePositions, title))
    ensures complete && WithinBudget(q, titlePositions, title) ==> answer.Some?
    ensures !complete ==> answer.None?
  {
    BoundedNeverLies(q, titlePositions, title, complete);
    hide WithinBudget, Occurs, NodeRun;
    if !complete {
      return None;
    }
    if q.positions == 0 || q.arcs == [] {
      return Some(false);
    }
    if titlePositions > PHRASE_GRAPH_MAX_STATES {
      return None;
    }
    var seen, stack := Seed(titlePositions);
    var run := Run(true, seen, stack, 0);
    ghost var start := run;
    while run.stack != []
      invariant run.ok && SearchRun(q, title, run) == SearchRun(q, title, start)
      decreases if run.work <= PHRASE_GRAPH_MAX_WORK then PHRASE_GRAPH_MAX_WORK + 1 - run.work else 0
    {
      var node := run.stack[|run.stack| - 1];
      if node.0 == q.positions {
        return Some(true);
      }
      run := ExpandBounded(q, title, node, run.(stack := run.stack[..|run.stack| - 1]));
      if !run.ok {
        return None;
      }
    }
    return Some(false);
  }
}
