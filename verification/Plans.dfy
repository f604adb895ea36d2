/** Choosing where a query is filed: the signature-cover planner, and why a title that the query
    accepts always probes one of the query's anchors.
  */
module Plans {
  import opened ExtractedQuery
  import opened Lists
  import opened Orders
  import opened Queries
  import opened Wrappers
  import PhraseSteps
  import PG = PhraseGraphs

  datatype CostClass = A | B | C | D | H
  {
    /** Returned only to a read that asks for the broad lane. */
    predicate IsOptIn() { C? || D? }
  }

  /** What the planner knows of the corpus: how many queries use a feature, and the features with a
      common-mask bit. */
  datatype Stats = Stats(freq: FeatureId -> nat, hot: set<FeatureId>)

  /** The anchor groups of a query, per lane. */
  datatype AnchorPlan = AnchorPlan(
    main: seq<seq<FeatureId>>,
    broad: seq<seq<FeatureId>>,
    hot: seq<seq<FeatureId>>,
    class_: CostClass,
    wouldBeHot: bool)

  const DEFAULT_HOT_ANCHOR_THETA: nat := 1024
  const MAX_FREQ: nat := 0xFFFF_FFFF

  // ---- choosing ----

  /** The first element with the least key. */
  function Least<T>(s: seq<T>, key: T -> nat): (x: T)
    requires s != []
    ensures x in s && forall y :: y in s ==> key(x) <= key(y)
  {
    var last := s[|s| - 1];
    if |s| == 1 then last
    else
      var best := Least(s[..|s| - 1], key);
      assert s == s[..|s| - 1] + [last];
      if key(last) < key(best) then last else best
  }

  function MaxFreq(group: seq<FeatureId>, freq: FeatureId -> nat): nat {
    if group == [] then 0
    else
      var rest := MaxFreq(group[..|group| - 1], freq);
      if freq(group[|group| - 1]) > rest then freq(group[|group| - 1]) else rest
  }

  function WorstFreq(group: seq<FeatureId>, freq: FeatureId -> nat): nat {
    if group == [] then MAX_FREQ else MaxFreq(group, freq)
  }

  /** The list without the first occurrence of `x`. */
  function Without(s: seq<FeatureId>, x: FeatureId): seq<FeatureId> {
    if s == [] then [] else if s[0] == x then s[1..] else [s[0]] + Without(s[1..], x)
  }

  function Alone(f: FeatureId): seq<FeatureId> { [f] }

  function Alternatives(arcs: seq<PhraseArc>): seq<FeatureId> {
    if arcs == [] then [] else Alternatives(arcs[..|arcs| - 1]) + arcs[|arcs| - 1].alternatives
  }

  /** Every label of a phrase: a title with the phrase carries one of them. */
  function PhraseProxy(p: PhraseGraph): seq<FeatureId> {
    SortSet(Alternatives(p.arcs))
  }

  // ---- the planner ----

  function MainPlan(anchors: seq<seq<FeatureId>>, class_: CostClass, wouldBeHot: bool): AnchorPlan {
    AnchorPlan(anchors, [], [], class_, wouldBeHot)
  }

  function BroadPlan(anchors: seq<seq<FeatureId>>, class_: CostClass): AnchorPlan {
    AnchorPlan([], anchors, [], class_, false)
  }

  function HotPlan(anchors: seq<seq<FeatureId>>): AnchorPlan {
    AnchorPlan([], [], anchors, H, false)
  }

  function PhraseProxies(q: Query): seq<seq<FeatureId>> {
    Filter(NonEmpty, Map(PhraseProxy, q.requiredPhrases))
  }

  function PhraseProxyPlan(q: Query, stats: Stats): Option<AnchorPlan> {
    var proxies := PhraseProxies(q);
    if proxies == [] then None
    else Some(MainPlan(Map(Alone, Least(proxies, g => WorstFreq(g, stats.freq))), B, false))
  }

  predicate AnyHot(stats: Stats, group: seq<FeatureId>) {
    exists f :: f in group && f in stats.hot
  }

  function ColdGroups(q: Query, stats: Stats): seq<seq<FeatureId>> {
    Filter(g => !AnyHot(stats, g), q.anyof)
  }

  function AnyOfCover(q: Query, stats: Stats, theta: nat): Option<AnchorPlan> {
    var groups := ColdGroups(q, stats);
    if groups == [] then None
    else
      var best := Least(groups, g => WorstFreq(g, stats.freq));
      var worst := MaxFreq(best, stats.freq);
      if theta != 0 && worst >= theta then Some(HotPlan(Map(Alone, best)))
      else Some(MainPlan(Map(Alone, best), B, theta == 0 && worst >= DEFAULT_HOT_ANCHOR_THETA))
  }

  const UNIVERSAL: AnchorPlan := BroadPlan([[]], D)

  function PlanWithoutRequired(q: Query, stats: Stats, theta: nat): AnchorPlan {
    if q.requiredPhrases != [] then
      match PhraseProxyPlan(q, stats)
      case Some(plan) => plan
      case None => UNIVERSAL
    else
      match AnyOfCover(q, stats, theta)
      case Some(plan) => plan
      case None =>
        if q.anyof == [] then UNIVERSAL
        else BroadPlan(Map(Alone, Least(q.anyof, g => WorstFreq(g, stats.freq))), C)
  }

  function Pair(a: FeatureId, b: FeatureId): seq<FeatureId> {
    if a < b then [a, b] else [b, a]
  }

  function PlanWithRequired(q: Query, stats: Stats, theta: nat): AnchorPlan
    requires q.required != []
  {
    var r1 := Least(q.required, stats.freq);
    if r1 in stats.hot then
      var rest := Without(q.required, r1);
      if rest != [] then MainPlan([Pair(r1, Least(rest, stats.freq))], B, false)
      else
        match PhraseProxyPlan(q, stats)
        case Some(plan) => plan
        case None =>
          match AnyOfCover(q, stats, theta)
          case Some(plan) => plan
          case None => BroadPlan([[r1]], C)
    else if theta != 0 && stats.freq(r1) >= theta then HotPlan([[r1]])
    else MainPlan([[r1]], A, theta == 0 && stats.freq(r1) >= DEFAULT_HOT_ANCHOR_THETA)
  }

  function PlanFor(q: Query, stats: Stats, theta: nat): AnchorPlan {
    if q.required == [] && q.anyof == [] && q.requiredPhrases == [] then UNIVERSAL
    else if q.required == [] then PlanWithoutRequired(q, stats, theta)
    else PlanWithRequired(q, stats, theta)
  }

  /** Keep a query that default reads already return on an always-probed lane. */
  function Pinned(plan: AnchorPlan): AnchorPlan {
    if plan.class_ == C then plan.(main := plan.main + plan.broad, broad := [], class_ := B) else plan
  }

  // ---- the shapes a plan can take ----

  /** The anchors are read off a positive flat predicate of the query. */
  ghost predicate FlatCover(q: Query, anchors: seq<seq<FeatureId>>) {
    || (exists f :: f in q.required && anchors == [[f]])
    || (exists g :: g in q.anyof && anchors == Map(Alone, g))
  }

  ghost predicate PairCover(q: Query, anchors: seq<seq<FeatureId>>, hot: set<FeatureId>) {
    exists a, b :: a in q.required && b in q.required && a in hot && a != b && anchors == [Pair(a, b)]
  }

  /** The anchors are the labels of a required phrase. */
  ghost predicate PhraseCover(q: Query, anchors: seq<seq<FeatureId>>) {
    exists p :: p in q.requiredPhrases && anchors == Map(Alone, PhraseProxy(p))
  }

  /** One lane holds the query, and that lane's anchors have one of the shapes. */
  ghost predicate Shaped(q: Query, plan: AnchorPlan, hot: set<FeatureId>) {
    if plan.class_.IsOptIn() then
      plan.main == [] && plan.hot == [] && (FlatCover(q, plan.broad) || plan.broad == [[]])
    else
      && plan.broad == []
      && ((plan.hot == [] && (FlatCover(q, plan.main) || PairCover(q, plan.main, hot) || PhraseCover(q, plan.main)))
          || (plan.main == [] && FlatCover(q, plan.hot)))
  }

  lemma {:induction false} WithoutMember(s: seq<FeatureId>, x: FeatureId, y: FeatureId)
    requires y in Without(s, x)
    ensures y in s && (Ascending(s, NatLess) ==> y != x)
  {
    if s[0] == x {
      assert s == [s[0]] + s[1..];
      var k :| 0 <= k < |s[1..]| && s[1..][k] == y;
      assert s[k + 1] == y;
    } else if y != s[0] {
      WithoutMember(s[1..], x, y);
    }
  }

  lemma ProxyPlanShaped(q: Query, stats: Stats)
    requires PhraseProxyPlan(q, stats).Some?
    ensures var plan := PhraseProxyPlan(q, stats).value;
            plan.class_ == B && plan.broad == [] && plan.hot == [] && PhraseCover(q, plan.main)
  {
    var proxies := PhraseProxies(q);
    var best := Least(proxies, g => WorstFreq(g, stats.freq));
    hide PhraseProxy;
    FilterMember(NonEmpty, Map(PhraseProxy, q.requiredPhrases), best);
    MapMember(PhraseProxy, q.requiredPhrases, best);
  }

  lemma AnyOfCoverShaped(q: Query, stats: Stats, theta: nat)
    requires AnyOfCover(q, stats, theta).Some?
    ensures var plan := AnyOfCover(q, stats, theta).value;
            && plan.broad == []
            && (|| (plan.class_ == B && plan.hot == [] && FlatCover(q, plan.main))
                || (plan.class_ == H && plan.main == [] && FlatCover(q, plan.hot)))
  {
    var groups := ColdGroups(q, stats);
    var best := Least(groups, g => WorstFreq(g, stats.freq));
    FilterMember(g => !AnyHot(stats, g), q.anyof, best);
    hide Map, Filter, AnyHot;
  }

  lemma CoversShaped(q: Query, stats: Stats, theta: nat)
    ensures PhraseProxyPlan(q, stats).Some? ==> Shaped(q, PhraseProxyPlan(q, stats).value, stats.hot)
    ensures AnyOfCover(q, stats, theta).Some? ==> Shaped(q, AnyOfCover(q, stats, theta).value, stats.hot)
  {
    if PhraseProxyPlan(q, stats).Some? { ProxyPlanShaped(q, stats); }
    if AnyOfCover(q, stats, theta).Some? { AnyOfCoverShaped(q, stats, theta); }
    hide PhraseProxyPlan, AnyOfCover, PhraseCover, FlatCover, PairCover;
  }

  lemma SingleShaped(q: Query, f: FeatureId, hot: set<FeatureId>, wouldBeHot: bool)
    requires f in q.required
    ensures Shaped(q, MainPlan([[f]], A, wouldBeHot), hot) && Shaped(q, HotPlan([[f]]), hot)
    ensures Shaped(q, BroadPlan([[f]], C), hot)
  {
    assert FlatCover(q, [[f]]);
  }

  lemma PairShaped(q: Query, a: FeatureId, b: FeatureId, hot: set<FeatureId>)
    requires a in q.required && b in q.required && a in hot && a != b
    ensures Shaped(q, MainPlan([Pair(a, b)], B, false), hot)
  {
    hide Pair;
    assert PairCover(q, [Pair(a, b)], hot);
  }

  lemma RequiredShaped(q: Query, stats: Stats, theta: nat)
    requires Ascending(q.required, NatLess) && q.required != []
    ensures Shaped(q, PlanWithRequired(q, stats, theta), stats.hot)
  {
    hide PhraseProxyPlan, AnyOfCover, Shaped, Pair, Without;
    CoversShaped(q, stats, theta);
    var r1 := Least(q.required, stats.freq);
    var rest := Without(q.required, r1);
    SingleShaped(q, r1, stats.hot, theta == 0 && stats.freq(r1) >= DEFAULT_HOT_ANCHOR_THETA);
    if r1 in stats.hot && rest != [] {
      var r2 := Least(rest, stats.freq);
      WithoutMember(q.required, r1, r2);
      PairShaped(q, r1, r2, stats.hot);
    }
  }

  /** The planner only ever produces the documented shapes. */
  lemma PlanShaped(q: Query, stats: Stats, theta: nat)
    requires Ascending(q.required, NatLess)
    ensures Shaped(q, PlanFor(q, stats, theta), stats.hot)
  {
    CoversShaped(q, stats, theta);
    hide PhraseProxyPlan, AnyOfCover, PhraseCover, PairCover, Map, PlanWithRequired;
    if q.required != [] {
      RequiredShaped(q, stats, theta);
    }
  }

  /** Pinning moves an opt-in cover to the main lane, where it is still a cover. */
  lemma PinnedShaped(q: Query, plan: AnchorPlan, hot: set<FeatureId>)
    requires Shaped(q, plan, hot) && (plan.class_ == C ==> FlatCover(q, plan.broad))
    ensures Shaped(q, Pinned(plan), hot)
    ensures plan.class_ == C ==> !Pinned(plan).class_.IsOptIn()
  {
    hide FlatCover, PairCover, PhraseCover;
    assert [] + plan.broad == plan.broad;
  }

  lemma CoversVisible(q: Query, stats: Stats, theta: nat)
    ensures PhraseProxyPlan(q, stats).Some? ==> PhraseProxyPlan(q, stats).value.class_ != C
    ensures AnyOfCover(q, stats, theta).Some? ==> AnyOfCover(q, stats, theta).value.class_ != C
  {
    if PhraseProxyPlan(q, stats).Some? { ProxyPlanShaped(q, stats); }
    if AnyOfCover(q, stats, theta).Some? { AnyOfCoverShaped(q, stats, theta); }
    hide PhraseProxyPlan, AnyOfCover, PhraseCover, FlatCover;
  }

  lemma GroupIsFlat(q: Query, g: seq<FeatureId>)
    requires g in q.anyof
    ensures FlatCover(q, Map(Alone, g))
  {
  }

  lemma RequiredIsFlat(q: Query, f: FeatureId)
    requires f in q.required
    ensures FlatCover(q, [[f]])
  {
  }

  /** A class-C plan is anchored on a required feature or on a group of the query. */
  lemma ClassCIsFlat(q: Query, stats: Stats, theta: nat)
    requires PlanFor(q, stats, theta).class_ == C
    ensures FlatCover(q, PlanFor(q, stats, theta).broad)
  {
    hide PhraseProxyPlan, AnyOfCover, FlatCover, Map, Without, Pair;
    CoversVisible(q, stats, theta);
    if q.required != [] {
      RequiredIsFlat(q, Least(q.required, stats.freq));
    } else {
      GroupIsFlat(q, Least(q.anyof, g => WorstFreq(g, stats.freq)));
    }
  }

  // ---- what a title probes ----

  /** The title's features include what its graph shows, and what it probes includes both. */
  ghost predicate WideProbe(v: TitleView) {
    v.pos <= v.probe && forall b :: b in v.posArcs ==> b.feature in v.probe
  }

  /** The anchor groups a title looks up: single features everywhere, pairs with a hot member in the
      main lane, and the empty group in the broad lane. */
  ghost predicate MainLooksUp(v: TitleView, hot: set<FeatureId>, group: seq<FeatureId>) {
    || (exists f :: f in v.probe && group == [f])
    || (exists h, o :: h in v.pos && h in hot && o in v.pos && o != h && group == Pair(h, o))
  }

  ghost predicate HotLooksUp(v: TitleView, group: seq<FeatureId>) {
    exists f :: f in v.pos && group == [f]
  }

  ghost predicate BroadLooksUp(v: TitleView, group: seq<FeatureId>) {
    HotLooksUp(v, group) || group == []
  }

  ghost predicate Anchored(plan: AnchorPlan, v: TitleView, hot: set<FeatureId>) {
    || (exists g :: g in plan.main && MainLooksUp(v, hot, g))
    || (exists g :: g in plan.hot && HotLooksUp(v, g))
    || (exists g :: g in plan.broad && BroadLooksUp(v, g))
  }

  lemma FlatCoverFound(q: Query, anchors: seq<seq<FeatureId>>, v: TitleView)
    requires FlatCover(q, anchors) && PositiveFlat(q, v.pos)
    ensures exists g :: g in anchors && HotLooksUp(v, g)
  {
    if f :| f in q.required && anchors == [[f]] {
      assert [f] in anchors && HotLooksUp(v, [f]);
    } else {
      var g :| g in q.anyof && anchors == Map(Alone, g);
      assert AnyIn(g, v.pos);
      var f :| f in g && f in v.pos;
      MapMember(Alone, g, [f]);
      assert Alone(f) == [f];
      assert [f] in anchors && HotLooksUp(v, [f]);
    }
  }

  lemma PairCoverFound(q: Query, anchors: seq<seq<FeatureId>>, v: TitleView, planned: set<FeatureId>,
                       hot: set<FeatureId>)
    requires PairCover(q, anchors, planned) && planned <= hot && PositiveFlat(q, v.pos)
    ensures exists g :: g in anchors && MainLooksUp(v, hot, g)
  {
    var a, b :| a in q.required && b in q.required && a in planned && a != b && anchors == [Pair(a, b)];
    hide Pair;
    assert Pair(a, b) in anchors && MainLooksUp(v, hot, Pair(a, b));
  }

  lemma {:induction false} AlternativesMember(arcs: seq<PhraseArc>, a: PhraseArc, f: FeatureId)
    requires a in arcs && f in a.alternatives
    ensures f in Alternatives(arcs)
  {
    var last := arcs[|arcs| - 1];
    if a != last {
      assert arcs == arcs[..|arcs| - 1] + [last];
      AlternativesMember(arcs[..|arcs| - 1], a, f);
    }
  }

  /** Some single-feature anchor of the main lane is among the probed features. */
  ghost predicate Shows(anchors: seq<seq<FeatureId>>, v: TitleView) {
    exists f :: f in v.probe && [f] in anchors
  }

  /** A phrase that occurs shows one of its labels. */
  lemma PhraseCoverFound(q: Query, anchors: seq<seq<FeatureId>>, v: TitleView)
    requires PhraseCover(q, anchors) && AllOccur(q.requiredPhrases, v.posPositions, v.posArcs) && WideProbe(v)
    ensures Shows(anchors, v)
  {
    var p :| p in q.requiredPhrases && anchors == Map(Alone, PhraseProxy(p));
    hide SortSet, PG.Occurs;
    var a, b := PhraseSteps.OccurrenceShowsLabel(p, v.posPositions, v.posArcs);
    AlternativesMember(p.arcs, a, b.feature);
    SortSetMember(Alternatives(p.arcs), b.feature);
    MapMember(Alone, PhraseProxy(p), [b.feature]);
    assert Alone(b.feature) == [b.feature];
    assert [b.feature] in anchors;
  }

  lemma PhraseAnchorIsSingle(q: Query, anchors: seq<seq<FeatureId>>, g: seq<FeatureId>)
    requires PhraseCover(q, anchors) && g in anchors
    ensures |g| == 1
  {
    var p :| p in q.requiredPhrases && anchors == Map(Alone, PhraseProxy(p));
    hide PhraseProxy;
    MapMember(Alone, PhraseProxy(p), g);
  }

  lemma MainWider(v: TitleView, hot: set<FeatureId>, group: seq<FeatureId>)
    requires HotLooksUp(v, group) && v.pos <= v.probe
    ensures MainLooksUp(v, hot, group)
  {
  }

  /** Why required features must be listed once: a repeated hot feature is filed as a pair with itself, and
      no title looks such a pair up. */
  lemma RepeatedRequirementMisses(x: FeatureId, freq: FeatureId -> nat, theta: nat, v: TitleView)
    ensures var q := Query([x, x], [], [], 0, 0, [], [], [], []);
            && PlanFor(q, Stats(freq, {x}), theta).main == [[x, x]]
            && !MainLooksUp(v, {x}, [x, x])
  {
    var q := Query([x, x], [], [], 0, 0, [], [], [], []);
    assert Without(q.required, x) == [x];
    assert forall y :: y in q.required ==> y == x;
    assert forall y :: y in [x] ==> y == x;
  }
}
