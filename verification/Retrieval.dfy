/** End to end: what reading a segment returns, compared with checking every stored row. */
module Retrieval {
  import opened Bloom
  import opened ExtractedQuery
  import opened Lists
  import opened Orders
  import opened Plans
  import opened Queries
  import opened Segments
  import PhraseSearch
  import PhraseSteps
  import PG = PhraseGraphs

  /** The query is filed under the labels of a required phrase and nothing else. */
  ghost predicate PhraseFiled(q: Query, plan: AnchorPlan, planned: set<FeatureId>) {
    && !plan.class_.IsOptIn()
    && !FlatCover(q, plan.main) && !PairCover(q, plan.main, planned) && !(plan.main == [] && FlatCover(q, plan.hot))
  }

  /** No anchor of the main lane shares its key with another group that the title looks up there. */
  ghost predicate KeysApart(plan: AnchorPlan, sigKey: SigKey, v: TitleView, hot: set<FeatureId>) {
    forall g, looked :: g in plan.main && MainLooksUp(v, hot, looked) && sigKey(g) == sigKey(looked) ==> g == looked
  }

  lemma LaneProbed(v: TitleView, sigKey: SigKey, pos: seq<FeatureId>, probe: seq<FeatureId>, hot: set<FeatureId>,
                   anchors: seq<seq<FeatureId>>)
    requires SameFeatures(probe, v.probe) && SameFeatures(pos, v.pos)
    ensures (exists g :: g in anchors && MainLooksUp(v, hot, g)) ==>
              AnySig(anchors, sigKey, MainKeys(sigKey, probe, pos, hot))
    ensures (exists g :: g in anchors && HotLooksUp(v, g)) ==> AnySig(anchors, sigKey, SingleKeys(sigKey, pos))
    ensures (exists g :: g in anchors && BroadLooksUp(v, g)) ==> AnySig(anchors, sigKey, BroadKeys(sigKey, pos))
  {
    hide MainLooksUp, HotLooksUp, BroadLooksUp, MainKeys, SingleKeys, BroadKeys;
    if g :| g in anchors && MainLooksUp(v, hot, g) { LookedUpIsProbed(sigKey, v, probe, pos, hot, g); }
    if g :| g in anchors && HotLooksUp(v, g) { LookedUpIsProbed(sigKey, v, probe, pos, hot, g); }
    if g :| g in anchors && BroadLooksUp(v, g) { LookedUpIsProbed(sigKey, v, probe, pos, hot, g); }
  }

  lemma AnchoredProbed(plan: AnchorPlan, v: TitleView, sigKey: SigKey, pos: seq<FeatureId>, probe: seq<FeatureId>,
                       hot: set<FeatureId>)
    requires SameFeatures(probe, v.probe) && SameFeatures(pos, v.pos) && Anchored(plan, v, hot)
    ensures Candidate(plan, sigKey, pos, probe, hot, true)
  {
    hide SameFeatures, MainLooksUp, HotLooksUp, BroadLooksUp, MainKeys, SingleKeys, BroadKeys, AnySig;
    LaneProbed(v, sigKey, pos, probe, hot, plan.main);
    LaneProbed(v, sigKey, pos, probe, hot, plan.hot);
    LaneProbed(v, sigKey, pos, probe, hot, plan.broad);
  }

  lemma NothingProbed(sigKey: SigKey, keys: seq<Key>)
    ensures !AnySig([], sigKey, keys)
  {
  }

  /** Away from phrase-filed plans a satisfied query is always looked up. */
  lemma FlatPlanFound(q: Query, plan: AnchorPlan, v: TitleView, planned: set<FeatureId>, hot: set<FeatureId>)
    requires Shaped(q, plan, planned) && planned <= hot && WideProbe(v) && PositiveFlat(q, v.pos)
    requires !PhraseFiled(q, plan, planned)
    ensures Anchored(plan, v, hot)
  {
    hide FlatCover, PairCover, PhraseCover, AllOccur, PositiveFlat, HotLooksUp, MainLooksUp;
    if plan.class_.IsOptIn() {
      if FlatCover(q, plan.broad) {
        FlatCoverFound(q, plan.broad, v);
        var g :| g in plan.broad && HotLooksUp(v, g);
        assert BroadLooksUp(v, g);
      } else {
        assert [] in plan.broad && BroadLooksUp(v, []);
      }
    } else if FlatCover(q, plan.main) {
      FlatCoverFound(q, plan.main, v);
      var g :| g in plan.main && HotLooksUp(v, g);
      MainWider(v, hot, g);
    } else if PairCover(q, plan.main, planned) {
      PairCoverFound(q, plan.main, v, planned, hot);
    } else {
      FlatCoverFound(q, plan.hot, v);
    }
  }

  /** Every probed key of the main lane is the key of a group that is looked up there. */
  lemma ProbedIsLookedUp(sigKey: SigKey, v: TitleView, probe: seq<FeatureId>, pos: seq<FeatureId>, hot: set<FeatureId>,
                         key: Key)
    requires SameFeatures(probe, v.probe) && SameFeatures(pos, v.pos) && key in MainKeys(sigKey, probe, pos, hot)
    ensures exists g :: MainLooksUp(v, hot, g) && sigKey(g) == key
  {
    hide SingleKeys, PairKeys, Pair;
    SingleKeysMember(sigKey, probe, key);
    PairKeysMember(sigKey, pos, pos, hot, key);
    if f :| f in probe && sigKey([f]) == key {
      assert MainLooksUp(v, hot, [f]);
    } else {
      var h, o :| h in pos && h in hot && o in pos && o != h && sigKey(Pair(h, o)) == key;
      assert MainLooksUp(v, hot, Pair(h, o));
    }
  }

  lemma PairIsTwo(h: FeatureId, o: FeatureId)
    ensures |Pair(h, o)| == 2
  {
  }

  /** A title that shows a label has the query looked up; without colliding keys, only such a title has. */
  lemma LabelDecides(q: Query, plan: AnchorPlan, v: TitleView, hot: set<FeatureId>, sigKey: SigKey, pos: seq<FeatureId>,
                     probe: seq<FeatureId>)
    requires PhraseCover(q, plan.main) && SameFeatures(probe, v.probe) && SameFeatures(pos, v.pos)
    ensures Shows(plan.main, v) ==> AnySig(plan.main, sigKey, MainKeys(sigKey, probe, pos, hot))
    ensures KeysApart(plan, sigKey, v, hot) && AnySig(plan.main, sigKey, MainKeys(sigKey, probe, pos, hot)) ==>
              Shows(plan.main, v)
  {
    hide PhraseCover, SameFeatures, MainKeys, Pair;
    if f :| f in v.probe && [f] in plan.main {
      assert MainLooksUp(v, hot, [f]);
      LookedUpIsProbed(sigKey, v, probe, pos, hot, [f]);
    }
    if KeysApart(plan, sigKey, v, hot) && AnySig(plan.main, sigKey, MainKeys(sigKey, probe, pos, hot)) {
      var g :| g in plan.main && sigKey(g) in MainKeys(sigKey, probe, pos, hot);
      ProbedIsLookedUp(sigKey, v, probe, pos, hot, sigKey(g));
      assert MainLooksUp(v, hot, g);
      PhraseAnchorIsSingle(q, plan.main, g);
      forall h, o ensures g != Pair(h, o) { PairIsTwo(h, o); }
    }
  }

  /** When a satisfied query is a candidate: its lane is read, and a query filed under a phrase alone has one
      of the phrase's labels among the probed features. Colliding keys aside, only then. */
  lemma CandidateExact(q: Query, plan: AnchorPlan, v: TitleView, planned: set<FeatureId>, hot: set<FeatureId>,
                       sigKey: SigKey, pos: seq<FeatureId>, probe: seq<FeatureId>, includeBroad: bool)
    requires Shaped(q, plan, planned) && planned <= hot && WideProbe(v) && PositiveFlat(q, v.pos)
    requires SameFeatures(probe, v.probe) && SameFeatures(pos, v.pos)
    ensures Candidate(plan, sigKey, pos, probe, hot, includeBroad) ==> includeBroad || !plan.class_.IsOptIn()
    ensures (includeBroad || !plan.class_.IsOptIn()) && (PhraseFiled(q, plan, planned) ==> Shows(plan.main, v))
        ==> Candidate(plan, sigKey, pos, probe, hot, includeBroad)
    ensures KeysApart(plan, sigKey, v, hot) && Candidate(plan, sigKey, pos, probe, hot, includeBroad)
        ==> (PhraseFiled(q, plan, planned) ==> Shows(plan.main, v))
  {
    if !PhraseFiled(q, plan, planned) {
      FlatPlanFound(q, plan, v, planned, hot);
      AnchoredProbed(plan, v, sigKey, pos, probe, hot);
    } else {
      hide FlatCover, PairCover;
      LabelDecides(q, plan, v, hot, sigKey, pos, probe);
    }
    hide FlatCover, PairCover, PhraseCover, MainKeys, SingleKeys, BroadKeys, AnySig, SameFeatures, WideProbe,
        PositiveFlat, KeysApart, Shows;
    NothingProbed(sigKey, MainKeys(sigKey, probe, pos, hot));
    NothingProbed(sigKey, SingleKeys(sigKey, pos));
    NothingProbed(sigKey, BroadKeys(sigKey, pos));
  }

  // ---- the whole read ----

  /** Checking every stored row: live, kept, accepted, and on a lane the read asks for. */
  ghost predicate BruteForce(r: Rows, alive: seq<bool>, v: TitleView, keep: nat -> bool, includeBroad: bool, x: nat) {
    Emits(r, alive, v, keep, x) && x < |r.classes| && (includeBroad || !r.classes[x].IsOptIn())
  }

  /** Filed under a phrase of which the title shows no label. */
  ghost predicate Unshown(r: Rows, planned: set<FeatureId>, v: TitleView, x: nat) {
    && x < |r.bodies| && x < |r.plans|
    && PhraseFiled(r.bodies[x], r.plans[x], planned) && !Shows(r.plans[x].main, v)
  }

  ghost predicate RowKeysApart(r: Rows, sigKey: SigKey, v: TitleView, hot: set<FeatureId>, x: nat) {
    x < |r.plans| && KeysApart(r.plans[x], sigKey, v, hot)
  }

  /** What a read returns of the row: nothing but brute force, all of it that is shown, and nothing more when
      keys do not collide. */
  ghost predicate ReadOfRow(r: Rows, planned: set<FeatureId>, alive: seq<bool>, v: TitleView, keep: nat -> bool,
                            sigKey: SigKey, hot: set<FeatureId>, includeBroad: bool, x: nat, returned: bool) {
    && (returned ==> BruteForce(r, alive, v, keep, includeBroad, x))
    && (BruteForce(r, alive, v, keep, includeBroad, x) && !Unshown(r, planned, v, x) ==> returned)
    && (RowKeysApart(r, sigKey, v, hot, x) && Unshown(r, planned, v, x) ==> !returned)
  }

  lemma RowExact(r: Rows, planned: set<FeatureId>, alive: seq<bool>, keep: nat -> bool, v: TitleView, sigKey: SigKey,
                 pos: seq<FeatureId>, probe: seq<FeatureId>, hot: set<FeatureId>, includeBroad: bool, x: nat)
    requires RowsValid(r, planned) && planned <= hot && WideProbe(v)
    requires SameFeatures(probe, v.probe) && SameFeatures(pos, v.pos) && Emits(r, alive, v, keep, x)
    ensures x < |r.plans|
    ensures ReadOfRow(r, planned, alive, v, keep, sigKey, hot, includeBroad, x,
                      Candidate(r.plans[x], sigKey, pos, probe, hot, includeBroad))
  {
    assert RowValid(r, planned, x);
    assert PositiveFlat(r.bodies[x], v.pos);
    hide Shaped, Candidate, PhraseFiled, SameFeatures, WideProbe, Accepts, PositiveFlat, KeysApart, Shows,
        SearchablePhrases;
    CandidateExact(r.bodies[x], r.plans[x], v, planned, hot, sigKey, pos, probe, includeBroad);
  }

  /** Filter, index, probe and exact check together: brute force, save rows the check let through although
      their phrase shows no label. No row whose query the title satisfies is missed. */
  method MatchTitle(segment: Segment, v: TitleView, pos: seq<FeatureId>, probe: seq<FeatureId>, hot: set<FeatureId>,
                    includeBroad: bool, keep: nat -> bool)
    returns (out: seq<nat>)
    requires segment.Valid() && segment.planned <= hot && WideProbe(v) && SortedView(v)
    requires SameFeatures(probe, v.probe) && SameFeatures(pos, v.pos)
    ensures Distinct(out)
    ensures forall x: nat ::
              ReadOfRow(segment.Stored(), segment.planned, segment.alive, v, keep, segment.sigKey, hot, includeBroad, x,
                        x in out)
    ensures forall x: nat ::
              BruteForce(segment.Stored(), segment.alive, v, keep, includeBroad, x) && Holds(segment.bodies[x], v) ==>
                  x in out
  {
    out := segment.MatchCollect(pos, probe, hot, includeBroad, v, keep);
    ghost var r, planned := segment.Stored(), segment.planned;
    assert RowsValid(r, planned);
    hide RowsValid, Emits, Candidate, Unshown, WideProbe, SameFeatures, Distinct, LanesValid, GroupsValid, BodiesValid,
        FilterValid, Holds,
      RowKeysApart, CountersValid;
    forall x: nat
      ensures ReadOfRow(r, planned, segment.alive, v, keep, segment.sigKey, hot, includeBroad, x, x in out)
    {
      if Emits(r, segment.alive, v, keep, x) {
        RowExact(r, planned, segment.alive, keep, v, segment.sigKey, pos, probe, hot, includeBroad, x);
      }
    }
    forall x: nat | BruteForce(r, segment.alive, v, keep, includeBroad, x) && Holds(segment.bodies[x], v)
      ensures x in out
    {
      assert ReadOfRow(r, planned, segment.alive, v, keep, segment.sigKey, hot, includeBroad, x, x in out);
      TrueMatchShown(r, planned, v, x);
    }
  }

  /** A title that satisfies the query shows a label of every required phrase. */
  lemma TrueMatchShown(r: Rows, planned: set<FeatureId>, v: TitleView, x: nat)
    requires RowsValid(r, planned) && WideProbe(v) && x < |r.bodies| && Holds(r.bodies[x], v)
    ensures !Unshown(r, planned, v, x)
  {
    assert RowValid(r, planned, x);
    var q, plan := r.bodies[x], r.plans[x];
    hide FlatCover, PairCover, WideProbe, MatchesFlat, AllOccur, NoneOccurs, SearchablePhrases, PhraseCover, Shows;
    if PhraseFiled(q, plan, planned) { PhraseCoverFound(q, plan.main, v); }
  }

  /** So an accepted row that a title does not show is no match: some search for its phrases gave up. */
  lemma UnshownIsUndecided(r: Rows, planned: set<FeatureId>, v: TitleView, x: nat)
    requires RowsValid(r, planned) && WideProbe(v) && Unshown(r, planned, v, x) && Accepts(r.bodies[x], v)
    ensures !Holds(r.bodies[x], v) && !Decided(r.bodies[x], v)
  {
    assert RowValid(r, planned, x);
    hide Shaped, WideProbe, Unshown, Holds, Accepts, Decided, SearchablePhrases, RowsValid;
    if Holds(r.bodies[x], v) { TrueMatchShown(r, planned, v, x); }
    if Decided(r.bodies[x], v) { DecidedExact(r.bodies[x], v); }
  }

  /** Pinning a class-C plan adds the query to default reads and changes nothing with the broad lane. */
  lemma PinnedIsVisible(q: Query, plan: AnchorPlan, v: TitleView, planned: set<FeatureId>, hot: set<FeatureId>,
                        sigKey: SigKey, pos: seq<FeatureId>, probe: seq<FeatureId>)
    requires Shaped(q, plan, planned) && plan.class_ == C && FlatCover(q, plan.broad) && planned <= hot
    requires WideProbe(v) && PositiveFlat(q, v.pos) && SameFeatures(probe, v.probe) && SameFeatures(pos, v.pos)
    ensures !Candidate(plan, sigKey, pos, probe, hot, false) && Candidate(plan, sigKey, pos, probe, hot, true)
    ensures Candidate(Pinned(plan), sigKey, pos, probe, hot, false)
    ensures Candidate(Pinned(plan), sigKey, pos, probe, hot, true)
  {
    PinnedShaped(q, plan, planned);
    assert [] + plan.broad == plan.broad;
    hide Shaped, FlatCover, PairCover, WideProbe, PositiveFlat, SameFeatures, Candidate, Shows, KeysApart;
    CandidateExact(q, plan, v, planned, hot, sigKey, pos, probe, false);
    CandidateExact(q, plan, v, planned, hot, sigKey, pos, probe, true);
    CandidateExact(q, Pinned(plan), v, planned, hot, sigKey, pos, probe, false);
    CandidateExact(q, Pinned(plan), v, planned, hot, sigKey, pos, probe, true);
  }

  // ---- a row the check lets through and no read returns ----

  /** A title of `n` tokens that all carry the label `g`. */
  function Repeating(g: FeatureId, n: nat): TitleView {
    var arcs := seq(n, (i: nat) => PG.PositionArc(g, i, i + 1));
    TitleView({g}, {g}, {g}, n, arcs, true, n, arcs)
  }

  function OneLabelQuery(f: FeatureId): Query {
    Query([], [], [], 0, 0, [], [], [PG.PhraseGraph(1, [PG.PhraseArc(0, 1, [f])])], [])
  }

  /** Any title with more positions than the search has states for passes the check of a quoted word it does not
      contain, and without colliding keys no read returns the query. */
  lemma OverBudgetUnshown(f: FeatureId, g: FeatureId, n: nat, stats: Stats, theta: nat, sigKey: SigKey,
                          hot: set<FeatureId>)
    requires f != g && n > PhraseSearch.PHRASE_GRAPH_MAX_STATES
    ensures var q, v := OneLabelQuery(f), Repeating(g, n);
            && WideProbe(v) && SortedView(v) && SearchablePhrases(q) && v.complete
            && Accepts(q, v) && !Holds(q, v)
            && (KeysApart(PlanFor(q, stats, theta), sigKey, v, hot) ==>
                  !Candidate(PlanFor(q, stats, theta), sigKey, [g], [g], hot, true))
  {
    var q, v, plan := OneLabelQuery(f), Repeating(g, n), PlanFor(OneLabelQuery(f), stats, theta);
    OneLabelPasses(f, g, n);
    PhraseOnlyPlan(q, stats, theta, f);
    assert SameFeatures([g], v.probe) && SameFeatures([g], v.pos);
    hide PlanFor, Accepts, Holds, SortedView, SearchablePhrases, SameFeatures, MainKeys, SingleKeys, BroadKeys,
        KeysApart, PhraseCover;
    LabelDecides(q, plan, v, hot, sigKey, [g], [g]);
    NothingProbed(sigKey, SingleKeys(sigKey, [g]));
    NothingProbed(sigKey, BroadKeys(sigKey, [g]));
    assert !Shows(plan.main, v);
  }

  lemma OneLabelPasses(f: FeatureId, g: FeatureId, n: nat)
    requires f != g && n > PhraseSearch.PHRASE_GRAPH_MAX_STATES
    ensures var q, v := OneLabelQuery(f), Repeating(g, n);
            WideProbe(v) && SortedView(v) && SearchablePhrases(q) && Accepts(q, v) && !Holds(q, v)
  {
    var q, v := OneLabelQuery(f), Repeating(g, n);
    var p := q.requiredPhrases[0];
    assert p in q.requiredPhrases;
    if PG.Occurs(p, v.posPositions, v.posArcs) {
      var a, b := PhraseSteps.OccurrenceShowsLabel(p, v.posPositions, v.posArcs);
      assert false;
    }
    hide PG.Occurs;
    assert Required(v, p).None?;
  }

  lemma PhraseOnlyPlan(q: Query, stats: Stats, theta: nat, f: FeatureId)
    requires q.required == [] && q.anyof == [] && q.requiredPhrases == [PG.PhraseGraph(1, [PG.PhraseArc(0, 1, [f])])]
    ensures var plan := PlanFor(q, stats, theta);
            plan.main == [[f]] && plan.hot == [] && plan.broad == [] && PhraseCover(q, plan.main)
  {
    var p := PG.PhraseGraph(1, [PG.PhraseArc(0, 1, [f])]);
    OneLabel(p, f);
    assert Alone(f) == [f];
    hide PhraseProxy;
    assert p in q.requiredPhrases;
    FilterMember(NonEmpty, Map(PhraseProxy, q.requiredPhrases), [f]);
    MapMember(PhraseProxy, q.requiredPhrases, [f]);
    assert [f] in PhraseProxies(q);
    ProxyPlanShaped(q, stats);
    assert Map(Alone, [f]) == [[f]];
    hide PhraseProxies;
  }

  lemma OneLabel(p: PhraseGraph, f: FeatureId)
    requires p.arcs == [PG.PhraseArc(0, 1, [f])]
    ensures PhraseProxy(p) == [f]
  {
    SortSetOne(f);
    hide SortSet;
    assert p.arcs[..0] == [];
    assert Alternatives(p.arcs) == [] + [f];
    assert [] + [f] == [f];
  }

  // ---- the explanation's own answer ----

  method Signatures(sigKey: SigKey, features: seq<FeatureId>) returns (sigs: set<Key>)
    ensures forall k :: k in sigs <==> k in SingleKeys(sigKey, features)
  {
    sigs := {};
    for i := 0 to |features|
      invariant forall k :: k in sigs <==> k in SingleKeys(sigKey, features[..i])
    {
      forall k ensures k in SingleKeys(sigKey, features[..i + 1]) <==>
          k in SingleKeys(sigKey, features[..i]) || k == sigKey([features[i]]) {
        SingleKeysMember(sigKey, features[..i + 1], k);
        SingleKeysMember(sigKey, features[..i], k);
        assert features[..i + 1] == features[..i] + [features[i]];
      }
      hide SingleKeys;
      sigs := sigs + {sigKey([features[i]])};
    }
    assert features[..|features|] == features;
  }

  method PairSignatures(sigKey: SigKey, h: FeatureId, pos: seq<FeatureId>) returns (sigs: set<Key>)
    ensures forall k :: k in sigs <==> k in PairsWith(sigKey, h, pos)
  {
    sigs := {};
    for i := 0 to |pos|
      invariant forall k :: k in sigs <==> exists o :: o in pos[..i] && o != h && sigKey(Pair(h, o)) == k
    {
      assert pos[..i + 1] == pos[..i] + [pos[i]];
      hide Pair;
      if pos[i] != h {
        sigs := sigs + {sigKey(Pair(h, pos[i]))};
      }
    }
    assert pos[..|pos|] == pos;
    forall k ensures k in sigs <==> k in PairsWith(sigKey, h, pos) {
      PairsWithMember(sigKey, h, pos, k);
    }
  }

  /** The explanation mirrors the matcher: it calls a query a candidate exactly when a read with the
      broad lane would look it up. */
  method IsCandidate(plan: AnchorPlan, sigKey: SigKey, pos: seq<FeatureId>, probe: seq<FeatureId>, hot: set<FeatureId>)
    returns (candidate: bool)
    ensures candidate <==> Candidate(plan, sigKey, pos, probe, hot, true)
  {
    hide SingleKeys, PairsWith, PairKeys;
    var mainSigs := Signatures(sigKey, probe);
    ghost var single := mainSigs;
    PairKeysNone(sigKey, pos, hot);
    for i := 0 to |pos|
      invariant forall k :: k in mainSigs <==>
                  k in SingleKeys(sigKey, probe) || k in PairKeys(sigKey, pos[..i], pos, hot)
    {
      PairKeysNext(sigKey, pos, i, hot);
      if pos[i] in hot {
        var pairs := PairSignatures(sigKey, pos[i], pos);
        mainSigs := mainSigs + pairs;
      }
    }
    assert pos[..|pos|] == pos;
    var flat := Signatures(sigKey, pos);
    candidate :=
      || (exists g :: g in plan.main && sigKey(g) in mainSigs)
      || (exists g :: g in plan.hot && sigKey(g) in flat)
      || (exists g :: g in plan.broad && (sigKey(g) == sigKey([]) || sigKey(g) in flat));
  }

  lemma PairKeysNone(sigKey: SigKey, pos: seq<FeatureId>, hot: set<FeatureId>)
    ensures PairKeys(sigKey, pos[..0], pos, hot) == []
  {
  }

  lemma PairKeysNext(sigKey: SigKey, pos: seq<FeatureId>, i: nat, hot: set<FeatureId>)
    requires i < |pos|
    ensures PairKeys(sigKey, pos[..i + 1], pos, hot)
         == PairKeys(sigKey, pos[..i], pos, hot) + (if pos[i] in hot then PairsWith(sigKey, pos[i], pos) else [])
  {
    assert pos[..i + 1][..i] == pos[..i];
  }
}
