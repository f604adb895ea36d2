/** A segment: stored queries, the three candidate indexes they are filed in, groups of equal
    bodies, tombstones and the anchor filter. Reading it returns exactly the matching live rows.
  */
module Segments {
  import opened Bloom
  import opened CandidateIndexing
  import opened ExtractedQuery
  import opened Lists
  import opened Orders
  import opened Plans
  import opened Queries
  import opened Wrappers

  datatype Lane = Main | Broad | Hot

  function AnchorsOf(plan: AnchorPlan, lane: Lane): seq<seq<FeatureId>> {
    match lane
    case Main => plan.main
    case Broad => plan.broad
    case Hot => plan.hot
  }

  type SigKey = seq<FeatureId> -> Key

  /** A query's semantic body: what is stored and compared, without the ranking counts. */
  function Body(q: Query): Query {
    q.(semanticGroups := 0, semanticTerms := 0)
  }

  predicate HasNegative(q: Query) {
    q.forbidden != [] || q.forbiddenConjunctions != [] || q.forbiddenPhrases != []
  }

  predicate RejectsClassD(class_: CostClass, q: Query, acceptClassD: bool) {
    class_ == D && (!acceptClassD || !HasNegative(q))
  }

  // ---- the invariant ----

  /** The stored rows: bodies, classes, group leaders and the plan each leader is filed under. */
  datatype Rows = Rows(bodies: seq<Query>, classes: seq<CostClass>, dupOf: seq<nat>, plans: seq<AnchorPlan>)

  ghost predicate Leader(r: Rows, l: nat) {
    l < |r.dupOf| && r.dupOf[l] == l
  }

  ghost predicate RowValid(r: Rows, planned: set<FeatureId>, x: nat)
    requires |r.bodies| == |r.classes| == |r.dupOf| == |r.plans| && x < |r.bodies|
  {
    && Leader(r, r.dupOf[x])
    && r.bodies[r.dupOf[x]] == r.bodies[x] && r.classes[r.dupOf[x]] == r.classes[x] && r.plans[r.dupOf[x]] == r.plans[x]
    && r.classes[x] == r.plans[x].class_ && Shaped(r.bodies[x], r.plans[x], planned) && SearchablePhrases(r.bodies[x])
  }

  ghost predicate RowsValid(r: Rows, planned: set<FeatureId>) {
    && |r.bodies| == |r.classes| == |r.dupOf| == |r.plans|
    && forall x :: 0 <= x < |r.bodies| ==> RowValid(r, planned, x)
  }

  /** Row `l` leads its group and has an anchor with this signature in the lane. */
  ghost predicate FiledUnder(r: Rows, sigKey: SigKey, lane: Lane, sig: Key, l: nat) {
    Leader(r, l) && l < |r.plans| && exists g :: g in AnchorsOf(r.plans[l], lane) && sigKey(g) == sig
  }

  ghost predicate Filed(r: Rows, sigKey: SigKey, lane: Lane, ids: History<Key>) {
    forall sig, l :: l in Under(ids, sig) <==> FiledUnder(r, sigKey, lane, sig, l)
  }

  /** Each lane holds exactly the leaders, under exactly the signatures of their anchors. */
  ghost predicate LanesValid(r: Rows, sigKey: SigKey, main: map<Key, Posting>, broad: map<Key, Posting>,
                             hot: map<Key, Posting>, mainIds: History<Key>, broadIds: History<Key>,
                             hotIds: History<Key>) {
    && Represents(main, mainIds) && Represents(broad, broadIds) && Represents(hot, hotIds)
    && Filed(r, sigKey, Main, mainIds) && Filed(r, sigKey, Broad, broadIds) && Filed(r, sigKey, Hot, hotIds)
  }

  function MembersOf(members: map<nat, seq<nat>>, l: nat): seq<nat> {
    if l in members then members[l] else []
  }

  /** The group of a leader without the leader, each member once. */
  ghost predicate IsGroup(r: Rows, group: seq<nat>, l: nat) {
    Distinct(group) && forall x: nat :: x in group <==> InGroup(r, l, x) && x != l
  }

  ghost predicate GroupsValid(r: Rows, members: map<nat, seq<nat>>) {
    forall l: nat :: IsGroup(r, MembersOf(members, l), l)
  }

  /** The rows of one group. */
  ghost predicate InGroup(r: Rows, l: nat, x: nat) {
    x < |r.dupOf| && r.dupOf[x] == l
  }

  /** Leaders by body hash; a hash is only a hint. */
  ghost predicate BodiesValid(r: Rows, bodyIndex: map<nat, seq<nat>>) {
    forall h, l :: h in bodyIndex && l in bodyIndex[h] ==> Leader(r, l)
  }

  /** A filter that knows every signature of every lane. */
  ghost predicate FilterValid(filter: Option<SegmentFilter>, main: History<Key>, broad: History<Key>,
                              hot: History<Key>) {
    filter.Some? ==> exists keys :: Built(filter.value, keys) && forall sig ::
        sig in main || sig in broad || sig in hot ==> sig in keys
  }

  // ---- the counters ----

  predicate HasPhrases(q: Query) {
    q.requiredPhrases != [] || q.forbiddenPhrases != []
  }

  function LiveRows(alive: seq<bool>): nat {
    if alive == [] then 0 else LiveRows(alive[..|alive| - 1]) + (if alive[|alive| - 1] then 1 else 0)
  }

  function LivePhraseRows(bodies: seq<Query>, alive: seq<bool>): nat
    requires |bodies| == |alive|
  {
    LiveRows(seq(|alive|, x requires 0 <= x < |alive| => alive[x] && HasPhrases(bodies[x])))
  }

  /** How many rows are live, and how many of them carry a phrase. */
  ghost predicate CountersValid(bodies: seq<Query>, alive: seq<bool>, liveRows: nat, livePhraseRows: nat) {
    |alive| == |bodies| && liveRows == LiveRows(alive) && livePhraseRows == LivePhraseRows(bodies, alive)
  }

  lemma {:induction false} LiveRowsCleared(alive: seq<bool>, x: nat)
    requires x < |alive|
    ensures LiveRows(alive[x := false]) == LiveRows(alive) - (if alive[x] then 1 else 0)
  {
    var last := |alive| - 1;
    if x < last {
      LiveRowsCleared(alive[..last], x);
      assert alive[x := false][..last] == alive[..last][x := false];
    } else {
      assert alive[x := false][..last] == alive[..last];
    }
  }

  lemma {:induction false} SomeLive(alive: seq<bool>)
    ensures LiveRows(alive) != 0 <==> exists x :: 0 <= x < |alive| && alive[x]
  {
    if alive != [] {
      SomeLive(alive[..|alive| - 1]);
      assert forall x :: 0 <= x < |alive| - 1 ==> alive[..|alive| - 1][x] == alive[x];
    }
  }

  lemma SomePhraseRow(bodies: seq<Query>, alive: seq<bool>)
    requires |bodies| == |alive|
    ensures LivePhraseRows(bodies, alive) != 0 <==> exists x :: 0 <= x < |bodies| && alive[x] && HasPhrases(bodies[x])
  {
    var rows := seq(|alive|, x requires 0 <= x < |alive| => alive[x] && HasPhrases(bodies[x]));
    SomeLive(rows);
    hide HasPhrases, LiveRows;
    if x :| 0 <= x < |bodies| && alive[x] && HasPhrases(bodies[x]) { assert rows[x]; }
  }

  lemma CountersAppend(bodies: seq<Query>, alive: seq<bool>, liveRows: nat, livePhraseRows: nat, body: Query)
    requires CountersValid(bodies, alive, liveRows, livePhraseRows)
    ensures CountersValid(bodies + [body], alive + [true], liveRows + 1,
                          livePhraseRows + (if HasPhrases(body) then 1 else 0))
  {
    var before := seq(|alive|, x requires 0 <= x < |alive| => alive[x] && HasPhrases(bodies[x]));
    var alive', bodies' := alive + [true], bodies + [body];
    var after := seq(|alive'|, x requires 0 <= x < |alive'| => alive'[x] && HasPhrases(bodies'[x]));
    assert alive'[..|alive|] == alive && after[..|alive|] == before;
  }

  lemma CountersClear(bodies: seq<Query>, alive: seq<bool>, liveRows: nat, livePhraseRows: nat, x: nat)
    requires CountersValid(bodies, alive, liveRows, livePhraseRows) && x < |alive| && alive[x]
    ensures liveRows > 0 && (HasPhrases(bodies[x]) ==> livePhraseRows > 0)
    ensures CountersValid(bodies, alive[x := false], liveRows - 1,
                          livePhraseRows - (if HasPhrases(bodies[x]) then 1 else 0))
  {
    var before := seq(|alive|, k requires 0 <= k < |alive| => alive[k] && HasPhrases(bodies[k]));
    var alive' := alive[x := false];
    var after := seq(|alive'|, k requires 0 <= k < |alive'| => alive'[k] && HasPhrases(bodies[k]));
    assert after == before[x := false];
    LiveRowsCleared(alive, x);
    LiveRowsCleared(before, x);
  }

  lemma NoFilter(main: History<Key>, broad: History<Key>, hot: History<Key>)
    ensures FilterValid(None, main, broad, hot)
  {
  }

  lemma KnowsAll(r: Rows, sigKey: SigKey, main: map<Key, Posting>, broad: map<Key, Posting>, hot: map<Key, Posting>,
                 mainIds: History<Key>, broadIds: History<Key>, hotIds: History<Key>, keys: seq<Key>, f: SegmentFilter)
    requires LanesValid(r, sigKey, main, broad, hot, mainIds, broadIds, hotIds)
    requires forall k :: k in main || k in broad || k in hot ==> k in keys
    requires Built(f, keys)
    ensures FilterValid(Some(f), mainIds, broadIds, hotIds)
  {
    hide Built, PostingOf, Filed;
    forall sig | sig in mainIds || sig in broadIds || sig in hotIds ensures sig in keys {
      assert sig in mainIds.Keys + broadIds.Keys + hotIds.Keys;
    }
  }

  // ---- adding a row ----

  function Appended(r: Rows, body: Query, class_: CostClass, leader: nat, plan: AnchorPlan): Rows {
    Rows(r.bodies + [body], r.classes + [class_], r.dupOf + [leader], r.plans + [plan])
  }

  lemma AppendedValid(r: Rows, planned: set<FeatureId>, more: set<FeatureId>, body: Query, class_: CostClass,
                      leader: nat, plan: AnchorPlan)
    requires RowsValid(r, planned) && planned <= more
    requires leader == |r.bodies| ||
               (Leader(r, leader) && r.bodies[leader] == body && r.classes[leader] == class_ && r.plans[leader] == plan)
    requires class_ == plan.class_ && Shaped(body, plan, more) && SearchablePhrases(body)
    ensures RowsValid(Appended(r, body, class_, leader, plan), more)
  {
    var r' := Appended(r, body, class_, leader, plan);
    forall x | 0 <= x < |r'.bodies|
      ensures RowValid(r', more, x)
    {
      if x < |r.bodies| {
        assert RowValid(r, planned, x);
        ShapedGrows(r.bodies[x], r.plans[x], planned, more);
        hide Shaped, SearchablePhrases;
        assert r'.dupOf[x] == r.dupOf[x];
      }
    }
  }

  lemma RowCounts(r: Rows, planned: set<FeatureId>)
    requires RowsValid(r, planned)
    ensures |r.bodies| == |r.classes| == |r.dupOf| == |r.plans|
  {
  }

  lemma RowFacts(r: Rows, planned: set<FeatureId>, l: nat)
    requires RowsValid(r, planned) && Leader(r, l)
    ensures |r.bodies| == |r.classes| == |r.dupOf| == |r.plans| && l < |r.bodies|
    ensures r.classes[l] == r.plans[l].class_ && Shaped(r.bodies[l], r.plans[l], planned)
    ensures SearchablePhrases(r.bodies[l])
  {
    assert RowValid(r, planned, l);
  }

  lemma ShapedGrows(q: Query, plan: AnchorPlan, planned: set<FeatureId>, more: set<FeatureId>)
    requires Shaped(q, plan, planned) && planned <= more
    ensures Shaped(q, plan, more)
  {
    hide FlatCover, PhraseCover;
    if PairCover(q, plan.main, planned) { PairGrows(q, plan.main, planned, more); }
    hide PairCover;
  }

  lemma PairGrows(q: Query, anchors: seq<seq<FeatureId>>, planned: set<FeatureId>, more: set<FeatureId>)
    requires PairCover(q, anchors, planned) && planned <= more
    ensures PairCover(q, anchors, more)
  {
    hide Pair;
  }

  /** A row that joins a group is filed nowhere. */
  lemma JoinedFiled(r: Rows, sigKey: SigKey, lane: Lane, ids: History<Key>, body: Query, class_: CostClass, leader: nat,
                    plan: AnchorPlan)
    requires Filed(r, sigKey, lane, ids) && leader < |r.dupOf| == |r.plans|
    ensures Filed(Appended(r, body, class_, leader, plan), sigKey, lane, ids)
  {
    var r' := Appended(r, body, class_, leader, plan);
    hide Under, AnchorsOf;
    forall sig, l ensures FiledUnder(r', sigKey, lane, sig, l) <==> FiledUnder(r, sigKey, lane, sig, l) { }
  }

  lemma JoinedLanes(r: Rows, sigKey: SigKey, main: map<Key, Posting>, broad: map<Key, Posting>, hot: map<Key, Posting>,
                    mainIds: History<Key>, broadIds: History<Key>, hotIds: History<Key>,
                    body: Query, class_: CostClass, leader: nat, plan: AnchorPlan)
    requires LanesValid(r, sigKey, main, broad, hot, mainIds, broadIds, hotIds) && leader < |r.dupOf| == |r.plans|
    ensures LanesValid(Appended(r, body, class_, leader, plan), sigKey, main, broad, hot, mainIds, broadIds, hotIds)
  {
    hide Filed, Represents, Appended;
    JoinedFiled(r, sigKey, Main, mainIds, body, class_, leader, plan);
    JoinedFiled(r, sigKey, Broad, broadIds, body, class_, leader, plan);
    JoinedFiled(r, sigKey, Hot, hotIds, body, class_, leader, plan);
  }

  /** Every signature of the list gets the id. */
  ghost predicate RecordedAll(before: History<Key>, after: History<Key>, sigs: seq<Key>, id: nat) {
    && (forall sig, x :: x in Under(after, sig) <==> x in Under(before, sig) || (x == id && sig in sigs))
  }

  method InsertAll(postings: map<Key, Posting>, sigs: seq<Key>, id: nat, ghost ids: History<Key>)
    returns (postings': map<Key, Posting>, ghost ids': History<Key>)
    requires Represents(postings, ids)
    ensures Represents(postings', ids') && RecordedAll(ids, ids', sigs, id)
  {
    postings', ids' := postings, ids;
    hide Represents;
    for n := 0 to |sigs|
      invariant Represents(postings', ids') && RecordedAll(ids, ids', sigs[..n], id)
    {
      postings' := InsertInto(postings', sigs[n], id, ids');
      ghost var next := Recorded(ids', sigs[n], id);
      assert sigs[..n + 1] == sigs[..n] + [sigs[n]];
      forall sig, x ensures x in Under(next, sig) <==> x in Under(ids', sig) || (x == id && sig == sigs[n]) { }
      ids' := next;
    }
    assert sigs[..|sigs|] == sigs;
  }

  lemma LedFiled(r: Rows, sigKey: SigKey, lane: Lane, ids: History<Key>, ids': History<Key>, body: Query,
                 plan: AnchorPlan)
    requires Filed(r, sigKey, lane, ids) && |r.dupOf| == |r.plans|
    requires RecordedAll(ids, ids', Map(sigKey, AnchorsOf(plan, lane)), |r.dupOf|)
    ensures Filed(Appended(r, body, plan.class_, |r.dupOf|, plan), sigKey, lane, ids')
  {
    var r' := Appended(r, body, plan.class_, |r.dupOf|, plan);
    hide Under, AnchorsOf, Map;
    forall sig, l
      ensures FiledUnder(r', sigKey, lane, sig, l)
         <==> FiledUnder(r, sigKey, lane, sig, l) || (l == |r.dupOf| && sig in Map(sigKey, AnchorsOf(plan, lane)))
    {
      MapMember(sigKey, AnchorsOf(plan, lane), sig);
    }
  }

  lemma JoinedGroups(r: Rows, members: map<nat, seq<nat>>, body: Query, class_: CostClass, leader: nat,
                     plan: AnchorPlan)
    requires GroupsValid(r, members) && leader < |r.dupOf|
    ensures GroupsValid(Appended(r, body, class_, leader, plan),
                        members[leader := MembersOf(members, leader) + [|r.dupOf|]])
  {
    var r', n := Appended(r, body, class_, leader, plan), |r.dupOf|;
    var members' := members[leader := MembersOf(members, leader) + [n]];
    forall l: nat
      ensures IsGroup(r', MembersOf(members', l), l)
    {
      assert IsGroup(r, MembersOf(members, l), l);
      hide MembersOf;
      forall x: nat ensures InGroup(r', l, x) <==> InGroup(r, l, x) || (x == n && l == leader) { }
      if l == leader {
        var group := MembersOf(members, l);
        assert n !in group;
        MembersUpdated(members, leader, group + [n]);
      } else {
        MembersOther(members, leader, MembersOf(members, leader) + [n], l);
      }
    }
  }

  lemma MembersUpdated(members: map<nat, seq<nat>>, l: nat, group: seq<nat>)
    ensures MembersOf(members[l := group], l) == group
  {
  }

  lemma MembersOther(members: map<nat, seq<nat>>, l: nat, group: seq<nat>, other: nat)
    requires other != l
    ensures MembersOf(members[l := group], other) == MembersOf(members, other)
  {
  }

  lemma LedGroups(r: Rows, members: map<nat, seq<nat>>, body: Query, class_: CostClass, plan: AnchorPlan)
    requires GroupsValid(r, members)
    ensures GroupsValid(Appended(r, body, class_, |r.dupOf|, plan), members)
  {
    var r', n := Appended(r, body, class_, |r.dupOf|, plan), |r.dupOf|;
    hide MembersOf;
    forall l: nat
      ensures IsGroup(r', MembersOf(members, l), l)
    {
      assert IsGroup(r, MembersOf(members, l), l);
      forall x: nat ensures InGroup(r', l, x) && x != l <==> InGroup(r, l, x) && x != l { }
    }
  }

  lemma AppendedBodies(r: Rows, bodyIndex: map<nat, seq<nat>>, body: Query, class_: CostClass, leader: nat,
                       plan: AnchorPlan, h: nat)
    requires BodiesValid(r, bodyIndex)
    ensures BodiesValid(Appended(r, body, class_, leader, plan), bodyIndex)
    ensures leader == |r.dupOf| ==>
              BodiesValid(Appended(r, body, class_, leader, plan), bodyIndex[h := MembersOf(bodyIndex, h) + [leader]])
  {
    var r' := Appended(r, body, class_, leader, plan);
    forall l | Leader(r, l) ensures Leader(r', l) { }
  }

  function Noted(bodyIndex: map<nat, seq<nat>>, h: Option<nat>, n: nat): map<nat, seq<nat>> {
    if h.None? then bodyIndex else bodyIndex[h.value := MembersOf(bodyIndex, h.value) + [n]]
  }

  lemma LedRows(r: Rows, planned: set<FeatureId>, more: set<FeatureId>, members: map<nat, seq<nat>>,
                bodyIndex: map<nat, seq<nat>>, body: Query, plan: AnchorPlan, h: Option<nat>)
    requires RowsValid(r, planned) && GroupsValid(r, members) && BodiesValid(r, bodyIndex)
    requires planned <= more && Shaped(body, plan, more) && SearchablePhrases(body)
    ensures var r' := Appended(r, body, plan.class_, |r.dupOf|, plan);
            RowsValid(r', more) && GroupsValid(r', members) && BodiesValid(r', Noted(bodyIndex, h, |r.dupOf|))
  {
    RowCounts(r, planned);
    hide RowsValid, GroupsValid, BodiesValid, Shaped, SearchablePhrases, Appended;
    AppendedValid(r, planned, more, body, plan.class_, |r.dupOf|, plan);
    LedGroups(r, members, body, plan.class_, plan);
    AppendedBodies(r, bodyIndex, body, plan.class_, |r.dupOf|, plan, if h.Some? then h.value else 0);
  }

  lemma BodyShaped(q: Query, plan: AnchorPlan, hot: set<FeatureId>)
    requires Shaped(q, plan, hot)
    ensures Shaped(Body(q), plan, hot)
  {
    hide Pair, Map, PhraseProxy;
  }

  /** The plan a row is filed under. */
  function RowPlan(q: Query, stats: Stats, theta: nat, keepVisible: bool): AnchorPlan {
    var plan := PlanFor(q, stats, theta);
    if keepVisible then Pinned(plan) else plan
  }

  lemma RowPlanShaped(q: Query, stats: Stats, theta: nat, keepVisible: bool)
    requires Ascending(q.required, NatLess)
    ensures Shaped(Body(q), RowPlan(q, stats, theta, keepVisible), stats.hot)
    ensures keepVisible ==> RowPlan(q, stats, theta, keepVisible).class_ != C
  {
    PlanShaped(q, stats, theta);
    var plan := PlanFor(q, stats, theta);
    if plan.class_ == C { ClassCIsFlat(q, stats, theta); }
    hide PlanFor, Shaped, FlatCover;
    PinnedShaped(q, plan, stats.hot);
    BodyShaped(q, RowPlan(q, stats, theta, keepVisible), stats.hot);
  }

  // ---- the signatures of a title ----

  function SingleKeys(sigKey: SigKey, features: seq<FeatureId>): seq<Key> {
    Map(f => sigKey([f]), features)
  }

  /** One hot feature with every other feature. */
  function PairsWith(sigKey: SigKey, h: FeatureId, pos: seq<FeatureId>): seq<Key> {
    Map(o => sigKey(Pair(h, o)), Filter(o => o != h, pos))
  }

  function PairKeys(sigKey: SigKey, hs: seq<FeatureId>, pos: seq<FeatureId>, hot: set<FeatureId>): seq<Key> {
    if hs == [] then []
    else
      var h := hs[|hs| - 1];
      PairKeys(sigKey, hs[..|hs| - 1], pos, hot) + (if h in hot then PairsWith(sigKey, h, pos) else [])
  }

  function MainKeys(sigKey: SigKey, probe: seq<FeatureId>, pos: seq<FeatureId>, hot: set<FeatureId>): seq<Key> {
    SingleKeys(sigKey, probe) + PairKeys(sigKey, pos, pos, hot)
  }

  function BroadKeys(sigKey: SigKey, pos: seq<FeatureId>): seq<Key> {
    SingleKeys(sigKey, pos) + [sigKey([])]
  }

  lemma SingleKeysMember(sigKey: SigKey, features: seq<FeatureId>, key: Key)
    ensures key in SingleKeys(sigKey, features) <==> exists f :: f in features && sigKey([f]) == key
  {
    MapMember(f => sigKey([f]), features, key);
  }

  lemma PairsWithMember(sigKey: SigKey, h: FeatureId, pos: seq<FeatureId>, key: Key)
    ensures key in PairsWith(sigKey, h, pos) <==> exists o :: o in pos && o != h && sigKey(Pair(h, o)) == key
  {
    var others := Filter(o => o != h, pos);
    hide Filter, Pair;
    MapMember(o => sigKey(Pair(h, o)), others, key);
    forall o ensures o in others <==> o in pos && o != h { FilterMember(o => o != h, pos, o); }
  }

  lemma {:induction false} PairKeysMember(sigKey: SigKey, hs: seq<FeatureId>, pos: seq<FeatureId>, hot: set<FeatureId>,
                                          key: Key)
    ensures key in PairKeys(sigKey, hs, pos, hot)
       <==> exists h, o :: h in hs && h in hot && o in pos && o != h && sigKey(Pair(h, o)) == key
  {
    hide PairsWith, Pair;
    if hs != [] {
      var rest, last := hs[..|hs| - 1], hs[|hs| - 1];
      PairKeysMember(sigKey, rest, pos, hot, key);
      PairsWithMember(sigKey, last, pos, key);
      assert hs == rest + [last];
    }
  }

  ghost predicate SameFeatures(pos: seq<FeatureId>, features: set<FeatureId>) {
    forall f :: f in pos <==> f in features
  }

  /** An anchor the title looks up has its signature probed. */
  lemma LookedUpIsProbed(sigKey: SigKey, v: TitleView, probe: seq<FeatureId>, pos: seq<FeatureId>, hot: set<FeatureId>,
                         g: seq<FeatureId>)
    requires SameFeatures(probe, v.probe) && SameFeatures(pos, v.pos)
    ensures MainLooksUp(v, hot, g) ==> sigKey(g) in MainKeys(sigKey, probe, pos, hot)
    ensures HotLooksUp(v, g) ==> sigKey(g) in SingleKeys(sigKey, pos)
    ensures BroadLooksUp(v, g) ==> sigKey(g) in BroadKeys(sigKey, pos)
  {
    hide SingleKeys, PairKeys, Pair;
    SingleKeysMember(sigKey, probe, sigKey(g));
    SingleKeysMember(sigKey, pos, sigKey(g));
    PairKeysMember(sigKey, pos, pos, hot, sigKey(g));
  }

  // ---- reading ----

  ghost function Reaches(ids: History<Key>, keys: seq<Key>): set<nat> {
    set k, l | k in keys && l in Under(ids, k) :: l
  }

  lemma HitsMore(ids: History<Key>, keys: seq<Key>, n: nat)
    requires n < |keys|
    ensures Reaches(ids, keys[..n + 1]) == Reaches(ids, keys[..n]) + Elements(Under(ids, keys[n]))
  {
    hide Under;
    assert keys[..n + 1] == keys[..n] + [keys[n]];
  }

  /** What a row must satisfy to be returned once it is reached. */
  ghost predicate Emits(r: Rows, alive: seq<bool>, v: TitleView, keep: nat -> bool, x: nat) {
    x < |r.bodies| && x < |alive| && alive[x] && keep(x) && Accepts(r.bodies[x], v)
  }

  /** Exactly the rows of the groups reached so far, each once. */
  ghost predicate Collected(r: Rows, alive: seq<bool>, v: TitleView, keep: nat -> bool, seen: set<nat>, out: seq<nat>) {
    && Distinct(out)
    && forall x: nat :: x in out <==> Emits(r, alive, v, keep, x) && x < |r.dupOf| && r.dupOf[x] in seen
  }

  lemma CollectedMore(r: Rows, alive: seq<bool>, v: TitleView, keep: nat -> bool, seen: set<nat>, out: seq<nat>,
                      l: nat, more: seq<nat>)
    requires Collected(r, alive, v, keep, seen, out) && l !in seen
    requires Distinct(more) && forall x: nat :: x in more <==> InGroup(r, l, x) && Emits(r, alive, v, keep, x)
    ensures Collected(r, alive, v, keep, seen + {l}, out + more)
  {
    hide Emits;
    forall i, j | 0 <= i < j < |out + more|
      ensures (out + more)[i] != (out + more)[j]
    {
      if i < |out| <= j {
        assert out[i] in out && more[j - |out|] in more;
      }
    }
  }

  class Segment {
    const sigKey: SigKey
    var main: map<Key, Posting>
    var broad: map<Key, Posting>
    var hot: map<Key, Posting>
    var bodies: seq<Query>
    var classes: seq<CostClass>
    var alive: seq<bool>
    var liveRows: nat
    var livePhraseRows: nat
    var dupOf: seq<nat>
    var dupMembers: map<nat, seq<nat>>
    var bodyIndex: map<nat, seq<nat>>
    var filter: Option<SegmentFilter>

    /** The plan each group is filed under, what each lane was told, and the features that some
        plan took for hot. */
    ghost var plans: seq<AnchorPlan>
    ghost var mainIds: History<Key>
    ghost var broadIds: History<Key>
    ghost var hotIds: History<Key>
    ghost var planned: set<FeatureId>

    ghost function Stored(): Rows
      reads this
    {
      Rows(bodies, classes, dupOf, plans)
    }

    ghost predicate Valid()
      reads this
    {
      && RowsValid(Stored(), planned) && CountersValid(bodies, alive, liveRows, livePhraseRows)
      && LanesValid(Stored(), sigKey, main, broad, hot, mainIds, broadIds, hotIds)
      && GroupsValid(Stored(), dupMembers) && BodiesValid(Stored(), bodyIndex)
      && FilterValid(filter, mainIds, broadIds, hotIds)
    }

    constructor (sigKey: SigKey)
      ensures Valid() && this.sigKey == sigKey && bodies == [] && filter == None && planned == {}
    {
      this.sigKey := sigKey;
      main, broad, hot := map[], map[], map[];
      bodies, classes, alive, dupOf, plans := [], [], [], [], [];
      liveRows, livePhraseRows := 0, 0;
      dupMembers, bodyIndex, filter := map[], map[], None;
      mainIds, broadIds, hotIds, planned := map[], map[], map[], {};
    }

    /** A stored leader with this body on the same side of the opt-in boundary. */
    method FindLeader(leaders: seq<nat>, body: Query, optIn: bool) returns (leader: Option<nat>)
      requires RowsValid(Stored(), planned) && forall l :: l in leaders ==> Leader(Stored(), l)
      ensures leader.Some? ==>
                Leader(Stored(), leader.value) && bodies[leader.value] == body &&
                    classes[leader.value].IsOptIn() == optIn
      ensures leader.None? ==>
                forall l :: l in leaders && l < |bodies| ==> bodies[l] != body || classes[l].IsOptIn() != optIn
    {
      hide RowValid;
      for i := 0 to |leaders|
        invariant forall k :: 0 <= k < i && leaders[k] < |bodies| ==>
                    bodies[leaders[k]] != body || classes[leaders[k]].IsOptIn() != optIn
      {
        assert leaders[i] in leaders;
        if classes[leaders[i]].IsOptIn() == optIn && bodies[leaders[i]] == body {
          return Some(leaders[i]);
        }
      }
      return None;
    }

    /** File a row in an existing group: it is reached, checked and returned through its leader. */
    method Join(body: Query, leader: nat, ghost more: set<FeatureId>)
      requires Valid() && Leader(Stored(), leader) && bodies[leader] == body && planned <= more && filter.None?
      modifies this
      ensures Valid() && filter.None? && planned == more
      ensures Stored() == Appended(old(Stored()), body, old(classes)[leader], leader, old(plans)[leader])
      ensures alive == old(alive) + [true]
    {
      RowFacts(Stored(), planned, leader);
      ghost var r, class_, plan := Stored(), classes[leader], plans[leader];
      hide RowsValid, Shaped, SearchablePhrases, LanesValid, GroupsValid, BodiesValid, MembersOf, Leader;
      ShapedGrows(body, plan, planned, more);
      AppendedValid(r, planned, more, body, class_, leader, plan);
      JoinedLanes(r, sigKey, main, broad, hot, mainIds, broadIds, hotIds, body, class_, leader, plan);
      JoinedGroups(r, dupMembers, body, class_, leader, plan);
      AppendedBodies(r, bodyIndex, body, class_, leader, plan, 0);
      dupMembers := dupMembers[leader := MembersOf(dupMembers, leader) + [|dupOf|]];
      StoreRow(body, classes[leader], leader, plan, more);
      hide Appended;
    }

    /** The columns of one more row. */
    method StoreRow(body: Query, class_: CostClass, leader: nat, ghost plan: AnchorPlan, ghost more: set<FeatureId>)
      requires CountersValid(bodies, alive, liveRows, livePhraseRows)
      modifies this`bodies, this`classes, this`alive, this`liveRows, this`livePhraseRows, this`dupOf, this`plans,
          this`planned
      ensures Stored() == Appended(old(Stored()), body, class_, leader, plan)
      ensures alive == old(alive) + [true] && planned == more && CountersValid(bodies, alive, liveRows, livePhraseRows)
    {
      CountersAppend(bodies, alive, liveRows, livePhraseRows, body);
      hide CountersValid;
      liveRows := liveRows + 1;
      if HasPhrases(body) {
        livePhraseRows := livePhraseRows + 1;
      }
      bodies, classes, alive, dupOf := bodies + [body], classes + [class_], alive + [true], dupOf + [leader];
      plans, planned := plans + [plan], more;
    }

    /** File a row under its own anchors. */
    method Lead(body: Query, plan: AnchorPlan, h: Option<nat>, ghost more: set<FeatureId>)
      requires Valid() && filter.None? && planned <= more && Shaped(body, plan, more) && SearchablePhrases(body)
      modifies this
      ensures Valid() && filter.None? && planned == more
      ensures Stored() == Appended(old(Stored()), body, plan.class_, |old(dupOf)|, plan)
      ensures alive == old(alive) + [true]
    {
      RowCounts(Stored(), planned);
      hide RowsValid, Shaped, SearchablePhrases, LanesValid, GroupsValid, BodiesValid, FilterValid;
      var n := |dupOf|;
      LedRows(Stored(), planned, more, dupMembers, bodyIndex, body, plan, h);
      var main', mainIds', broad', broadIds', hot', hotIds' := FileAll(plan, n, body);
      NoFilter(mainIds', broadIds', hotIds');
      Commit(main', mainIds', broad', broadIds', hot', hotIds', Noted(bodyIndex, h, n), body, plan, more);
      hide Noted;
    }

    method Commit(main': map<Key, Posting>, ghost mainIds': History<Key>, broad': map<Key, Posting>,
                  ghost broadIds': History<Key>, hot': map<Key, Posting>, ghost hotIds': History<Key>,
                  bodyIndex': map<nat, seq<nat>>, body: Query, plan: AnchorPlan, ghost more: set<FeatureId>)
      requires CountersValid(bodies, alive, liveRows, livePhraseRows)
      modifies this
      ensures main == main' && broad == broad' && hot == hot'
      ensures mainIds == mainIds' && broadIds == broadIds' && hotIds == hotIds'
      ensures Stored() == Appended(old(Stored()), body, plan.class_, |old(dupOf)|, plan)
      ensures alive == old(alive) + [true] && planned == more && CountersValid(bodies, alive, liveRows, livePhraseRows)
      ensures bodyIndex == bodyIndex' && dupMembers == old(dupMembers) && filter == old(filter)
    {
      hide Appended, CountersValid;
      Refile(main', mainIds', broad', broadIds', hot', hotIds');
      StoreRow(body, plan.class_, |dupOf|, plan, more);
      bodyIndex := bodyIndex';
    }

    method Refile(main': map<Key, Posting>, ghost mainIds': History<Key>, broad': map<Key, Posting>,
                  ghost broadIds': History<Key>, hot': map<Key, Posting>, ghost hotIds': History<Key>)
      modifies this`main, this`broad, this`hot, this`mainIds, this`broadIds, this`hotIds
      ensures main == main' && broad == broad' && hot == hot'
      ensures mainIds == mainIds' && broadIds == broadIds' && hotIds == hotIds'
    {
      main, broad, hot := main', broad', hot';
      mainIds, broadIds, hotIds := mainIds', broadIds', hotIds';
    }

    /** The row's id under every signature of its plan. */
    method FileAll(plan: AnchorPlan, n: nat, ghost body: Query)
      returns (main': map<Key, Posting>, ghost mainIds': History<Key>, broad': map<Key, Posting>,
               ghost broadIds': History<Key>,
               hot': map<Key, Posting>, ghost hotIds': History<Key>)
      requires LanesValid(Stored(), sigKey, main, broad, hot, mainIds, broadIds, hotIds)
      requires n == |dupOf| == |plans|
      ensures LanesValid(Appended(Stored(), body, plan.class_, n, plan), sigKey, main', broad', hot', mainIds',
                         broadIds', hotIds')
    {
      hide Filed, Represents, RecordedAll, Appended;
      main', mainIds' := InsertAll(main, Map(sigKey, plan.main), n, mainIds);
      LedFiled(Stored(), sigKey, Main, mainIds, mainIds', body, plan);
      broad', broadIds' := InsertAll(broad, Map(sigKey, plan.broad), n, broadIds);
      LedFiled(Stored(), sigKey, Broad, broadIds, broadIds', body, plan);
      hot', hotIds' := InsertAll(hot, Map(sigKey, plan.hot), n, hotIds);
      LedFiled(Stored(), sigKey, Hot, hotIds, hotIds', body, plan);
    }

    /** Store one compiled query, unless it is a class-D plan that is not accepted. */
    method AddCompiled(q: Query, stats: Stats, theta: nat, acceptClassD: bool, dedupBodies: bool, keepVisible: bool,
                       hash: Query -> nat)
      returns (local: Option<nat>)
      requires Valid() && filter.None? && Ascending(q.required, NatLess) && SearchablePhrases(q)
      modifies this
      ensures Valid() && filter.None? && planned <= old(planned) + stats.hot
      ensures local.None? <==> RejectsClassD(RowPlan(q, stats, theta, keepVisible).class_, q, acceptClassD)
      ensures local.None? ==> unchanged(this)
      ensures local.Some? ==>
                && local.value == |old(bodies)| && bodies == old(bodies) + [Body(q)] && alive == old(alive) + [true]
                && classes[..|old(classes)|] == old(classes)
                && classes[local.value].IsOptIn() == RowPlan(q, stats, theta, keepVisible).class_.IsOptIn()
    {
      var plan := RowPlan(q, stats, theta, keepVisible);
      if RejectsClassD(plan.class_, q, acceptClassD) {
        return None;
      }
      var body, n := Body(q), |bodies|;
      RowPlanShaped(q, stats, theta, keepVisible);
      assert SearchablePhrases(body);
      hide RowPlan, Body, SearchablePhrases;
      ghost var more := planned + stats.hot;
      ShapedGrows(body, plan, stats.hot, more);
      hide LanesValid, GroupsValid, FilterValid, RowValid, Shaped;
      if dedupBodies {
        var h := hash(body);
        if h in bodyIndex {
          var leader := FindLeader(bodyIndex[h], body, plan.class_.IsOptIn());
          if leader.Some? {
            Join(body, leader.value, more);
            return Some(n);
          }
        }
        Lead(body, plan, Some(h), more);
      } else {
        Lead(body, plan, None, more);
      }
      return Some(n);
    }

    /** Mark a row as deleted. */
    method Tombstone(local: nat)
      requires Valid()
      modifies this`alive, this`liveRows, this`livePhraseRows
      ensures Valid()
      ensures alive == if local < |old(alive)| then old(alive)[local := false] else old(alive)
    {
      if local < |alive| {
        if alive[local] {
          CountersClear(bodies, alive, liveRows, livePhraseRows, local);
          liveRows := liveRows - 1;
          if HasPhrases(bodies[local]) {
            livePhraseRows := livePhraseRows - 1;
          }
        }
        assert !alive[local] ==> alive[local := false] == alive;
        hide CountersValid;
        alive := alive[local := false];
      }
    }

    /** Whether any live row needs a title's phrase views. */
    method HasPhrasePredicates() returns (any: bool)
      requires Valid()
      ensures any <==> exists x :: 0 <= x < |bodies| && x < |alive| && alive[x] && HasPhrases(bodies[x])
    {
      SomePhraseRow(bodies, alive);
      hide HasPhrases, LivePhraseRows, RowsValid, LanesValid, GroupsValid, BodiesValid, FilterValid;
      any := livePhraseRows != 0;
    }

    static method ListKeys(keys: set<Key>) returns (list: seq<Key>)
      ensures forall k :: k in list <==> k in keys
    {
      list := [];
      var rest := keys;
      while rest != {}
        invariant rest <= keys && forall k :: k in list <==> k in keys && k !in rest
        decreases rest
      {
        var k :| k in rest;
        list, rest := list + [k], rest - {k};
      }
    }

    method AllKeys() returns (keys: seq<Key>)
      ensures forall k :: k in keys <==> k in main || k in broad || k in hot
    {
      var inMain := ListKeys(main.Keys);
      var inBroad := ListKeys(broad.Keys);
      var inHot := ListKeys(hot.Keys);
      keys := inMain + inBroad + inHot;
    }

    /** Seal the segment: build the filter over the signatures of every lane. */
    method BuildFilter()
      requires Valid()
      modifies this`filter, this`bodyIndex
      ensures Valid() && filter.Some?
    {
      hide Built, LanesValid, FilterValid, GroupsValid, RowsValid;
      var keys := AllKeys();
      var f := Build(keys);
      KnowsAll(Stored(), sigKey, main, broad, hot, mainIds, broadIds, hotIds, keys, f);
      filter := Some(f);
      bodyIndex := map[];
    }

    /** The rows of a group that are to be returned: the body is checked once, the rest per row. */
    method EmitGroup(l: nat, v: TitleView, keep: nat -> bool) returns (more: seq<nat>)
      requires RowsValid(Stored(), planned) && GroupsValid(Stored(), dupMembers) && |alive| == |bodies|
      requires Leader(Stored(), l)
      requires SortedView(v)
      ensures Distinct(more)
      ensures forall x: nat :: x in more <==> InGroup(Stored(), l, x) && Emits(Stored(), alive, v, keep, x)
    {
      ghost var r := Stored();
      RowFacts(r, planned, l);
      GroupFacts(r, planned, dupMembers, l);
      hide RowsValid, GroupsValid, Accepts, SearchablePhrases, SortedView;
      if dupMembers == map[] {
        if !alive[l] {
          return [];
        }
        var alone := CheckQuery(bodies[l], v);
        return if alone && keep(l) then [l] else [];
      }
      var members := MembersOf(dupMembers, l);
      hide MembersOf;
      if members == [] && !alive[l] {
        return [];
      }
      var accepted := CheckQuery(bodies[l], v);
      if !accepted {
        return [];
      }
      more := if alive[l] && keep(l) then [l] else [];
      for i := 0 to |members|
        invariant Distinct(more)
        invariant forall x: nat :: x in more <==> (x == l || x in members[..i]) && x < |alive| && alive[x] && keep(x)
      {
        var m := members[i];
        assert m in members && m !in members[..i];
        assert members[..i + 1] == members[..i] + [m];
        if alive[m] && keep(m) {
          assert m !in more;
          more := more + [m];
        }
      }
      assert members[..|members|] == members;
    }

    /** Visit the leaders of a posting that were not seen before. */
    method Visit(locals: seq<nat>, v: TitleView, keep: nat -> bool, seen: set<nat>, out: seq<nat>,
                 ghost lane: Lane, ghost ids: History<Key>, ghost key: Key)
      returns (seen': set<nat>, out': seq<nat>)
      requires Valid() && Filed(Stored(), sigKey, lane, ids) && forall x :: x in locals <==> x in Under(ids, key)
      requires Collected(Stored(), alive, v, keep, seen, out) && SortedView(v)
      ensures seen' == seen + Elements(Under(ids, key)) && Collected(Stored(), alive, v, keep, seen', out')
    {
      seen', out' := seen, out;
      hide RowsValid, LanesValid, GroupsValid, Collected, Distinct, Under, Emits, InGroup, SortedView;
      for i := 0 to |locals|
        invariant seen' == seen + Elements(locals[..i]) && Collected(Stored(), alive, v, keep, seen', out')
      {
        var local := locals[i];
        assert local in locals;
        assert FiledUnder(Stored(), sigKey, lane, key, local);
        assert Elements(locals[..i + 1]) == Elements(locals[..i]) + {local};
        if local !in seen' {
          var more := EmitGroup(local, v, keep);
          CollectedMore(Stored(), alive, v, keep, seen', out', local, more);
          seen', out' := seen' + {local}, out' + more;
        }
      }
      assert locals[..|locals|] == locals;
      assert Elements(locals) == Elements(Under(ids, key));
    }

    /** Look one signature up in a lane, after asking the filter. */
    method Probe(key: Key, index: map<Key, Posting>, ghost lane: Lane, ghost ids: History<Key>,
                 v: TitleView, keep: nat -> bool, seen: set<nat>, out: seq<nat>)
      returns (seen': set<nat>, out': seq<nat>)
      requires Valid() && Represents(index, ids) && Filed(Stored(), sigKey, lane, ids)
      requires forall sig :: sig in ids ==> sig in mainIds || sig in broadIds || sig in hotIds
      requires Collected(Stored(), alive, v, keep, seen, out) && SortedView(v)
      ensures seen' == seen + Elements(Under(ids, key)) && Collected(Stored(), alive, v, keep, seen', out')
    {
      seen', out' := seen, out;
      hide RowsValid, LanesValid, GroupsValid, Collected, Built, PostingOf, FilterValid, Distinct;
      if filter.Some? {
        FilterLaid(filter.value, mainIds, broadIds, hotIds);
        var may := MayContain(filter.value, key);
        if !may {
          FilterPasses(filter.value, mainIds, broadIds, hotIds, key);
          hide Passes;
          assert seen' == seen + Elements(Under(ids, key));
          return;
        }
      }
      if key !in index {
        assert key !in ids.Keys;
        assert seen' == seen + Elements(Under(ids, key));
        return;
      }
      seen', out' := Visit(PostingIds(index[key], ids[key]), v, keep, seen, out, lane, ids, key);
    }

    /** Look a list of signatures up in a lane. */
    method ProbeAll(keys: seq<Key>, index: map<Key, Posting>, ghost lane: Lane, ghost ids: History<Key>,
                    v: TitleView, keep: nat -> bool, seen: set<nat>, out: seq<nat>)
      returns (seen': set<nat>, out': seq<nat>)
      requires Valid() && Represents(index, ids) && Filed(Stored(), sigKey, lane, ids)
      requires forall sig :: sig in ids ==> sig in mainIds || sig in broadIds || sig in hotIds
      requires Collected(Stored(), alive, v, keep, seen, out) && SortedView(v)
      ensures seen' == seen + Reaches(ids, keys) && Collected(Stored(), alive, v, keep, seen', out')
    {
      hide Valid, Represents, Filed, Collected, Reaches, Under;
      seen', out' := seen, out;
      NoHits(ids);
      for i := 0 to |keys|
        invariant seen' == seen + Reaches(ids, keys[..i]) && Collected(Stored(), alive, v, keep, seen', out')
      {
        HitsMore(ids, keys, i);
        seen', out' := Probe(keys[i], index, lane, ids, v, keep, seen', out');
      }
      assert keys[..|keys|] == keys;
    }

    /** The rows a title retrieves: those whose group is filed under a signature the title probes in
        that lane, that are live, kept by the caller and pass the exact check. */
    method MatchCollect(pos: seq<FeatureId>, probe: seq<FeatureId>, hotNow: set<FeatureId>, includeBroad: bool,
                        v: TitleView, keep: nat -> bool)
      returns (out: seq<nat>)
      requires Valid() && SortedView(v)
      ensures Distinct(out)
      ensures forall x: nat :: x in out <==>
                Emits(Stored(), alive, v, keep, x) && Candidate(plans[x], sigKey, pos, probe, hotNow, includeBroad)
    {
      ghost var r := Stored();
      ghost var mainHits, hotHits, broadHits :=
        Reaches(mainIds, MainKeys(sigKey, probe, pos, hotNow)), Reaches(hotIds, SingleKeys(sigKey, pos)),
            Reaches(broadIds, BroadKeys(sigKey, pos));
      Lanes(r, sigKey, main, broad, hot, mainIds, broadIds, hotIds);
      hide RowsValid, LanesValid, GroupsValid, BodiesValid, FilterValid, Represents, Filed, MainKeys, SingleKeys,
          BroadKeys, Reaches, Emits, Candidate;
      var seen: set<nat> := {};
      out := [];
      seen, out := ProbeAll(MainKeys(sigKey, probe, pos, hotNow), main, Main, mainIds, v, keep, seen, out);
      seen, out := ProbeAll(SingleKeys(sigKey, pos), hot, Hot, hotIds, v, keep, seen, out);
      if includeBroad {
        seen, out := ProbeAll(BroadKeys(sigKey, pos), broad, Broad, broadIds, v, keep, seen, out);
      }
      assert seen == mainHits + hotHits + (if includeBroad then broadHits else {});
      forall x: nat | Emits(r, alive, v, keep, x)
        ensures x < |r.plans| && x < |r.dupOf|
        ensures r.dupOf[x] in seen <==> Candidate(r.plans[x], sigKey, pos, probe, hotNow, includeBroad)
      {
        EmitsStored(r, planned, alive, v, keep, x);
        CandidateIsHit(r, planned, sigKey, main, broad, hot, mainIds, broadIds, hotIds, pos, probe, hotNow,
                       includeBroad, x);
      }
    }
  }

  lemma NoHits(ids: History<Key>)
    ensures Reaches(ids, []) == {}
  {
  }

  lemma Lanes(r: Rows, sigKey: SigKey, main: map<Key, Posting>, broad: map<Key, Posting>, hot: map<Key, Posting>,
              mainIds: History<Key>, broadIds: History<Key>, hotIds: History<Key>)
    requires LanesValid(r, sigKey, main, broad, hot, mainIds, broadIds, hotIds)
    ensures Represents(main, mainIds) && Represents(broad, broadIds) && Represents(hot, hotIds)
    ensures Filed(r, sigKey, Main, mainIds) && Filed(r, sigKey, Broad, broadIds) && Filed(r, sigKey, Hot, hotIds)
  {
  }

  lemma EmitsStored(r: Rows, planned: set<FeatureId>, alive: seq<bool>, v: TitleView, keep: nat -> bool, x: nat)
    requires RowsValid(r, planned) && Emits(r, alive, v, keep, x)
    ensures x < |r.bodies| == |r.classes| == |r.dupOf| == |r.plans|
  {
  }

  /** Whether one of the plan's signatures is among those the title probes in its lane. */
  predicate AnySig(anchors: seq<seq<FeatureId>>, sigKey: SigKey, keys: seq<Key>) {
    exists g :: g in anchors && sigKey(g) in keys
  }

  predicate Candidate(plan: AnchorPlan, sigKey: SigKey, pos: seq<FeatureId>, probe: seq<FeatureId>, hot: set<FeatureId>,
                      includeBroad: bool) {
    || AnySig(plan.main, sigKey, MainKeys(sigKey, probe, pos, hot))
    || AnySig(plan.hot, sigKey, SingleKeys(sigKey, pos))
    || (includeBroad && AnySig(plan.broad, sigKey, BroadKeys(sigKey, pos)))
  }

  lemma LaneHit(r: Rows, planned: set<FeatureId>, sigKey: SigKey, lane: Lane, ids: History<Key>, keys: seq<Key>, x: nat)
    requires RowsValid(r, planned) && Filed(r, sigKey, lane, ids) && x < |r.bodies|
    ensures x < |r.dupOf| && x < |r.plans|
    ensures r.dupOf[x] in Reaches(ids, keys) <==> AnySig(AnchorsOf(r.plans[x], lane), sigKey, keys)
  {
    assert RowValid(r, planned, x);
    hide Under, AnchorsOf, Shaped;
    var l := r.dupOf[x];
    if l in Reaches(ids, keys) {
      var k :| k in keys && l in Under(ids, k);
      assert FiledUnder(r, sigKey, lane, k, l);
    }
    if AnySig(AnchorsOf(r.plans[x], lane), sigKey, keys) {
      var g :| g in AnchorsOf(r.plans[x], lane) && sigKey(g) in keys;
      assert FiledUnder(r, sigKey, lane, sigKey(g), l);
      assert l in Under(ids, sigKey(g));
    }
  }

  lemma CandidateIsHit(r: Rows, planned: set<FeatureId>, sigKey: SigKey, main: map<Key, Posting>,
                       broad: map<Key, Posting>, hot: map<Key, Posting>, mainIds: History<Key>, broadIds: History<Key>,
                       hotIds: History<Key>, pos: seq<FeatureId>, probe: seq<FeatureId>, hotNow: set<FeatureId>,
                       includeBroad: bool, x: nat)
    requires RowsValid(r, planned) && LanesValid(r, sigKey, main, broad, hot, mainIds, broadIds, hotIds)
    requires x < |r.bodies|
    ensures x < |r.dupOf| && x < |r.plans|
    ensures (|| r.dupOf[x] in Reaches(mainIds, MainKeys(sigKey, probe, pos, hotNow))
             || r.dupOf[x] in Reaches(hotIds, SingleKeys(sigKey, pos))
             || (includeBroad && r.dupOf[x] in Reaches(broadIds, BroadKeys(sigKey, pos))))
       <==> Candidate(r.plans[x], sigKey, pos, probe, hotNow, includeBroad)
  {
    hide RowsValid, Filed, Represents, Reaches, MainKeys, SingleKeys, BroadKeys, AnySig;
    LaneHit(r, planned, sigKey, Main, mainIds, MainKeys(sigKey, probe, pos, hotNow), x);
    LaneHit(r, planned, sigKey, Hot, hotIds, SingleKeys(sigKey, pos), x);
    LaneHit(r, planned, sigKey, Broad, broadIds, BroadKeys(sigKey, pos), x);
  }

  function PostingIds(p: Posting, ghost history: seq<nat>): (ids: seq<nat>)
    requires p == PostingOf(history)
    ensures forall x :: x in ids <==> x in history
  {
    PostingHolds(history);
    p.Ids()
  }

  lemma FilterLaid(f: SegmentFilter, main: History<Key>, broad: History<Key>, hot: History<Key>)
    requires FilterValid(Some(f), main, broad, hot)
    ensures Laid(f.data, f.mask)
  {
  }

  /** The filter never turns a stored signature away. */
  lemma FilterPasses(f: SegmentFilter, main: History<Key>, broad: History<Key>, hot: History<Key>, key: Key)
    requires FilterValid(Some(f), main, broad, hot)
    ensures key in main || key in broad || key in hot ==> Passes(f.data, f.mask, key)
  {
    hide Built, Passes;
    if key in main || key in broad || key in hot {
      var keys :| Built(f, keys) && forall sig :: sig in main || sig in broad || sig in hot ==> sig in keys;
      NoFalseNegatives(f, keys, key);
    }
  }

  lemma GroupFacts(r: Rows, planned: set<FeatureId>, members: map<nat, seq<nat>>, l: nat)
    requires RowsValid(r, planned) && GroupsValid(r, members) && Leader(r, l)
    ensures Distinct(MembersOf(members, l))
    ensures forall x: nat :: InGroup(r, l, x) <==> x == l || x in MembersOf(members, l)
    ensures forall x: nat :: InGroup(r, l, x) ==> x < |r.bodies| && r.bodies[x] == r.bodies[l]
  {
    assert IsGroup(r, MembersOf(members, l), l);
    hide MembersOf;
    forall x: nat | InGroup(r, l, x) ensures x < |r.bodies| && r.bodies[x] == r.bodies[l] {
      assert RowValid(r, planned, x);
    }
  }
}
