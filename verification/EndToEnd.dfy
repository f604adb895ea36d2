/** From the text of a query to the rows a title retrieves: storing a text and reading it back agrees
    with the reference parser and the reference predicate tree.
  */
module EndToEnd {
  import opened Dsl
  import opened Equivalences
  import opened Expansion
  import opened ExtractedQuery
  import opened Extraction
  import opened Orders
  import opened Parsers
  import opened Plans
  import opened Queries
  import opened Retrieval
  import opened Segments
  import opened Wrappers

  lemma CompiledAscending(z: Analyzer, equiv: EquivMap, clauses: seq<Clause>)
    ensures Ascending(Compiled(z, equiv, clauses).required, NatLess)
  {
    var q := if equiv == map[] then Literal(z, clauses) else Widened(Literal(z, clauses), equiv);
    SortSetSorted(q.required);
    hide SortSet, Literal, Widened, CanonPredicates, CanonConjunctions, CanonPhrases;
  }

  /** What a row was stored from: a text, and the analysis and equivalences in force at the time. */
  datatype Source = Source(input: string, analyzer: Analyzer, equiv: EquivMap)

  /** The reference parser accepts the text, and the row holds what its clauses compile to. */
  ghost predicate StoredFrom(body: Query, source: Source) {
    && RefSpec(source.input).Ok? && ForwardGraphs(source.analyzer) && ClassClosed(source.equiv)
    && body == Body(Compiled(source.analyzer, source.equiv, RefSpec(source.input).value))
  }

  ghost predicate AllStoredFrom(bodies: seq<Query>, sources: seq<Source>) {
    |bodies| == |sources| && forall x :: 0 <= x < |bodies| ==> StoredFrom(bodies[x], sources[x])
  }

  /** The reference's answer for the text a row came from. */
  ghost predicate RefAccepts(source: Source, v: TitleView) {
    RefSpec(source.input).Ok? && RefMatches(RefCompiled(source.analyzer, source.equiv, RefSpec(source.input).value), v)
  }

  /** Parse, compile and store a query text. Every row is still what the reference reads in its text. */
  method StoreText(segment: Segment, input: string, z: Analyzer, equiv: EquivMap, stats: Stats, theta: nat,
                   acceptClassD: bool, dedupBodies: bool, keepVisible: bool, hash: Query -> nat,
                   ghost sources: seq<Source>)
    returns (local: Option<nat>)
    requires segment.Valid() && segment.filter.None? && ForwardGraphs(z) && ClassClosed(equiv)
    requires AllStoredFrom(segment.bodies, sources)
    modifies segment
    ensures segment.Valid() && segment.filter.None? && segment.planned <= old(segment.planned) + stats.hot
    ensures local.None? <==>
              || RefSpec(input).Err?
              || Refused(Compiled(z, equiv, RefSpec(input).value), stats, theta, acceptClassD, keepVisible)
    ensures local.None? ==> segment.bodies == old(segment.bodies) && segment.alive == old(segment.alive)
    ensures local.Some? ==> local.value == |sources| && segment.alive == old(segment.alive) + [true]
    ensures AllStoredFrom(segment.bodies, if local.Some? then sources + [Source(input, z, equiv)] else sources)
  {
    hide EngineSpec, RefSpec, Compiled, Body, RowPlan, ForwardGraphs, ClassClosed, SearchablePhrases, Sound;
    var parsed := ParseWithLimits(input, DEFAULT_LIMITS);
    ParsersAgree(input);
    if parsed.Err? {
      return None;
    }
    var compiled := Extract(z, equiv, parsed.value);
    CompiledAscending(z, equiv, parsed.value);
    CompiledSound(z, equiv, parsed.value);
    local := segment.AddCompiled(compiled.Value(), stats, theta, acceptClassD, dedupBodies, keepVisible, hash);
  }

  /** A query that only a broad scan could find, and that is not admitted to it. */
  predicate Refused(q: Query, stats: Stats, theta: nat, acceptClassD: bool, keepVisible: bool) {
    RejectsClassD(RowPlan(q, stats, theta, keepVisible).class_, q, acceptClassD)
  }

  lemma BodyHolds(q: Query, v: TitleView)
    ensures Holds(Body(q), v) <==> Holds(q, v)
  {
    hide AllOccur, NoneOccurs, PredicateHolds, AnyIn, AllIn;
    assert PositiveFlat(Body(q), v.pos) <==> PositiveFlat(q, v.pos);
    assert NegativeFlat(Body(q), v.neg) <==> NegativeFlat(q, v.neg);
  }

  /** The reference's answer for a stored row is the meaning of its body. */
  lemma RowIsReference(body: Query, source: Source, v: TitleView)
    requires StoredFrom(body, source) && WellFormedView(v)
    ensures RefAccepts(source, v) <==> Holds(body, v)
  {
    hide WellFormedView, Holds, RefMatches, Compiled, RefCompiled, Body, ForwardGraphs, ClassClosed, RefSpec;
    BodyHolds(Compiled(source.analyzer, source.equiv, RefSpec(source.input).value), v);
    CompilerAgreesWithReference(source.analyzer, source.equiv, RefSpec(source.input).value, v);
  }

  /** Whatever the title shows and whatever the phrase searches can afford, a row on a lane that is read is checked and
      reached when the reference accepts the title for its text. */
  lemma NeverMissed(r: Rows, planned: set<FeatureId>, alive: seq<bool>, keep: nat -> bool, v: TitleView,
                    includeBroad: bool, x: nat, source: Source)
    requires RowsValid(r, planned) && WideProbe(v) && WellFormedView(v)
    requires x < |r.bodies| && StoredFrom(r.bodies[x], source) && RefAccepts(source, v)
    requires x < |alive| && alive[x] && keep(x) && x < |r.classes| && (includeBroad || !r.classes[x].IsOptIn())
    ensures BruteForce(r, alive, v, keep, includeBroad, x) && !Unshown(r, planned, v, x)
  {
    assert RowValid(r, planned, x);
    hide WellFormedView, RowsValid, WideProbe, RefAccepts, StoredFrom, Unshown, Shaped, SearchablePhrases, Holds,
      Accepts;
    RowIsReference(r.bodies[x], source, v);
    TrueMatchAccepted(r.bodies[x], v);
    TrueMatchShown(r, planned, v, x);
  }

  /** When no search for the row's phrases gives up, the reference decides: checked and reached iff it accepts. */
  lemma StoredTextIsFound(r: Rows, planned: set<FeatureId>, alive: seq<bool>, keep: nat -> bool, v: TitleView,
                          includeBroad: bool, x: nat, source: Source)
    requires RowsValid(r, planned) && WideProbe(v) && WellFormedView(v)
    requires x < |r.bodies| && StoredFrom(r.bodies[x], source)
    requires x < |alive| && alive[x] && keep(x) && x < |r.classes| && (includeBroad || !r.classes[x].IsOptIn())
    ensures Decided(r.bodies[x], v) ==>
              (BruteForce(r, alive, v, keep, includeBroad, x) && !Unshown(r, planned, v, x) <==> RefAccepts(source, v))
  {
    assert RowValid(r, planned, x);
    hide WellFormedView, RowsValid, RefAccepts, StoredFrom, Shaped, SearchablePhrases, Holds, Accepts, Decided,
      WideProbe, Unshown;
    RowIsReference(r.bodies[x], source, v);
    if Decided(r.bodies[x], v) { DecidedExact(r.bodies[x], v); }
    if RefAccepts(source, v) { NeverMissed(r, planned, alive, keep, v, includeBroad, x, source); }
  }

  /** What the read does with the row: it returns live rows of the lanes asked for, every one whose text the
      reference accepts, and beyond those only rows one of whose phrase searches gave up. */
  ghost predicate ReadOfText(live: bool, optIn: bool, includeBroad: bool, body: Query, source: Source, v: TitleView,
                             returned: bool) {
    && (returned ==> live && (includeBroad || !optIn))
    && (live && (includeBroad || !optIn) && RefAccepts(source, v) ==> returned)
    && (returned && Decided(body, v) ==> RefAccepts(source, v))
  }

  /** Reading a segment stored from texts, for any title whose arcs run forward inside it. */
  method ReadTexts(segment: Segment, ghost sources: seq<Source>, v: TitleView, pos: seq<FeatureId>,
                   probe: seq<FeatureId>, hot: set<FeatureId>, includeBroad: bool, keep: nat -> bool)
    returns (out: seq<nat>)
    requires segment.Valid() && segment.planned <= hot && WideProbe(v) && SortedView(v) && WellFormedView(v)
    requires SameFeatures(probe, v.probe) && SameFeatures(pos, v.pos)
    requires AllStoredFrom(segment.bodies, sources)
    ensures Distinct(out) && forall x :: x in out ==> x < |sources|
    ensures |segment.alive| == |segment.classes| == |segment.bodies| == |sources|
    ensures forall x :: 0 <= x < |sources| ==>
              ReadOfText(segment.alive[x] && keep(x), segment.classes[x].IsOptIn(), includeBroad, segment.bodies[x],
                         sources[x], v, x in out)
  {
    out := MatchTitle(segment, v, pos, probe, hot, includeBroad, keep);
    ghost var r, planned := segment.Stored(), segment.planned;
    assert RowsValid(r, planned) && |segment.alive| == |segment.bodies| == |segment.classes|;
    hide WellFormedView, WideProbe, SameFeatures, Decided, Unshown, StoredFrom, RefAccepts, Distinct, RowsValid,
      LanesValid, GroupsValid, BodiesValid, FilterValid, CountersValid, Accepts, RowKeysApart, Holds, SortedView;
    forall x: nat
      ensures x in out ==> x < |sources|
      ensures x < |sources| ==>
                ReadOfText(segment.alive[x] && keep(x), segment.classes[x].IsOptIn(), includeBroad, segment.bodies[x],
                           sources[x], v, x in out)
    {
      assert ReadOfRow(r, planned, segment.alive, v, keep, segment.sigKey, hot, includeBroad, x, x in out);
      if x < |sources| {
        RowOfText(r, planned, segment.alive, keep, v, segment.sigKey, hot, includeBroad, x, sources[x], x in out);
      }
    }
  }

  lemma RowOfText(r: Rows, planned: set<FeatureId>, alive: seq<bool>, keep: nat -> bool, v: TitleView, sigKey: SigKey,
                  hot: set<FeatureId>, includeBroad: bool, x: nat, source: Source, returned: bool)
    requires RowsValid(r, planned) && WideProbe(v) && WellFormedView(v)
    requires x < |r.bodies| && x < |alive| && x < |r.classes| && StoredFrom(r.bodies[x], source)
    requires ReadOfRow(r, planned, alive, v, keep, sigKey, hot, includeBroad, x, returned)
    ensures ReadOfText(alive[x] && keep(x), r.classes[x].IsOptIn(), includeBroad, r.bodies[x], source, v, returned)
  {
    assert RowValid(r, planned, x);
    hide WellFormedView, RowsValid, WideProbe, StoredFrom, RefAccepts, Decided, Unshown, Accepts, RowKeysApart, Holds,
      Shaped, SearchablePhrases;
    if alive[x] && keep(x) && (includeBroad || !r.classes[x].IsOptIn()) && RefAccepts(source, v) {
      NeverMissed(r, planned, alive, keep, v, includeBroad, x, source);
    }
    if returned && Decided(r.bodies[x], v) {
      RowIsReference(r.bodies[x], source, v);
      DecidedExact(r.bodies[x], v);
    }
  }
}
