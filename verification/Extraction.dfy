/** From parsed clauses to a compiled query, and from the same clauses to the reference
    predicate tree: the two accept the same titles, before and after equivalence expansion.
  */
module Extraction {
  import opened Dsl
  import opened Equivalences
  import opened Expansion
  import opened ExtractedQuery
  import opened Lists
  import opened Orders
  import opened Queries
  import PG = PhraseGraphs
  import PhraseReference

  /** Text analysis, shared by both sides: the features of a piece of text, the token graph of a
      quoted clause, and how often the stored queries use a feature. */
  datatype Analyzer = Analyzer(
    features: string -> seq<FeatureId>,
    graph: string -> PhraseGraph,
    freq: FeatureId -> nat)

  /** Arcs of an analyzed clause run forward inside it and carry labels. */
  ghost predicate ForwardGraphs(z: Analyzer) {
    forall text, a :: a in z.graph(text).arcs ==> KeptArc(z.graph(text).positions, a)
  }

  function JoinWords(words: seq<string>): string {
    if words == [] then ""
    else if |words| == 1 then words[0]
    else JoinWords(words[..|words| - 1]) + " " + words[|words| - 1]
  }

  // ---- members ----

  function Single(f: FeatureId): seq<FeatureId> { [f] }

  /** A conjunction of features, each a requirement of its own. */
  function MemberOf(fs: seq<FeatureId>): AnyOfMember {
    AnyOfMember(Map(Single, SortSet(fs)))
  }

  /** The members that analyze to something, in order. */
  function Terms(z: Analyzer, members: seq<string>): seq<AnyOfMember> {
    if members == [] then []
    else
      var fs := z.features(members[|members| - 1]);
      Terms(z, members[..|members| - 1]) + (if fs == [] then [] else [MemberOf(fs)])
  }

  lemma MemberOfHolds(fs: seq<FeatureId>, pos: set<FeatureId>)
    ensures MemberHolds(MemberOf(fs), pos) <==> AllIn(fs, pos)
    ensures fs != [] ==> FullMember(MemberOf(fs))
    ensures MemberOf(fs).requirements == [] <==> fs == []
  {
    SortSetMeaning(fs, pos);
    var m := MemberOf(fs);
    hide SortSet;
    forall r ensures r in m.requirements <==> exists f :: f in SortSet(fs) && Single(f) == r {
      MapMember(Single, SortSet(fs), r);
    }
    forall f ensures f in SortSet(fs) ==> Single(f) in m.requirements && (AnyIn(Single(f), pos) <==> f in pos) {
      assert f in Single(f);
    }
  }

  // ---- the retrieval proxy of a member ----

  function Firsts(requirements: seq<seq<FeatureId>>): seq<FeatureId> {
    if requirements == [] then []
    else
      var last := requirements[|requirements| - 1];
      Firsts(requirements[..|requirements| - 1]) + (if last == [] then [] else [last[0]])
  }

  function Flat(requirements: seq<seq<FeatureId>>): seq<FeatureId> {
    if requirements == [] then []
    else Flat(requirements[..|requirements| - 1]) + requirements[|requirements| - 1]
  }

  /** The first of the rarest. */
  function Rarest(fs: seq<FeatureId>, freq: FeatureId -> nat): (r: FeatureId)
    requires fs != []
    ensures r in fs && forall f :: f in fs ==> freq(r) <= freq(f)
  {
    var last := fs[|fs| - 1];
    if |fs| == 1 then last
    else
      var best := Rarest(fs[..|fs| - 1], freq);
      assert fs == fs[..|fs| - 1] + [last];
      if freq(last) < freq(best) then last else best
  }

  function ProxyOf(m: AnyOfMember, freq: FeatureId -> nat): seq<FeatureId> {
    var firsts := Firsts(m.requirements);
    if firsts == [] then [] else [Rarest(firsts, freq)]
  }

  function ProxyList(members: seq<AnyOfMember>, freq: FeatureId -> nat): seq<FeatureId> {
    if members == [] then []
    else ProxyList(members[..|members| - 1], freq) + ProxyOf(members[|members| - 1], freq)
  }

  lemma {:induction false} FirstsOfSingles(fs: seq<FeatureId>)
    ensures Firsts(Map(Single, fs)) == fs && Flat(Map(Single, fs)) == fs
  {
    if fs != [] {
      var rest := fs[..|fs| - 1];
      FirstsOfSingles(rest);
      var all := Map(Single, fs);
      assert all[..|all| - 1] == Map(Single, rest);
      assert fs == rest + [fs[|fs| - 1]];
    }
  }

  /** The proxy of a member is one of its features. */
  lemma ProxyOfMember(fs: seq<FeatureId>, freq: FeatureId -> nat) returns (f: FeatureId)
    requires fs != []
    ensures ProxyOf(MemberOf(fs), freq) == [f] && f in fs
    ensures [f] in MemberOf(fs).requirements
  {
    SortSetMeaning(fs, {});
    FirstsOfSingles(SortSet(fs));
    hide SortSet;
    f := Rarest(SortSet(fs), freq);
    SortSetMember(fs, f);
    MapMember(Single, SortSet(fs), [f]);
    assert Single(f) == [f];
  }

  lemma {:induction false} ProxyListMember(members: seq<AnyOfMember>, freq: FeatureId -> nat, x: FeatureId)
    ensures x in ProxyList(members, freq) <==> exists m :: m in members && x in ProxyOf(m, freq)
  {
    if members != [] {
      ProxyListMember(members[..|members| - 1], freq, x);
      assert members == members[..|members| - 1] + [members[|members| - 1]];
    }
  }

  /** Every member comes from a piece of text that analyzes to something. */
  ghost predicate FromText(members: seq<AnyOfMember>) {
    forall m :: m in members ==> exists fs :: fs != [] && m == MemberOf(fs)
  }

  lemma {:induction false} TermsFromText(z: Analyzer, members: seq<string>)
    ensures FromText(Terms(z, members))
  {
    if members != [] {
      TermsFromText(z, members[..|members| - 1]);
    }
  }

  // ---- the engine's extraction ----

  /** A query under construction and the run of bare words waiting to be analyzed together. */
  datatype Partial = Partial(query: Query, run: seq<string>)

  const NOTHING := Query([], [], [], 0, 0, [], [], [], [])

  function Flush(z: Analyzer, p: Partial): Partial {
    if p.run == [] then p
    else Partial(p.query.(required := p.query.required + z.features(JoinWords(p.run))), [])
  }

  function PushForbidden(q: Query, fs: seq<FeatureId>): Query {
    var sorted := SortSet(fs);
    if sorted == [] then q
    else if |sorted| == 1 then q.(forbidden := q.forbidden + sorted)
    else q.(forbiddenConjunctions := q.forbiddenConjunctions + [sorted])
  }

  function PushForbiddenMembers(z: Analyzer, q: Query, members: seq<string>): Query {
    if members == [] then q
    else PushForbidden(PushForbiddenMembers(z, q, members[..|members| - 1]), z.features(members[|members| - 1]))
  }

  function Width(m: AnyOfMember): nat { |m.requirements| }

  function Narrowest(members: seq<AnyOfMember>): nat {
    if members == [] then 0
    else if |members| == 1 then Width(members[0])
    else
      var least := Narrowest(members[..|members| - 1]);
      var last := Width(members[|members| - 1]);
      if last < least then last else least
  }

  predicate Compound(m: AnyOfMember) { Width(m) > 1 }

  predicate AnyCompound(members: seq<AnyOfMember>) {
    exists m :: m in members && Compound(m)
  }

  /** An any-of clause: one member is a conjunction, several are a group with a proxy per member,
      kept exactly when a member has more than one feature. */
  function PushAnyOf(z: Analyzer, q: Query, members: seq<string>): Query {
    var semantic := SortDedup(Terms(z, members), MemberLess);
    if semantic == [] then q
    else if |semantic| == 1 then q.(required := q.required + Flat(semantic[0].requirements))
    else
      var proxies := SortSet(ProxyList(semantic, z.freq));
      q.(semanticGroups := SaturatingAdd(q.semanticGroups, 1),
         semanticTerms := SaturatingAdd(q.semanticTerms, Narrowest(semantic)),
         anyof := if proxies == [] then q.anyof else q.anyof + [proxies],
         predicates := if AnyCompound(semantic) then q.predicates + [AnyOfPredicate(semantic)] else q.predicates)
  }

  function PushPhrase(z: Analyzer, q: Query, text: string, negated: bool): Query {
    var phrase := z.graph(text);
    if phrase.arcs == [] then q
    else if negated then q.(forbiddenPhrases := q.forbiddenPhrases + [phrase])
    else q.(requiredPhrases := q.requiredPhrases + [phrase])
  }

  /** Any clause but a positive bare word. */
  function PushClause(z: Analyzer, q: Query, c: Clause): Query {
    match c.atom
    case Term(word) => PushForbidden(q, z.features(word))
    case Phrase(text) => PushPhrase(z, q, text, c.negated)
    case AnyOf(members) => if c.negated then PushForbiddenMembers(z, q, members) else PushAnyOf(z, q, members)
  }

  function Push(z: Analyzer, p: Partial, c: Clause): Partial {
    if c.atom.Term? && !c.negated then p.(run := p.run + [c.atom.word])
    else
      var q := Flush(z, p).query;
      Partial(PushClause(z, q, c), [])
  }

  function Pushed(z: Analyzer, clauses: seq<Clause>): Partial {
    if clauses == [] then Partial(NOTHING, [])
    else Push(z, Pushed(z, clauses[..|clauses| - 1]), clauses[|clauses| - 1])
  }

  function Literal(z: Analyzer, clauses: seq<Clause>): Query {
    var q := Flush(z, Pushed(z, clauses)).query;
    q.(required := SortSet(q.required), forbidden := SortSet(q.forbidden))
  }

  /** Extraction, then the dictionary's equivalences. */
  function Compiled(z: Analyzer, equiv: EquivMap, clauses: seq<Clause>): Query {
    Expanded(Literal(z, clauses), equiv)
  }

  method Extract(z: Analyzer, equiv: EquivMap, clauses: seq<Clause>) returns (out: Extracted)
    ensures fresh(out) && out.Value() == Compiled(z, equiv, clauses)
  {
    var p := Partial(NOTHING, []);
    for n := 0 to |clauses|
      invariant p == Pushed(z, clauses[..n])
    {
      assert clauses[..n + 1][..n] == clauses[..n];
      hide Push;
      p := Push(z, p, clauses[n]);
    }
    assert clauses[..|clauses|] == clauses;
    var q := Flush(z, p).query;
    out := new Extracted(q.(required := SortSet(q.required), forbidden := SortSet(q.forbidden)));
    out.ExpandEquivalences(equiv);
  }

  // ---- the reference tree ----

  datatype RefClause =
    | RequiredTerm(term: AnyOfMember)
    | RequiredPhrase(phrase: PhraseGraph)
    | RequiredAnyOf(members: seq<AnyOfMember>)
    | ForbiddenTerm(term: AnyOfMember)
    | ForbiddenPhrase(phrase: PhraseGraph)
    | ForbiddenAnyOf(members: seq<AnyOfMember>)

  predicate TermMatches(term: AnyOfMember, features: set<FeatureId>) {
    term.requirements != [] && MemberHolds(term, features)
  }

  predicate AnyMatches(terms: seq<AnyOfMember>, features: set<FeatureId>) {
    exists t :: t in terms && TermMatches(t, features)
  }

  /** The reference's own phrase search follows forward arcs only. */
  ghost predicate RefOccurs(p: PhraseGraph, titlePositions: nat, title: seq<PG.PositionArc>) {
    PG.Occurs(PhraseReference.ForwardClause(p), titlePositions, PhraseReference.ForwardTitle(title, titlePositions))
  }

  ghost predicate ClauseHolds(c: RefClause, v: TitleView) {
    match c
    case RequiredTerm(term) => TermMatches(term, v.pos)
    case RequiredPhrase(phrase) => RefOccurs(phrase, v.posPositions, v.posArcs)
    case RequiredAnyOf(members) => AnyMatches(members, v.pos)
    case ForbiddenTerm(term) => !TermMatches(term, v.neg)
    case ForbiddenPhrase(phrase) => !RefOccurs(phrase, v.negPositions, v.negArcs)
    case ForbiddenAnyOf(members) => !AnyMatches(members, v.neg)
  }

  ghost predicate RefMatches(clauses: seq<RefClause>, v: TitleView) {
    forall c :: c in clauses ==> ClauseHolds(c, v)
  }

  /** The same tree with every phrase read as the path definition reads it. */
  ghost predicate ClauseMeans(c: RefClause, v: TitleView) {
    match c
    case RequiredTerm(term) => TermMatches(term, v.pos)
    case RequiredPhrase(phrase) => PG.Occurs(phrase, v.posPositions, v.posArcs)
    case RequiredAnyOf(members) => AnyMatches(members, v.pos)
    case ForbiddenTerm(term) => !TermMatches(term, v.neg)
    case ForbiddenPhrase(phrase) => !PG.Occurs(phrase, v.negPositions, v.negArcs)
    case ForbiddenAnyOf(members) => !AnyMatches(members, v.neg)
  }

  ghost predicate Meant(clauses: seq<RefClause>, v: TitleView) {
    forall c :: c in clauses ==> ClauseMeans(c, v)
  }

  datatype RefPartial = RefPartial(clauses: seq<RefClause>, run: seq<string>)

  function RefFlush(z: Analyzer, r: RefPartial): RefPartial {
    if r.run == [] then r
    else
      var fs := z.features(JoinWords(r.run));
      RefPartial(r.clauses + (if fs == [] then [] else [RequiredTerm(MemberOf(fs))]), [])
  }

  function RefClauses(z: Analyzer, c: Clause): seq<RefClause> {
    match c.atom
    case Term(word) =>
      var fs := z.features(word);
      if fs == [] then [] else [if c.negated then ForbiddenTerm(MemberOf(fs)) else RequiredTerm(MemberOf(fs))]
    case Phrase(text) =>
      var phrase := z.graph(text);
      if phrase.arcs == [] then [] else [if c.negated then ForbiddenPhrase(phrase) else RequiredPhrase(phrase)]
    case AnyOf(members) =>
      var terms := Terms(z, members);
      if terms == [] then [] else [if c.negated then ForbiddenAnyOf(terms) else RequiredAnyOf(terms)]
  }

  function RefPush(z: Analyzer, r: RefPartial, c: Clause): RefPartial {
    if c.atom.Term? && !c.negated then r.(run := r.run + [c.atom.word])
    else RefPartial(RefFlush(z, r).clauses + RefClauses(z, c), [])
  }

  function RefPushed(z: Analyzer, clauses: seq<Clause>): RefPartial {
    if clauses == [] then RefPartial([], [])
    else RefPush(z, RefPushed(z, clauses[..|clauses| - 1]), clauses[|clauses| - 1])
  }

  function RefLiteral(z: Analyzer, clauses: seq<Clause>): seq<RefClause> {
    RefFlush(z, RefPushed(z, clauses)).clauses
  }

  function WidenTerms(equiv: EquivMap, terms: seq<AnyOfMember>): seq<AnyOfMember> {
    Map(t => WidenMember(equiv, t), terms)
  }

  /** Only positive clauses are widened. */
  function WidenClause(equiv: EquivMap, c: RefClause): RefClause {
    match c
    case RequiredTerm(term) => RequiredTerm(WidenMember(equiv, term))
    case RequiredPhrase(phrase) => RequiredPhrase(WidenPhrase(equiv, phrase))
    case RequiredAnyOf(members) => RequiredAnyOf(WidenTerms(equiv, members))
    case _ => c
  }

  function RefCompiled(z: Analyzer, equiv: EquivMap, clauses: seq<Clause>): seq<RefClause> {
    var literal := RefLiteral(z, clauses);
    if equiv == map[] then literal else Map(c => WidenClause(equiv, c), literal)
  }

  // ---- agreement, one push at a time ----

  ghost predicate HoldsParts(q: Query, v: TitleView, more: bool, q': Query) {
    Holds(q', v) <==> Holds(q, v) && more
  }

  lemma MeantMore(cs: seq<RefClause>, more: seq<RefClause>, v: TitleView)
    ensures Meant(cs + more, v) <==> Meant(cs, v) && Meant(more, v)
  {
    hide ClauseMeans;
  }

  lemma MeantOne(c: RefClause, v: TitleView)
    ensures Meant([c], v) <==> ClauseMeans(c, v)
  {
    hide ClauseMeans;
    assert c in [c];
  }

  lemma RequireMore(q: Query, fs: seq<FeatureId>, v: TitleView)
    ensures HoldsParts(q, v, AllIn(fs, v.pos), q.(required := q.required + fs))
  {
    hide PredicateHolds, AnyIn, AllOccur, NoneOccurs, NegativeFlat;
    NegativeSame(q, q.(required := q.required + fs), v.neg);
  }

  lemma NegativeSame(q: Query, q': Query, neg: set<FeatureId>)
    requires q'.forbidden == q.forbidden && q'.forbiddenConjunctions == q.forbiddenConjunctions
    ensures NegativeFlat(q', neg) == NegativeFlat(q, neg)
  {
    hide AnyIn, AllIn;
  }

  lemma PositiveSame(q: Query, q': Query, pos: set<FeatureId>)
    requires q'.required == q.required && q'.anyof == q.anyof && q'.predicates == q.predicates
    ensures PositiveFlat(q', pos) == PositiveFlat(q, pos)
  {
    hide AnyIn, AllIn, PredicateHolds;
  }

  lemma FlushAgrees(z: Analyzer, p: Partial, r: RefPartial, v: TitleView)
    requires p.run == r.run && (Holds(p.query, v) <==> Meant(r.clauses, v))
    ensures Holds(Flush(z, p).query, v) <==> Meant(RefFlush(z, r).clauses, v)
  {
    hide Holds, Meant, MemberOf;
    if p.run != [] {
      var fs := z.features(JoinWords(p.run));
      RequireMore(p.query, fs, v);
      if fs == [] {
        assert r.clauses + [] == r.clauses;
        assert AllIn([], v.pos);
      } else {
        MeantMore(r.clauses, [RequiredTerm(MemberOf(fs))], v);
        MeantOne(RequiredTerm(MemberOf(fs)), v);
        MemberOfHolds(fs, v.pos);
      }
    }
  }

  lemma ForbidMore(q: Query, fs: seq<FeatureId>, v: TitleView)
    ensures HoldsParts(q, v, fs == [] || !AllIn(fs, v.neg), PushForbidden(q, fs))
  {
    var q' := PushForbidden(q, fs);
    SortSetMeaning(fs, v.neg);
    hide SortSet, PredicateHolds, AllOccur, NoneOccurs, PositiveFlat;
    PositiveSame(q, q', v.pos);
    ForbidFlat(q, SortSet(fs), v.neg);
  }

  lemma ForbidFlat(q: Query, sorted: seq<FeatureId>, neg: set<FeatureId>)
    ensures |sorted| == 1 ==> (NegativeFlat(q.(forbidden := q.forbidden + sorted), neg) <==>
              NegativeFlat(q, neg) && !AllIn(sorted, neg))
    ensures NegativeFlat(q.(forbiddenConjunctions := q.forbiddenConjunctions + [sorted]), neg) <==>
              NegativeFlat(q, neg) && !AllIn(sorted, neg)
  {
    if |sorted| == 1 {
      assert sorted == [sorted[0]];
      assert AnyIn(q.forbidden + sorted, neg) <==> AnyIn(q.forbidden, neg) || sorted[0] in neg by {
        if AnyIn(q.forbidden, neg) {
          var f :| f in q.forbidden && f in neg;
          assert f in q.forbidden + sorted;
        }
        assert sorted[0] in q.forbidden + sorted;
      }
      ConjunctionsSame(q, q.(forbidden := q.forbidden + sorted), neg);
    }
    var more := q.forbiddenConjunctions + [sorted];
    hide AllIn, AnyIn;
    if c :| c in q.forbiddenConjunctions && AllIn(c, neg) { assert c in more; }
    assert sorted in more;
    if c :| c in more && AllIn(c, neg) { assert c in q.forbiddenConjunctions || c == sorted; }
  }

  lemma ConjunctionsSame(q: Query, q': Query, neg: set<FeatureId>)
    requires q'.forbiddenConjunctions == q.forbiddenConjunctions
    ensures (exists c :: c in q'.forbiddenConjunctions && AllIn(c, neg)) <==>
              (exists c :: c in q.forbiddenConjunctions && AllIn(c, neg))
  {
    hide AllIn;
  }

  lemma {:induction false} ForbidMembers(z: Analyzer, q: Query, members: seq<string>, v: TitleView)
    ensures HoldsParts(q, v, !AnyMatches(Terms(z, members), v.neg), PushForbiddenMembers(z, q, members))
  {
    if members != [] {
      var rest := members[..|members| - 1];
      var fs := z.features(members[|members| - 1]);
      ForbidMembers(z, q, rest, v);
      hide Holds, PushForbidden, MemberOf, TermMatches;
      ForbidMore(PushForbiddenMembers(z, q, rest), fs, v);
      OneMoreTerm(Terms(z, rest), fs, v.neg);
    }
  }

  lemma OneMoreTerm(terms: seq<AnyOfMember>, fs: seq<FeatureId>, features: set<FeatureId>)
    ensures var more := terms + (if fs == [] then [] else [MemberOf(fs)]);
            AnyMatches(more, features) <==> AnyMatches(terms, features) || (fs != [] && AllIn(fs, features))
  {
    var more := terms + (if fs == [] then [] else [MemberOf(fs)]);
    MemberOfHolds(fs, features);
    hide MemberHolds, MemberOf, AllIn;
    if t :| t in terms && TermMatches(t, features) { assert t in more; }
    if fs != [] { assert MemberOf(fs) in more; }
  }

  lemma PhraseAgrees(z: Analyzer, q: Query, text: string, negated: bool, v: TitleView)
    ensures HoldsParts(q, v, Meant(RefClauses(z, Clause(negated, Phrase(text))), v),
                       PushPhrase(z, q, text, negated))
  {
    var phrase := z.graph(text);
    var q' := PushPhrase(z, q, text, negated);
    hide PositiveFlat, NegativeFlat, PG.Occurs;
    if phrase.arcs != [] {
      MeantOne(if negated then ForbiddenPhrase(phrase) else RequiredPhrase(phrase), v);
      PositiveSame(q, q', v.pos);
      NegativeSame(q, q', v.neg);
    }
  }

  /** The group's members, said without order or repetition. */
  lemma SemanticMembers(z: Analyzer, members: seq<string>, pos: set<FeatureId>)
    ensures var semantic := SortDedup(Terms(z, members), MemberLess);
            && FromText(semantic) && (semantic == [] <==> Terms(z, members) == [])
            && (AnyMatches(Terms(z, members), pos) <==> PredicateHolds(AnyOfPredicate(semantic), pos))
  {
    MemberOrder();
    TermsFromText(z, members);
    var terms := Terms(z, members);
    var semantic := SortDedup(terms, MemberLess);
    hide Terms, SortDedup, MemberHolds, MemberOf;
    forall m ensures m in semantic <==> m in terms { SortDedupMember(terms, MemberLess, m); }
    if semantic != [] { assert semantic[0] in terms; }
    if terms != [] { assert terms[0] in semantic; }
    forall m | m in terms ensures TermMatches(m, pos) <==> MemberHolds(m, pos) {
      var fs :| fs != [] && m == MemberOf(fs);
      MemberOfHolds(fs, pos);
    }
  }

  /** The proxies stand for the members; when every member is a single feature they are the members. */
  lemma ProxiesStand(semantic: seq<AnyOfMember>, freq: FeatureId -> nat, pos: set<FeatureId>)
    requires FromText(semantic)
    ensures var proxies := SortSet(ProxyList(semantic, freq));
            && Proxies(proxies, AnyOfPredicate(semantic))
            && (!AnyCompound(semantic) && AnyIn(proxies, pos) ==> PredicateHolds(AnyOfPredicate(semantic), pos))
            && (semantic != [] ==> proxies != [])
  {
    var list := ProxyList(semantic, freq);
    var proxies := SortSet(list);
    hide ProxyList, SortSet, MemberOf, ProxyOf, MemberHolds;
    forall x ensures x in proxies <==> exists m :: m in semantic && x in ProxyOf(m, freq) {
      SortSetMember(list, x);
      ProxyListMember(semantic, freq, x);
    }
    forall m | m in semantic
      ensures exists r :: r in m.requirements && forall f :: f in r ==> f in proxies
    {
      var fs :| fs != [] && m == MemberOf(fs);
      var f := ProxyOfMember(fs, freq);
      assert [f] in m.requirements && f in proxies;
    }
    if semantic != [] {
      var m := semantic[0];
      assert m in semantic;
      var fs :| fs != [] && m == MemberOf(fs);
      var f := ProxyOfMember(fs, freq);
      assert f in proxies;
    }
    if !AnyCompound(semantic) && AnyIn(proxies, pos) {
      var x :| x in proxies && x in pos;
      var m :| m in semantic && x in ProxyOf(m, freq);
      var fs :| fs != [] && m == MemberOf(fs);
      SimpleMember(m, fs, freq, x, pos);
    }
  }

  lemma SimpleMember(m: AnyOfMember, fs: seq<FeatureId>, freq: FeatureId -> nat, x: FeatureId, pos: set<FeatureId>)
    requires fs != [] && m == MemberOf(fs) && !Compound(m) && x in ProxyOf(m, freq) && x in pos
    ensures MemberHolds(m, pos)
  {
    var f := ProxyOfMember(fs, freq);
    assert [f] in m.requirements && |m.requirements| == 1;
    assert forall r :: r in m.requirements ==> r == [f];
    assert f in [f];
  }

  lemma GroupMore(q: Query, proxies: seq<FeatureId>, exact: seq<AnyOfPredicate>, v: TitleView, q': Query)
    requires q'.required == q.required && q'.anyof == q.anyof + [proxies] && q'.predicates == q.predicates + exact
    requires q'.forbidden == q.forbidden && q'.forbiddenConjunctions == q.forbiddenConjunctions
    requires q'.requiredPhrases == q.requiredPhrases && q'.forbiddenPhrases == q.forbiddenPhrases
    ensures HoldsParts(q, v, AnyIn(proxies, v.pos) && forall p :: p in exact ==> PredicateHolds(p, v.pos), q')
  {
    NegativeSame(q, q', v.neg);
    hide AnyIn, AllIn, PredicateHolds, NegativeFlat, AllOccur, NoneOccurs;
    assert proxies in q'.anyof;
    assert forall p :: p in q.predicates ==> p in q'.predicates;
    assert forall p :: p in exact ==> p in q'.predicates;
    assert forall g :: g in q.anyof ==> g in q'.anyof;
  }

  lemma AnyOfAgrees(z: Analyzer, q: Query, members: seq<string>, v: TitleView)
    ensures HoldsParts(q, v, Terms(z, members) == [] || AnyMatches(Terms(z, members), v.pos), PushAnyOf(z, q, members))
  {
    var semantic := SortDedup(Terms(z, members), MemberLess);
    SemanticMembers(z, members, v.pos);
    hide Holds, Terms, SortDedup, AnyMatches;
    if |semantic| == 1 {
      OneMember(semantic, v.pos);
      hide PredicateHolds, FromText;
      RequireMore(q, Flat(semantic[0].requirements), v);
    } else if semantic != [] {
      var proxies := SortSet(ProxyList(semantic, z.freq));
      var predicate_ := AnyOfPredicate(semantic);
      ProxiesStand(semantic, z.freq, v.pos);
      if PredicateHolds(predicate_, v.pos) {
        ProxyImplied(proxies, predicate_, v.pos);
      }
      hide PredicateHolds, FromText, ProxyList, SortSet, AnyCompound, Proxies, Narrowest, AnyIn;
      GroupMore(q, proxies, if AnyCompound(semantic) then [predicate_] else [], v, PushAnyOf(z, q, members));
    }
  }

  lemma OneMember(semantic: seq<AnyOfMember>, pos: set<FeatureId>)
    requires |semantic| == 1 && FromText(semantic)
    ensures AllIn(Flat(semantic[0].requirements), pos) <==> PredicateHolds(AnyOfPredicate(semantic), pos)
  {
    var m := semantic[0];
    assert m in semantic;
    var fs :| fs != [] && m == MemberOf(fs);
    FirstsOfSingles(SortSet(fs));
    SortSetMeaning(fs, pos);
    MemberOfHolds(fs, pos);
    hide MemberOf, MemberHolds, AllIn, SortSet;
    assert forall x :: x in semantic ==> x == m;
  }

  lemma PushAgrees(z: Analyzer, p: Partial, r: RefPartial, c: Clause, v: TitleView)
    requires p.run == r.run && (Holds(p.query, v) <==> Meant(r.clauses, v))
    ensures Push(z, p, c).run == RefPush(z, r, c).run
    ensures Holds(Push(z, p, c).query, v) <==> Meant(RefPush(z, r, c).clauses, v)
  {
    if !(c.atom.Term? && !c.negated) {
      FlushAgrees(z, p, r, v);
      hide Flush, RefFlush;
      MeantMore(RefFlush(z, r).clauses, RefClauses(z, c), v);
      ClauseAgrees(z, Flush(z, p).query, c, v);
      hide Holds, Meant, RefClauses, PushClause;
    }
  }

  lemma ClauseAgrees(z: Analyzer, q: Query, c: Clause, v: TitleView)
    requires !(c.atom.Term? && !c.negated)
    ensures HoldsParts(q, v, Meant(RefClauses(z, c), v), PushClause(z, q, c))
  {
    hide Holds, PushForbidden, PushForbiddenMembers, PushAnyOf, PushPhrase, MemberOf, Terms;
    match c.atom {
      case Term(word) =>
        var fs := z.features(word);
        ForbidMore(q, fs, v);
        MemberOfHolds(fs, v.neg);
        if fs != [] { MeantOne(ForbiddenTerm(MemberOf(fs)), v); }
      case Phrase(text) =>
        PhraseAgrees(z, q, text, c.negated, v);
        assert c == Clause(c.negated, Phrase(text));
      case AnyOf(members) =>
        var terms := Terms(z, members);
        if c.negated {
          ForbidMembers(z, q, members, v);
          if terms != [] { MeantOne(ForbiddenAnyOf(terms), v); }
        } else {
          AnyOfAgrees(z, q, members, v);
          if terms != [] { MeantOne(RequiredAnyOf(terms), v); }
        }
    }
  }

  lemma {:induction false} PushedAgrees(z: Analyzer, clauses: seq<Clause>, v: TitleView)
    ensures Pushed(z, clauses).run == RefPushed(z, clauses).run
    ensures Holds(Pushed(z, clauses).query, v) <==> Meant(RefPushed(z, clauses).clauses, v)
  {
    if clauses != [] {
      var rest := clauses[..|clauses| - 1];
      PushedAgrees(z, rest, v);
      hide Holds, Meant, Push, RefPush;
      PushAgrees(z, Pushed(z, rest), RefPushed(z, rest), clauses[|clauses| - 1], v);
    }
  }

  /** Before expansion, the compiled query and the tree's meaning accept the same titles. */
  lemma LiteralMeant(z: Analyzer, clauses: seq<Clause>, v: TitleView)
    ensures Holds(Literal(z, clauses), v) <==> Meant(RefLiteral(z, clauses), v)
  {
    PushedAgrees(z, clauses, v);
    var p, r := Pushed(z, clauses), RefPushed(z, clauses);
    hide Pushed, RefPushed;
    FlushAgrees(z, p, r, v);
    SortedAlike(Flush(z, p).query, v);
    hide Flush, RefFlush, Holds, Meant;
  }

  lemma SortedAlike(q: Query, v: TitleView)
    ensures Holds(q.(required := SortSet(q.required), forbidden := SortSet(q.forbidden)), v) <==> Holds(q, v)
  {
    SortSetMeaning(q.required, v.pos);
    SortSetMeaning(q.forbidden, v.neg);
    var q' := q.(required := SortSet(q.required), forbidden := SortSet(q.forbidden));
    ConjunctionsSame(q, q', v.neg);
    hide SortSet, AnyIn, AllIn, PredicateHolds, AllOccur, NoneOccurs;
  }

  // ---- what extraction guarantees ----

  ghost predicate Sound(q: Query) {
    FullQuery(q) && Backed(q)
  }

  lemma ForbidSound(q: Query, fs: seq<FeatureId>)
    requires Sound(q)
    ensures Sound(PushForbidden(q, fs))
  {
    hide SortSet, FullPredicate, FullPhrase, Proxies;
  }

  lemma {:induction false} ForbidMembersSound(z: Analyzer, q: Query, members: seq<string>)
    requires Sound(q)
    ensures Sound(PushForbiddenMembers(z, q, members))
  {
    if members != [] {
      ForbidMembersSound(z, q, members[..|members| - 1]);
      hide Sound, PushForbidden;
      ForbidSound(PushForbiddenMembers(z, q, members[..|members| - 1]), z.features(members[|members| - 1]));
    }
  }

  lemma SemanticFull(semantic: seq<AnyOfMember>)
    requires semantic != [] && FromText(semantic)
    ensures FullPredicate(AnyOfPredicate(semantic))
  {
    hide FullMember, MemberOf;
    forall m | m in semantic ensures FullMember(m) {
      var fs :| fs != [] && m == MemberOf(fs);
      MemberOfHolds(fs, {});
    }
  }

  lemma AnyOfSound(z: Analyzer, q: Query, members: seq<string>)
    requires Sound(q)
    ensures Sound(PushAnyOf(z, q, members))
  {
    var semantic := SortDedup(Terms(z, members), MemberLess);
    SemanticMembers(z, members, {});
    var q' := PushAnyOf(z, q, members);
    hide Terms, SortDedup, FromText, FullPhrase, FullPredicate, Proxies, Flat, PredicateHolds, Narrowest, AnyCompound;
    if |semantic| > 1 {
      var proxies := SortSet(ProxyList(semantic, z.freq));
      var exact := AnyOfPredicate(semantic);
      SemanticFull(semantic);
      ProxiesStand(semantic, z.freq, {});
      hide ProxyList, SortSet;
      forall p | p in q'.predicates
        ensures FullPredicate(p) && exists g :: g in q'.anyof && Proxies(g, p)
      {
        if p in q.predicates {
          var g :| g in q.anyof && Proxies(g, p);
          assert g in q'.anyof;
        } else {
          assert p == exact && proxies in q'.anyof;
        }
      }
    }
  }

  lemma PhraseSound(z: Analyzer, q: Query, text: string, negated: bool)
    requires ForwardGraphs(z) && Sound(q)
    ensures Sound(PushPhrase(z, q, text, negated))
  {
    var phrase := z.graph(text);
    hide FullPredicate, Proxies;
    if phrase.arcs != [] {
      assert phrase.arcs[0] in phrase.arcs;
      assert FullPhrase(phrase);
      hide FullPhrase;
    }
  }

  lemma FlushSound(z: Analyzer, p: Partial)
    requires Sound(p.query)
    ensures Sound(Flush(z, p).query)
  {
    hide FullPredicate, FullPhrase, Proxies;
  }

  lemma {:induction false} PushedSound(z: Analyzer, clauses: seq<Clause>)
    requires ForwardGraphs(z)
    ensures Sound(Pushed(z, clauses).query)
  {
    if clauses != [] {
      var p, c := Pushed(z, clauses[..|clauses| - 1]), clauses[|clauses| - 1];
      PushedSound(z, clauses[..|clauses| - 1]);
      hide Sound, Flush, PushForbidden, PushForbiddenMembers, PushAnyOf, PushPhrase, ForwardGraphs;
      FlushSound(z, p);
      var q := Flush(z, p).query;
      match c.atom {
        case Term(word) => ForbidSound(q, z.features(word));
        case Phrase(text) => PhraseSound(z, q, text, c.negated);
        case AnyOf(members) =>
          ForbidMembersSound(z, q, members);
          AnyOfSound(z, q, members);
      }
    }
  }

  /** Extraction never produces an empty part, and every exact any-of predicate gets a retrieval group. */
  lemma LiteralSound(z: Analyzer, clauses: seq<Clause>)
    requires ForwardGraphs(z)
    ensures Sound(Literal(z, clauses))
  {
    PushedSound(z, clauses);
    FlushSound(z, Pushed(z, clauses));
    hide Pushed, Flush, SortSet, FullPredicate, FullPhrase, Proxies;
  }

  // ---- agreement after expansion ----

  /** The title as an expanded query sees it. */
  function ClosedView(equiv: EquivMap, v: TitleView): TitleView {
    if equiv == map[] then v
    else v.(pos := Closure(equiv, v.pos), posArcs := ClosedArcs(equiv, v.posArcs))
  }

  lemma ExpandedHolds(q: Query, equiv: EquivMap, v: TitleView)
    requires FullQuery(q) && ClassClosed(equiv)
    ensures Holds(Expanded(q, equiv), v) <==> Holds(q, ClosedView(equiv, v))
  {
    hide FullQuery, ClassClosed, Expanded, MatchesFlat, AllOccur, NoneOccurs, ClosedArcs, Closure;
    ExpandedMeaning(q, equiv, v.pos, v.neg);
    ExpandedPhrases(q, equiv, v.posPositions, v.posArcs);
    ExpandedPhrases(q, equiv, v.negPositions, v.negArcs);
    if equiv == map[] { EmptyMapCloses(equiv, v.pos); }
  }

  lemma WidenTermMatches(equiv: EquivMap, term: AnyOfMember, pos: set<FeatureId>)
    requires ClassClosed(equiv)
    ensures TermMatches(WidenMember(equiv, term), pos) <==> TermMatches(term, Closure(equiv, pos))
  {
    WidenMemberMeaning(equiv, term, pos);
    hide MemberHolds, Widen, Closure, ClassClosed;
  }

  lemma WidenTermsMatch(equiv: EquivMap, terms: seq<AnyOfMember>, pos: set<FeatureId>)
    requires ClassClosed(equiv)
    ensures AnyMatches(WidenTerms(equiv, terms), pos) <==> AnyMatches(terms, Closure(equiv, pos))
  {
    var wide := WidenTerms(equiv, terms);
    forall t ensures t in wide <==> exists x :: x in terms && WidenMember(equiv, x) == t {
      MapMember(x => WidenMember(equiv, x), terms, t);
    }
    hide TermMatches, WidenMember, WidenTerms, Closure, ClassClosed;
    forall t ensures TermMatches(WidenMember(equiv, t), pos) <==> TermMatches(t, Closure(equiv, pos)) {
      WidenTermMatches(equiv, t, pos);
    }
  }

  lemma WidenClauseMeans(equiv: EquivMap, c: RefClause, v: TitleView)
    requires ClassClosed(equiv) && equiv != map[]
    ensures ClauseMeans(WidenClause(equiv, c), v) <==> ClauseMeans(c, ClosedView(equiv, v))
  {
    hide TermMatches, AnyMatches, WidenMember, WidenTerms, WidenPhrase, PG.Occurs, Closure, ClosedArcs, ClassClosed;
    match c {
      case RequiredTerm(term) => WidenTermMatches(equiv, term, v.pos);
      case RequiredPhrase(phrase) => WidenPhraseOccurs(equiv, phrase, v.posPositions, v.posArcs);
      case RequiredAnyOf(members) => WidenTermsMatch(equiv, members, v.pos);
      case _ =>
    }
  }

  lemma MeantExpanded(equiv: EquivMap, cs: seq<RefClause>, v: TitleView)
    requires ClassClosed(equiv) && equiv != map[]
    ensures Meant(Map(c => WidenClause(equiv, c), cs), v) <==> Meant(cs, ClosedView(equiv, v))
  {
    var wide := Map(c => WidenClause(equiv, c), cs);
    hide Map, ClauseMeans, WidenClause, ClosedView, ClassClosed;
    forall c ensures c in wide <==> exists x :: x in cs && WidenClause(equiv, x) == c {
      MapMember(x => WidenClause(equiv, x), cs, c);
    }
    forall c ensures ClauseMeans(WidenClause(equiv, c), v) <==> ClauseMeans(c, ClosedView(equiv, v)) {
      WidenClauseMeans(equiv, c, v);
    }
  }

  lemma CompiledMeant(z: Analyzer, equiv: EquivMap, clauses: seq<Clause>, v: TitleView)
    requires ForwardGraphs(z) && ClassClosed(equiv)
    ensures Holds(Compiled(z, equiv, clauses), v) <==> Meant(RefCompiled(z, equiv, clauses), v)
  {
    LiteralSound(z, clauses);
    hide Holds, Meant, Literal, RefLiteral, ClosedView, ClassClosed, ForwardGraphs, Map, WidenClause, FullQuery,
        Backed;
    ExpandedHolds(Literal(z, clauses), equiv, v);
    LiteralMeant(z, clauses, ClosedView(equiv, v));
    if equiv == map[] {
      EmptyView(equiv, v);
    } else {
      MeantExpanded(equiv, RefLiteral(z, clauses), v);
    }
  }

  // ---- the reference's own search ----

  /** Title arcs run forward inside the title. */
  ghost predicate WellFormedView(v: TitleView) {
    && (forall b :: b in v.posArcs ==> PhraseReference.ForwardEdge(b.start, b.end, v.posPositions))
    && (forall b :: b in v.negArcs ==> PhraseReference.ForwardEdge(b.start, b.end, v.negPositions))
  }

  ghost predicate ForwardPhrase(p: PhraseGraph) {
    forall a :: a in p.arcs ==> PhraseReference.ForwardEdge(a.start, a.end, p.positions)
  }

  ghost predicate ForwardTree(c: RefClause) {
    c.RequiredPhrase? || c.ForbiddenPhrase? ==> ForwardPhrase(c.phrase)
  }

  /** On a well-formed title the reference's search of a forward clause answers what the clause means. */
  lemma ClauseMeansHolds(c: RefClause, v: TitleView)
    requires WellFormedView(v) && ForwardTree(c)
    ensures ClauseHolds(c, v) <==> ClauseMeans(c, v)
  {
    if c.RequiredPhrase? {
      PhraseReference.OneLanguage(c.phrase, v.posPositions, v.posArcs);
    } else if c.ForbiddenPhrase? {
      PhraseReference.OneLanguage(c.phrase, v.negPositions, v.negArcs);
    }
    hide PG.Occurs, PhraseReference.ForwardClause, PhraseReference.ForwardTitle, TermMatches, AnyMatches;
  }

  lemma MeantIsMatched(cs: seq<RefClause>, v: TitleView)
    requires WellFormedView(v) && forall c :: c in cs ==> ForwardTree(c)
    ensures RefMatches(cs, v) <==> Meant(cs, v)
  {
    hide WellFormedView, ForwardTree, ClauseHolds, ClauseMeans;
    forall c | c in cs ensures ClauseHolds(c, v) <==> ClauseMeans(c, v) { ClauseMeansHolds(c, v); }
  }

  lemma ClausesForward(z: Analyzer, c: Clause)
    requires ForwardGraphs(z)
    ensures forall r :: r in RefClauses(z, c) ==> ForwardTree(r)
  {
    hide MemberOf, Terms;
    if c.atom.Phrase? {
      var p := z.graph(c.atom.text);
      forall a | a in p.arcs ensures PhraseReference.ForwardEdge(a.start, a.end, p.positions) {
        assert KeptArc(p.positions, a);
      }
    }
  }

  lemma FlushForward(z: Analyzer, r: RefPartial)
    requires forall c :: c in r.clauses ==> ForwardTree(c)
    ensures forall c :: c in RefFlush(z, r).clauses ==> ForwardTree(c)
  {
    hide MemberOf, ForwardPhrase;
  }

  lemma {:induction false} PushedForward(z: Analyzer, clauses: seq<Clause>)
    requires ForwardGraphs(z)
    ensures forall c :: c in RefPushed(z, clauses).clauses ==> ForwardTree(c)
  {
    if clauses != [] {
      PushedForward(z, clauses[..|clauses| - 1]);
      ClausesForward(z, clauses[|clauses| - 1]);
      FlushForward(z, RefPushed(z, clauses[..|clauses| - 1]));
      hide ForwardGraphs, ForwardTree, RefClauses, RefFlush;
    }
  }

  lemma WidenForward(equiv: EquivMap, c: RefClause)
    requires ForwardTree(c)
    ensures ForwardTree(WidenClause(equiv, c))
  {
    if c.RequiredPhrase? {
      var wide := WidenPhrase(equiv, c.phrase);
      forall a | a in wide.arcs ensures PhraseReference.ForwardEdge(a.start, a.end, wide.positions) {
        MapMember(x => WidenArc(equiv, x), c.phrase.arcs, a);
      }
    }
    hide WidenMember, WidenTerms;
  }

  /** Every phrase of the reference tree runs forward. */
  lemma CompiledForward(z: Analyzer, equiv: EquivMap, clauses: seq<Clause>)
    requires ForwardGraphs(z)
    ensures forall c :: c in RefLiteral(z, clauses) ==> ForwardTree(c)
    ensures forall c :: c in RefCompiled(z, equiv, clauses) ==> ForwardTree(c)
  {
    PushedForward(z, clauses);
    FlushForward(z, RefPushed(z, clauses));
    hide ForwardGraphs, ForwardTree, RefFlush, RefPushed, WidenClause, Map;
    if equiv != map[] {
      var literal := RefLiteral(z, clauses);
      forall c | c in Map(x => WidenClause(equiv, x), literal) ensures ForwardTree(c) {
        MapMember(x => WidenClause(equiv, x), literal, c);
        var x :| x in literal && WidenClause(equiv, x) == c;
        WidenForward(equiv, x);
      }
    }
  }

  /** Before expansion, the compiled query and the reference tree accept the same well-formed titles. */
  lemma LiteralAgrees(z: Analyzer, clauses: seq<Clause>, v: TitleView)
    requires ForwardGraphs(z) && WellFormedView(v)
    ensures Holds(Literal(z, clauses), v) <==> RefMatches(RefLiteral(z, clauses), v)
  {
    LiteralMeant(z, clauses, v);
    CompiledForward(z, map[], clauses);
    hide Holds, RefMatches, Meant, Literal, RefLiteral, RefCompiled, ForwardGraphs, WellFormedView, ForwardTree;
    MeantIsMatched(RefLiteral(z, clauses), v);
  }

  /** The compiled query and the reference predicate tree, run with the reference's own phrase search, accept the
      same well-formed titles, for every clause list, every analysis and every class-closed equivalence map. */
  lemma CompilerAgreesWithReference(z: Analyzer, equiv: EquivMap, clauses: seq<Clause>, v: TitleView)
    requires ForwardGraphs(z) && ClassClosed(equiv) && WellFormedView(v)
    ensures Holds(Compiled(z, equiv, clauses), v) <==> RefMatches(RefCompiled(z, equiv, clauses), v)
  {
    CompiledMeant(z, equiv, clauses, v);
    CompiledForward(z, equiv, clauses);
    hide Holds, RefMatches, Meant, Compiled, RefCompiled, RefLiteral, ForwardGraphs, WellFormedView, ForwardTree;
    MeantIsMatched(RefCompiled(z, equiv, clauses), v);
  }

  lemma EmptyView(equiv: EquivMap, v: TitleView)
    requires equiv == map[]
    ensures ClosedView(equiv, v) == v
  {
  }

  /** A compiled query has no empty part, keeps its retrieval groups, and can be searched for. */
  lemma CompiledSound(z: Analyzer, equiv: EquivMap, clauses: seq<Clause>)
    requires ForwardGraphs(z) && ClassClosed(equiv)
    ensures Sound(Compiled(z, equiv, clauses)) && SearchablePhrases(Compiled(z, equiv, clauses))
  {
    LiteralSound(z, clauses);
    var q := Literal(z, clauses);
    hide Literal, FullQuery, Backed, ClassClosed, ForwardGraphs;
    ExpandedMeaning(q, equiv, {}, {});
    ExpansionKeepsProxies(q, equiv);
    CanonicalSearchable(if equiv == map[] then q else Widened(q, equiv));
    hide CanonicalQuery, Widened, SearchablePhrases;
  }
}
