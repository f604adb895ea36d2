/** Compiled queries in integer form: what they mean for a title, and the canonical form they
    are stored in.
  */
module Queries {
  import opened Lists
  import opened Orders
  import opened PhraseReference
  import PhraseSteps
  import PG = PhraseGraphs

  type FeatureId = PG.FeatureId
  type PhraseArc = PG.PhraseArc
  type PhraseGraph = PG.PhraseGraph

  /** An AND of requirements, each an OR of equivalent features. */
  datatype AnyOfMember = AnyOfMember(requirements: seq<seq<FeatureId>>)

  /** An OR of members. */
  datatype AnyOfPredicate = AnyOfPredicate(members: seq<AnyOfMember>)

  datatype Query = Query(
    required: seq<FeatureId>,
    forbidden: seq<FeatureId>,
    anyof: seq<seq<FeatureId>>,
    semanticGroups: nat,
    semanticTerms: nat,
    predicates: seq<AnyOfPredicate>,
    forbiddenConjunctions: seq<seq<FeatureId>>,
    requiredPhrases: seq<PhraseGraph>,
    forbiddenPhrases: seq<PhraseGraph>)

  // ---- meaning ----

  predicate AnyIn(group: seq<FeatureId>, features: set<FeatureId>) {
    exists f :: f in group && f in features
  }

  predicate AllIn(group: seq<FeatureId>, features: set<FeatureId>) {
    forall f :: f in group ==> f in features
  }

  predicate MemberHolds(m: AnyOfMember, pos: set<FeatureId>) {
    forall r :: r in m.requirements ==> AnyIn(r, pos)
  }

  predicate PredicateHolds(p: AnyOfPredicate, pos: set<FeatureId>) {
    exists m :: m in p.members && MemberHolds(m, pos)
  }

  predicate PositiveFlat(q: Query, pos: set<FeatureId>) {
    && AllIn(q.required, pos)
    && (forall g :: g in q.anyof ==> AnyIn(g, pos))
    && (forall p :: p in q.predicates ==> PredicateHolds(p, pos))
  }

  predicate NegativeFlat(q: Query, neg: set<FeatureId>) {
    && !AnyIn(q.forbidden, neg)
    && !exists c :: c in q.forbiddenConjunctions && AllIn(c, neg)
  }

  /** The predicate over the two feature views of a title. */
  predicate MatchesFlat(q: Query, pos: set<FeatureId>, neg: set<FeatureId>) {
    PositiveFlat(q, pos) && NegativeFlat(q, neg)
  }

  // ---- what extraction hands over ----

  predicate FullMember(m: AnyOfMember) {
    m.requirements != [] && forall r :: r in m.requirements ==> r != []
  }

  predicate FullPredicate(p: AnyOfPredicate) {
    p.members != [] && forall m :: m in p.members ==> FullMember(m)
  }

  predicate FullPhrase(p: PhraseGraph) {
    && p.positions != 0 && p.arcs != []
    && forall a :: a in p.arcs ==> KeptArc(p.positions, a)
  }

  /** No part of the query is empty, and every phrase arc runs forward inside its phrase. */
  predicate FullQuery(q: Query) {
    && (forall p :: p in q.predicates ==> FullPredicate(p))
    && (forall c :: c in q.forbiddenConjunctions ==> c != [])
    && (forall p :: p in q.requiredPhrases ==> FullPhrase(p))
    && (forall p :: p in q.forbiddenPhrases ==> FullPhrase(p))
  }

  // ---- orders ----

  predicate ListLess(a: seq<FeatureId>, b: seq<FeatureId>) { LexLess(a, b, NatLess) }

  predicate MemberLess(a: AnyOfMember, b: AnyOfMember) { LexLess(a.requirements, b.requirements, ListLess) }

  predicate PredicateLess(a: AnyOfPredicate, b: AnyOfPredicate) { LexLess(a.members, b.members, MemberLess) }

  predicate ArcLess(a: PhraseArc, b: PhraseArc) {
    a.start < b.start || (a.start == b.start && (a.end < b.end ||
      (a.end == b.end && ListLess(a.alternatives, b.alternatives))))
  }

  predicate PhraseLess(a: PhraseGraph, b: PhraseGraph) {
    a.positions < b.positions || (a.positions == b.positions && LexLess(a.arcs, b.arcs, ArcLess))
  }

  lemma ListOrder()
    ensures StrictTotal(ListLess)
  {
    NatOrder();
    LexStrictTotal(NatLess, ListLess);
  }

  /** An order read off an order on an injective view. */
  lemma OrderThrough<S(!new), T(!new)>(view: S -> T, under: (T, T) -> bool, less: (S, S) -> bool)
    requires StrictTotal(under)
    requires forall a, b :: view(a) == view(b) ==> a == b
    requires forall a, b :: less(a, b) == under(view(a), view(b))
    ensures StrictTotal(less)
  {
    hide StrictTotal;
    forall a ensures !less(a, a) { Irreflexive(under, view(a)); }
    forall a, b, c | less(a, b) && less(b, c) ensures less(a, c) { Transitive(under, view(a), view(b), view(c)); }
    forall a, b | a != b ensures less(a, b) || less(b, a) { Total(under, view(a), view(b)); }
    IsStrictTotal(less);
  }

  lemma IsStrictTotal<T(!new)>(less: (T, T) -> bool)
    requires forall x :: !less(x, x)
    requires forall x, y, z :: less(x, y) && less(y, z) ==> less(x, z)
    requires forall x, y :: x != y ==> less(x, y) || less(y, x)
    ensures StrictTotal(less)
  {
  }

  lemma Irreflexive<T(!new)>(less: (T, T) -> bool, x: T)
    requires StrictTotal(less)
    ensures !less(x, x)
  {
  }

  lemma Transitive<T(!new)>(less: (T, T) -> bool, x: T, y: T, z: T)
    requires StrictTotal(less) && less(x, y) && less(y, z)
    ensures less(x, z)
  {
  }

  lemma Total<T(!new)>(less: (T, T) -> bool, x: T, y: T)
    requires StrictTotal(less) && x != y
    ensures less(x, y) || less(y, x)
  {
  }

  predicate RequirementsLess(a: seq<seq<FeatureId>>, b: seq<seq<FeatureId>>) { LexLess(a, b, ListLess) }

  predicate MembersLess(a: seq<AnyOfMember>, b: seq<AnyOfMember>) { LexLess(a, b, MemberLess) }

  predicate ArcsLess(a: seq<PhraseArc>, b: seq<PhraseArc>) { LexLess(a, b, ArcLess) }

  lemma MemberOrder()
    ensures StrictTotal(MemberLess)
  {
    ListOrder();
    LexStrictTotal(ListLess, RequirementsLess);
    OrderThrough((m: AnyOfMember) => m.requirements, RequirementsLess, MemberLess);
  }

  lemma PredicateOrder()
    ensures StrictTotal(PredicateLess)
  {
    MemberOrder();
    LexStrictTotal(MemberLess, MembersLess);
    OrderThrough((p: AnyOfPredicate) => p.members, MembersLess, PredicateLess);
  }

  lemma ArcOrder()
    ensures StrictTotal(ArcLess)
  {
    ListOrder();
    forall a: PhraseArc, b: PhraseArc, c: PhraseArc | ArcLess(a, b) && ArcLess(b, c)
      ensures ArcLess(a, c)
    {
      if ListLess(a.alternatives, b.alternatives) && ListLess(b.alternatives, c.alternatives) {
        Transitive(ListLess, a.alternatives, b.alternatives, c.alternatives);
      }
    }
    forall a: PhraseArc ensures !ArcLess(a, a) { Irreflexive(ListLess, a.alternatives); }
    forall a: PhraseArc, b: PhraseArc | a != b
      ensures ArcLess(a, b) || ArcLess(b, a)
    {
      if a.alternatives != b.alternatives { Total(ListLess, a.alternatives, b.alternatives); }
    }
  }

  lemma PhraseOrder()
    ensures StrictTotal(PhraseLess)
  {
    ArcOrder();
    LexStrictTotal(ArcLess, ArcsLess);
    forall a: PhraseGraph, b: PhraseGraph, c: PhraseGraph | PhraseLess(a, b) && PhraseLess(b, c)
      ensures PhraseLess(a, c)
    {
      if ArcsLess(a.arcs, b.arcs) && ArcsLess(b.arcs, c.arcs) {
        Transitive(ArcsLess, a.arcs, b.arcs, c.arcs);
      }
    }
    forall a: PhraseGraph ensures !PhraseLess(a, a) { Irreflexive(ArcsLess, a.arcs); }
    forall a: PhraseGraph, b: PhraseGraph | a != b
      ensures PhraseLess(a, b) || PhraseLess(b, a)
    {
      if a.arcs != b.arcs { Total(ArcsLess, a.arcs, b.arcs); }
    }
  }

  // ---- the canonical form ----

  function SortSet(s: seq<FeatureId>): seq<FeatureId> { SortDedup(s, NatLess) }

  predicate NonEmpty(s: seq<FeatureId>) { s != [] }

  predicate HasRequirements(m: AnyOfMember) { m.requirements != [] }

  predicate HasMembers(p: AnyOfPredicate) { p.members != [] }

  function CanonMember(m: AnyOfMember): AnyOfMember {
    AnyOfMember(Normalize(m.requirements, SortSet, NonEmpty, ListLess))
  }

  function CanonPredicate(p: AnyOfPredicate): AnyOfPredicate {
    AnyOfPredicate(Normalize(p.members, CanonMember, HasRequirements, MemberLess))
  }

  function CanonArc(a: PhraseArc): PhraseArc { a.(alternatives := SortSet(a.alternatives)) }

  predicate KeptArc(positions: nat, a: PhraseArc) { a.start < a.end <= positions && a.alternatives != [] }

  function CanonPhrase(p: PhraseGraph): PhraseGraph {
    PG.PhraseGraph(p.positions, Normalize(p.arcs, CanonArc, a => KeptArc(p.positions, a), ArcLess))
  }

  predicate KeptPhrase(p: PhraseGraph) { p.positions != 0 && p.arcs != [] }

  function CanonPhrases(ps: seq<PhraseGraph>): seq<PhraseGraph> {
    Normalize(ps, CanonPhrase, KeptPhrase, PhraseLess)
  }

  function CanonPredicates(ps: seq<AnyOfPredicate>): seq<AnyOfPredicate> {
    Normalize(ps, CanonPredicate, HasMembers, PredicateLess)
  }

  function CanonConjunctions(cs: seq<seq<FeatureId>>): seq<seq<FeatureId>> {
    Normalize(cs, SortSet, NonEmpty, ListLess)
  }

  function CanonicalQuery(q: Query): Query {
    q.(required := SortSet(q.required),
       forbidden := SortSet(q.forbidden),
       anyof := SortDedup(q.anyof, ListLess),
       predicates := CanonPredicates(q.predicates),
       forbiddenConjunctions := CanonConjunctions(q.forbiddenConjunctions),
       requiredPhrases := CanonPhrases(q.requiredPhrases),
       forbiddenPhrases := CanonPhrases(q.forbiddenPhrases))
  }

  // ---- the canonical form keeps the meaning ----

  lemma SortSetMember(s: seq<FeatureId>, x: FeatureId)
    ensures x in SortSet(s) <==> x in s
  {
    NatOrder();
    SortDedupMember(s, NatLess, x);
  }

  lemma SortSetMeaning(s: seq<FeatureId>, features: set<FeatureId>)
    ensures AnyIn(SortSet(s), features) == AnyIn(s, features)
    ensures AllIn(SortSet(s), features) == AllIn(s, features)
    ensures SortSet(s) == [] <==> s == []
  {
    hide SortSet;
    forall x ensures x in SortSet(s) <==> x in s { SortSetMember(s, x); }
    if s != [] { assert s[0] in SortSet(s); }
    if SortSet(s) != [] { assert SortSet(s)[0] in s; }
  }

  // What canonicalizing does to any query: empty requirements, members that ask for nothing and predicates left
  // without a member disappear, and so do empty conjunctions.

  predicate Asks(m: AnyOfMember) {
    exists r :: r in m.requirements && r != []
  }

  predicate LooselyHolds(m: AnyOfMember, pos: set<FeatureId>) {
    forall r :: r in m.requirements && r != [] ==> AnyIn(r, pos)
  }

  predicate AsksAny(p: AnyOfPredicate) {
    exists m :: m in p.members && Asks(m)
  }

  predicate LoosePredicate(p: AnyOfPredicate, pos: set<FeatureId>) {
    AsksAny(p) ==> exists m :: m in p.members && Asks(m) && LooselyHolds(m, pos)
  }

  lemma CanonMemberExact(m: AnyOfMember, pos: set<FeatureId>)
    ensures HasRequirements(CanonMember(m)) <==> Asks(m)
    ensures MemberHolds(CanonMember(m), pos) <==> LooselyHolds(m, pos)
    ensures forall r :: r in CanonMember(m).requirements ==> r != []
  {
    ListOrder();
    hide SortSet, AnyIn, Normalize, ListLess;
    var c := CanonMember(m);
    forall r ensures r in m.requirements && r != [] ==>
        SortSet(r) in c.requirements && AnyIn(SortSet(r), pos) == AnyIn(r, pos) {
      SortSetMeaning(r, pos);
      NormalizeMember(m.requirements, SortSet, NonEmpty, ListLess, SortSet(r));
    }
    forall r | r in c.requirements ensures r != [] && exists x :: x in m.requirements && x != [] && SortSet(x) == r {
      NormalizeMember(m.requirements, SortSet, NonEmpty, ListLess, r);
      SortSetMeaning([], pos);
    }
    if c.requirements != [] { assert c.requirements[0] in c.requirements; }
  }

  lemma CanonPredicateExact(p: AnyOfPredicate, pos: set<FeatureId>)
    ensures HasMembers(CanonPredicate(p)) <==> AsksAny(p)
    ensures PredicateHolds(CanonPredicate(p), pos) <==> exists m :: m in p.members && Asks(m) && LooselyHolds(m, pos)
    ensures forall m :: m in CanonPredicate(p).members ==> FullMember(m)
  {
    MemberOrder();
    hide CanonMember, MemberHolds, Normalize, MemberLess, LooselyHolds, Asks;
    var c := CanonPredicate(p);
    forall m
      ensures m in p.members && Asks(m) ==> CanonMember(m) in c.members
      ensures MemberHolds(CanonMember(m), pos) == LooselyHolds(m, pos)
    {
      CanonMemberExact(m, pos);
      NormalizeMember(p.members, CanonMember, HasRequirements, MemberLess, CanonMember(m));
    }
    forall m | m in c.members ensures FullMember(m) && exists x :: x in p.members && Asks(x) && CanonMember(x) == m {
      NormalizeMember(p.members, CanonMember, HasRequirements, MemberLess, m);
      var x :| x in p.members && CanonMember(x) == m && HasRequirements(m);
      CanonMemberExact(x, pos);
    }
    if c.members != [] { assert c.members[0] in c.members; }
  }

  lemma CanonPredicatesExact(ps: seq<AnyOfPredicate>, pos: set<FeatureId>)
    ensures (forall p :: p in CanonPredicates(ps) ==> PredicateHolds(p, pos)) <==>
              (forall p :: p in ps ==> LoosePredicate(p, pos))
    ensures forall p :: p in CanonPredicates(ps) ==> FullPredicate(p)
  {
    PredicateOrder();
    hide CanonPredicate, PredicateHolds, Normalize, PredicateLess, AsksAny, Asks, LooselyHolds, FullMember;
    var cs := CanonPredicates(ps);
    forall p
      ensures p in ps && AsksAny(p) ==> CanonPredicate(p) in cs
      ensures AsksAny(p) ==> (PredicateHolds(CanonPredicate(p), pos) <==> LoosePredicate(p, pos))
    {
      CanonPredicateExact(p, pos);
      NormalizeMember(ps, CanonPredicate, HasMembers, PredicateLess, CanonPredicate(p));
    }
    forall p | p in cs ensures FullPredicate(p) && exists x :: x in ps && AsksAny(x) && CanonPredicate(x) == p {
      NormalizeMember(ps, CanonPredicate, HasMembers, PredicateLess, p);
      var x :| x in ps && CanonPredicate(x) == p && HasMembers(p);
      CanonPredicateExact(x, pos);
    }
  }

  lemma CanonConjunctionsExact(cs: seq<seq<FeatureId>>, neg: set<FeatureId>)
    ensures forall c :: c in CanonConjunctions(cs) ==> c != []
    ensures (exists c :: c in CanonConjunctions(cs) && AllIn(c, neg)) <==>
              (exists c :: c in cs && c != [] && AllIn(c, neg))
  {
    ListOrder();
    hide SortSet, AllIn, Normalize, ListLess;
    var ns := CanonConjunctions(cs);
    forall c ensures c in cs && c != [] ==> SortSet(c) in ns && AllIn(SortSet(c), neg) == AllIn(c, neg) {
      SortSetMeaning(c, neg);
      NormalizeMember(cs, SortSet, NonEmpty, ListLess, SortSet(c));
    }
    forall c | c in ns ensures c != [] && exists x :: x in cs && x != [] && SortSet(x) == c {
      NormalizeMember(cs, SortSet, NonEmpty, ListLess, c);
      SortSetMeaning([], neg);
    }
  }

  lemma CanonAnyOfMeaning(groups: seq<seq<FeatureId>>, pos: set<FeatureId>)
    ensures (forall g :: g in SortDedup(groups, ListLess) ==> AnyIn(g, pos)) <==>
              (forall g :: g in groups ==> AnyIn(g, pos))
  {
    ListOrder();
    hide AnyIn, SortDedup, ListLess;
    forall g ensures g in SortDedup(groups, ListLess) <==> g in groups { SortDedupMember(groups, ListLess, g); }
  }

  /** What the canonical form of any query accepts, in terms of the query. */
  lemma CanonicalExactly(q: Query, pos: set<FeatureId>, neg: set<FeatureId>)
    ensures PositiveFlat(CanonicalQuery(q), pos) <==>
              && AllIn(q.required, pos) && (forall g :: g in q.anyof ==> AnyIn(g, pos))
              && (forall p :: p in q.predicates ==> LoosePredicate(p, pos))
    ensures NegativeFlat(CanonicalQuery(q), neg) <==>
              !AnyIn(q.forbidden, neg) && !exists c :: c in q.forbiddenConjunctions && c != [] && AllIn(c, neg)
  {
    hide SortSet, AnyIn, AllIn, SortDedup, PredicateHolds, LoosePredicate, CanonPredicates, CanonConjunctions,
        CanonPhrases, FullPredicate;
    SortSetMeaning(q.required, pos);
    SortSetMeaning(q.forbidden, neg);
    CanonAnyOfMeaning(q.anyof, pos);
    CanonPredicatesExact(q.predicates, pos);
    CanonConjunctionsExact(q.forbiddenConjunctions, neg);
  }

  /** A member with an empty requirement asks for nothing else. */
  predicate SensibleMember(m: AnyOfMember) {
    m.requirements != [] && ([] in m.requirements ==> !Asks(m))
  }

  predicate SensiblePredicate(p: AnyOfPredicate) {
    AsksAny(p) && forall m :: m in p.members ==> SensibleMember(m)
  }

  /** A query without predicates, members or conjunctions that are empty, and without half-empty members. */
  predicate SensibleQuery(q: Query) {
    (forall p :: p in q.predicates ==> SensiblePredicate(p)) && (forall c :: c in q.forbiddenConjunctions ==> c != [])
  }

  lemma SensibleMeaning(p: AnyOfPredicate, pos: set<FeatureId>)
    requires SensiblePredicate(p)
    ensures LoosePredicate(p, pos) <==> PredicateHolds(p, pos)
  {
    forall m | m in p.members
      ensures Asks(m) && LooselyHolds(m, pos) <==> MemberHolds(m, pos)
    {
      assert SensibleMember(m) && m.requirements[0] in m.requirements;
      if [] in m.requirements { assert !AnyIn([], pos); }
    }
    hide Asks, LooselyHolds, MemberHolds;
  }

  lemma FullIsSensible(q: Query)
    requires FullQuery(q)
    ensures SensibleQuery(q)
  {
    forall p | p in q.predicates
      ensures SensiblePredicate(p)
    {
      assert FullPredicate(p);
      forall m | m in p.members ensures SensibleMember(m) &&
          Asks(m) { assert FullMember(m) && m.requirements[0] in m.requirements; }
      assert p.members[0] in p.members;
      hide Asks;
    }
  }

  /** A sensible query and its canonical form accept the same titles. */
  lemma CanonicalMeaning(q: Query, pos: set<FeatureId>, neg: set<FeatureId>)
    requires SensibleQuery(q)
    ensures PositiveFlat(CanonicalQuery(q), pos) == PositiveFlat(q, pos)
    ensures NegativeFlat(CanonicalQuery(q), neg) == NegativeFlat(q, neg)
    ensures MatchesFlat(CanonicalQuery(q), pos, neg) == MatchesFlat(q, pos, neg)
  {
    forall p | p in q.predicates ensures LoosePredicate(p, pos) <==> PredicateHolds(p, pos) { SensibleMeaning(p, pos); }
    CanonicalExactly(q, pos, neg);
    hide AnyIn, AllIn, PredicateHolds, LoosePredicate, CanonicalQuery, SensiblePredicate;
  }

  // ---- phrases ----

  lemma CanonPhraseArcs(p: PhraseGraph, a: PhraseArc)
    ensures a in CanonPhrase(p).arcs <==> KeptArc(p.positions, a) && exists x :: x in p.arcs && CanonArc(x) == a
  {
    ArcOrder();
    NormalizeMember(p.arcs, CanonArc, a => KeptArc(p.positions, a), ArcLess, a);
  }

  lemma CanonPhraseSteps(p: PhraseGraph, title: seq<PG.PositionArc>)
    requires FullPhrase(p)
    ensures PhraseSteps.StepsWithin(p, title, CanonPhrase(p), title)
    ensures PhraseSteps.StepsWithin(CanonPhrase(p), title, p, title)
  {
    var c := CanonPhrase(p);
    hide CanonPhrase, SortSet;
    forall s, t | StepsTo(p, title, s, t)
      ensures StepsTo(c, title, s, t)
    {
      var a, b :| a in p.arcs && b in title && a.start == s.0 && b.start == s.1 && b.feature in a.alternatives &&
          t == (a.end, b.end);
      CanonPhraseArcs(p, CanonArc(a));
      SortSetMember(a.alternatives, b.feature);
      SortSetMeaning(a.alternatives, {});
      assert CanonArc(a) in c.arcs;
    }
    forall s, t | StepsTo(c, title, s, t)
      ensures StepsTo(p, title, s, t)
    {
      var a, b :| a in c.arcs && b in title && a.start == s.0 && b.start == s.1 && b.feature in a.alternatives &&
          t == (a.end, b.end);
      CanonPhraseArcs(p, a);
      var x :| x in p.arcs && CanonArc(x) == a;
      SortSetMember(x.alternatives, b.feature);
    }
  }

  lemma CanonPhraseFull(p: PhraseGraph)
    requires FullPhrase(p)
    ensures FullPhrase(CanonPhrase(p))
  {
    var c := CanonPhrase(p);
    hide CanonPhrase, SortSet;
    forall a | a in c.arcs ensures KeptArc(p.positions, a) { CanonPhraseArcs(p, a); }
    var first := p.arcs[0];
    assert first in p.arcs && KeptArc(p.positions, first);
    SortSetMeaning(first.alternatives, {});
    CanonPhraseArcs(p, CanonArc(first));
    assert c.positions == p.positions by { CanonPhrasePositions(p); }
  }

  lemma CanonPhrasePositions(p: PhraseGraph)
    ensures CanonPhrase(p).positions == p.positions
  {
  }

  /** A phrase and its canonical form occur in the same titles. */
  lemma CanonPhraseOccurs(p: PhraseGraph, titlePositions: nat, title: seq<PG.PositionArc>)
    requires FullPhrase(p)
    ensures FullPhrase(CanonPhrase(p))
    ensures PG.Occurs(CanonPhrase(p), titlePositions, title) <==> PG.Occurs(p, titlePositions, title)
  {
    CanonPhraseSteps(p, title);
    CanonPhraseFull(p);
    CanonPhrasePositions(p);
    hide CanonPhrase;
    PhraseSteps.SameSteps(p, title, CanonPhrase(p), title, titlePositions);
  }

  /** The canonical form is what the searches rely on. */
  lemma CanonPhraseSorted(p: PhraseGraph)
    ensures PG.Canonical(CanonPhrase(p))
  {
    ArcOrder();
    var c := CanonPhrase(p);
    SortDedupListing(Filter(a => KeptArc(p.positions, a), Map(CanonArc, p.arcs)), ArcLess);
    assert Ascending(c.arcs, ArcLess);
    hide CanonPhrase, SortSet;
    forall i | 0 <= i < |c.arcs|
      ensures PG.Sorted(c.arcs[i].alternatives)
    {
      CanonPhraseArcs(p, c.arcs[i]);
      var x :| x in p.arcs && CanonArc(x) == c.arcs[i];
      SortSetSorted(x.alternatives);
    }
  }

  lemma SortSetSorted(s: seq<FeatureId>)
    ensures Ascending(SortSet(s), NatLess) && PG.Sorted(SortSet(s)) && SortSet(SortSet(s)) == SortSet(s)
  {
    NatOrder();
    SortDedupListing(s, NatLess);
    SortDedupFixed(SortSet(s), NatLess);
  }

  ghost predicate AllOccur(ps: seq<PhraseGraph>, titlePositions: nat, title: seq<PG.PositionArc>) {
    forall p :: p in ps ==> PG.Occurs(p, titlePositions, title)
  }

  ghost predicate NoneOccurs(ps: seq<PhraseGraph>, titlePositions: nat, title: seq<PG.PositionArc>) {
    forall p :: p in ps ==> !PG.Occurs(p, titlePositions, title)
  }

  lemma CanonPhrasesMeaning(ps: seq<PhraseGraph>, titlePositions: nat, title: seq<PG.PositionArc>)
    requires forall p :: p in ps ==> FullPhrase(p)
    ensures forall p :: p in CanonPhrases(ps) ==> FullPhrase(p)
    ensures AllOccur(CanonPhrases(ps), titlePositions, title) <==> AllOccur(ps, titlePositions, title)
    ensures NoneOccurs(CanonPhrases(ps), titlePositions, title) <==> NoneOccurs(ps, titlePositions, title)
  {
    PhraseOrder();
    hide CanonPhrase, PG.Occurs, Normalize, PhraseLess, FullPhrase;
    var cs := CanonPhrases(ps);
    forall p
      ensures p in ps ==> CanonPhrase(p) in cs && FullPhrase(CanonPhrase(p))
      ensures p in ps ==> (PG.Occurs(CanonPhrase(p), titlePositions, title) <==> PG.Occurs(p, titlePositions, title))
    {
      if p in ps {
        CanonPhraseOccurs(p, titlePositions, title);
        FullPhraseKept(CanonPhrase(p));
        NormalizeMember(ps, CanonPhrase, KeptPhrase, PhraseLess, CanonPhrase(p));
      }
    }
    forall p | p in cs ensures exists x :: x in ps && CanonPhrase(x) == p {
      NormalizeMember(ps, CanonPhrase, KeptPhrase, PhraseLess, p);
    }
  }

  lemma FullPhraseKept(p: PhraseGraph)
    requires FullPhrase(p)
    ensures KeptPhrase(p)
  {
  }

  lemma CanonPhrasesSorted(ps: seq<PhraseGraph>)
    ensures forall p :: p in CanonPhrases(ps) ==> PG.Canonical(p)
  {
    PhraseOrder();
    hide CanonPhrase, PG.Canonical, Normalize, PhraseLess;
    forall p | p in CanonPhrases(ps)
      ensures PG.Canonical(p)
    {
      NormalizeMember(ps, CanonPhrase, KeptPhrase, PhraseLess, p);
      var x :| x in ps && CanonPhrase(x) == p;
      CanonPhraseSorted(x);
    }
  }

  // ---- writing the canonical form twice ----

  lemma CanonMemberTwice(m: AnyOfMember)
    ensures CanonMember(CanonMember(m)) == CanonMember(m)
  {
    ListOrder();
    forall s ensures SortSet(SortSet(s)) == SortSet(s) { SortSetSorted(s); }
    NormalizeIdempotent(m.requirements, SortSet, NonEmpty, ListLess);
  }

  lemma CanonPredicateTwice(p: AnyOfPredicate)
    ensures CanonPredicate(CanonPredicate(p)) == CanonPredicate(p)
  {
    MemberOrder();
    forall m ensures CanonMember(CanonMember(m)) == CanonMember(m) { CanonMemberTwice(m); }
    hide CanonMember;
    NormalizeIdempotent(p.members, CanonMember, HasRequirements, MemberLess);
  }

  lemma CanonPhraseTwice(p: PhraseGraph)
    ensures CanonPhrase(CanonPhrase(p)) == CanonPhrase(p)
  {
    ArcOrder();
    forall a ensures CanonArc(CanonArc(a)) == CanonArc(a) { SortSetSorted(a.alternatives); }
    hide CanonArc;
    NormalizeIdempotent(p.arcs, CanonArc, a => KeptArc(p.positions, a), ArcLess);
  }

  lemma CanonListsTwice(q: Query)
    ensures CanonPredicates(CanonPredicates(q.predicates)) == CanonPredicates(q.predicates)
    ensures CanonConjunctions(CanonConjunctions(q.forbiddenConjunctions)) == CanonConjunctions(q.forbiddenConjunctions)
  {
    PredicateOrder();
    ListOrder();
    forall p ensures CanonPredicate(CanonPredicate(p)) == CanonPredicate(p) { CanonPredicateTwice(p); }
    forall s ensures SortSet(SortSet(s)) == SortSet(s) { SortSetSorted(s); }
    hide CanonPredicate, SortSet;
    NormalizeIdempotent(q.predicates, CanonPredicate, HasMembers, PredicateLess);
    NormalizeIdempotent(q.forbiddenConjunctions, SortSet, NonEmpty, ListLess);
  }

  lemma CanonPhrasesTwice(ps: seq<PhraseGraph>)
    ensures CanonPhrases(CanonPhrases(ps)) == CanonPhrases(ps)
  {
    PhraseOrder();
    forall p ensures CanonPhrase(CanonPhrase(p)) == CanonPhrase(p) { CanonPhraseTwice(p); }
    hide CanonPhrase;
    NormalizeIdempotent(ps, CanonPhrase, KeptPhrase, PhraseLess);
  }

  /** The canonical form of any query, well-formed or not, is its own canonical form. */
  lemma CanonicalTwice(q: Query)
    ensures CanonicalQuery(CanonicalQuery(q)) == CanonicalQuery(q)
  {
    SortSetSorted(q.required);
    SortSetSorted(q.forbidden);
    ListOrder();
    SortDedupListing(q.anyof, ListLess);
    SortDedupFixed(SortDedup(q.anyof, ListLess), ListLess);
    CanonListsTwice(q);
    CanonPhrasesTwice(q.requiredPhrases);
    CanonPhrasesTwice(q.forbiddenPhrases);
    hide SortSet, SortDedup, CanonPredicates, CanonConjunctions, CanonPhrases;
  }

  lemma CanonicalFull(q: Query)
    requires FullQuery(q)
    ensures FullQuery(CanonicalQuery(q))
  {
    hide PredicateHolds, FullPredicate, FullPhrase, CanonPredicates, CanonConjunctions, CanonPhrases, SortSet,
        SortDedup;
    CanonPredicatesExact(q.predicates, {});
    CanonConjunctionsExact(q.forbiddenConjunctions, {});
    CanonPhrasesMeaning(q.requiredPhrases, 0, []);
    CanonPhrasesMeaning(q.forbiddenPhrases, 0, []);
  }

  /** Dropping empty parts is not free: a query with an empty requirement accepts nothing, and its
      canonical form accepts a title. */
  lemma EmptyRequirementSeparates(f: FeatureId)
    ensures var q := Query([], [], [], 0, 0, [AnyOfPredicate([AnyOfMember([[], [f]])])], [], [], []);
            !SensibleQuery(q) && !MatchesFlat(q, {f}, {}) && MatchesFlat(CanonicalQuery(q), {f}, {})
  {
    var m := AnyOfMember([[], [f]]);
    var p := AnyOfPredicate([m]);
    assert [f] in m.requirements && m in p.members && !SensibleMember(m);
    assert [] in m.requirements && !AnyIn([], {f});
    ListOrder();
    var c := CanonMember(m);
    SortSetOne(f);
    forall r | r in c.requirements ensures r == [f] {
      NormalizeMember(m.requirements, SortSet, NonEmpty, ListLess, r);
    }
    NormalizeMember(m.requirements, SortSet, NonEmpty, ListLess, [f]);
    assert [f] in m.requirements && f in [f];
    assert MemberHolds(c, {f}) && HasRequirements(c);
    MemberOrder();
    NormalizeMember(p.members, CanonMember, HasRequirements, MemberLess, c);
    assert m in p.members && c in CanonPredicate(p).members;
    PredicateOrder();
    assert p in [p] && m in p.members && [] in m.requirements;
    forall x | x in CanonPredicates([p]) ensures PredicateHolds(x, {f}) {
      NormalizeMember([p], CanonPredicate, HasMembers, PredicateLess, x);
    }
  }

  lemma SortSetOne(f: FeatureId)
    ensures SortSet([f]) == [f] && SortSet([]) == []
  {
    NatOrder();
    SortDedupFixed([f], NatLess);
  }
}
