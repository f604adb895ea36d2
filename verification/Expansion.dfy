/** Learned equivalences applied to a compiled query by widening its positive parts, and what
    the widened query accepts: exactly what the original accepts on the title's features closed
    under the equivalences.
  */
module Expansion {
  import opened Equivalences
  import opened Lists
  import opened Orders
  import opened PhraseReference
  import opened Queries
  import PhraseSteps
  import PG = PhraseGraphs

  type EquivMap = map<FeatureId, seq<FeatureId>>

  /** What a feature may be replaced by. */
  function ClassOf(equiv: EquivMap, f: FeatureId): seq<FeatureId> {
    if f in equiv then equiv[f] else [f]
  }

  /** The features of a title and everything equivalent to one of them. */
  function Closure(equiv: EquivMap, features: set<FeatureId>): set<FeatureId> {
    set f, g | f in features && g in ClassOf(equiv, f) :: g
  }

  function Spread(equiv: EquivMap, group: seq<FeatureId>): seq<FeatureId> {
    if group == [] then []
    else Spread(equiv, group[..|group| - 1]) + ClassOf(equiv, group[|group| - 1])
  }

  function Widen(equiv: EquivMap, group: seq<FeatureId>): seq<FeatureId> {
    SortSet(Spread(equiv, group))
  }

  function WidenMember(equiv: EquivMap, m: AnyOfMember): AnyOfMember {
    AnyOfMember(Map(g => Widen(equiv, g), m.requirements))
  }

  function WidenPredicate(equiv: EquivMap, p: AnyOfPredicate): AnyOfPredicate {
    AnyOfPredicate(Map(m => WidenMember(equiv, m), p.members))
  }

  function WidenArc(equiv: EquivMap, a: PhraseArc): PhraseArc {
    a.(alternatives := Widen(equiv, a.alternatives))
  }

  function WidenPhrase(equiv: EquivMap, p: PhraseGraph): PhraseGraph {
    PG.PhraseGraph(p.positions, Map(a => WidenArc(equiv, a), p.arcs))
  }

  /** Required features with a class, as the any-of groups that replace them. */
  function Moved(equiv: EquivMap, required: seq<FeatureId>): seq<seq<FeatureId>> {
    Map(f => ClassOf(equiv, f), Filter(f => f in equiv, required))
  }

  const COUNT_LIMIT: nat := 0xFFFF_FFFF

  function SaturatingAdd(a: nat, b: nat): nat {
    if a + b > COUNT_LIMIT then COUNT_LIMIT else a + b
  }

  function Widened(q: Query, equiv: EquivMap): Query {
    var moved := Moved(equiv, q.required);
    q.(required := Filter(f => f !in equiv, q.required),
       anyof := Map(g => Widen(equiv, g), q.anyof + moved),
       semanticGroups := SaturatingAdd(q.semanticGroups, |moved|),
       semanticTerms := SaturatingAdd(q.semanticTerms, |moved|),
       predicates := Map(p => WidenPredicate(equiv, p), q.predicates),
       requiredPhrases := Map(p => WidenPhrase(equiv, p), q.requiredPhrases))
  }

  function Expanded(q: Query, equiv: EquivMap): Query {
    CanonicalQuery(if equiv == map[] then q else Widened(q, equiv))
  }

  // ---- widening one group ----

  lemma {:induction false} SpreadMember(equiv: EquivMap, group: seq<FeatureId>, x: FeatureId)
    ensures x in Spread(equiv, group) <==> exists f :: f in group && x in ClassOf(equiv, f)
  {
    if group != [] {
      SpreadMember(equiv, group[..|group| - 1], x);
      assert group == group[..|group| - 1] + [group[|group| - 1]];
    }
  }

  lemma WidenMembers(equiv: EquivMap, group: seq<FeatureId>, x: FeatureId)
    ensures x in Widen(equiv, group) <==> exists f :: f in group && x in ClassOf(equiv, f)
  {
    SortSetMember(Spread(equiv, group), x);
    SpreadMember(equiv, group, x);
  }

  /** Being equivalent is symmetric and transitive when every member maps to its whole class. */
  lemma ClassesAgree(equiv: EquivMap, f: FeatureId, g: FeatureId)
    requires ClassClosed(equiv)
    ensures f in ClassOf(equiv, f)
    ensures g in ClassOf(equiv, f) ==> ClassOf(equiv, g) == ClassOf(equiv, f)
    ensures g in ClassOf(equiv, f) <==> f in ClassOf(equiv, g)
  {
  }

  /** A widened group holds of the features iff the group holds of their closure. */
  lemma WidenMeaning(equiv: EquivMap, group: seq<FeatureId>, pos: set<FeatureId>)
    requires ClassClosed(equiv)
    ensures AnyIn(Widen(equiv, group), pos) <==> AnyIn(group, Closure(equiv, pos))
    ensures group != [] ==> Widen(equiv, group) != []
  {
    hide Widen, ClassOf, ClassClosed;
    if AnyIn(Widen(equiv, group), pos) {
      var x :| x in Widen(equiv, group) && x in pos;
      WidenMembers(equiv, group, x);
      var f :| f in group && x in ClassOf(equiv, f);
      ClassesAgree(equiv, f, x);
      assert f in Closure(equiv, pos);
    }
    if AnyIn(group, Closure(equiv, pos)) {
      var f :| f in group && f in Closure(equiv, pos);
      var x :| x in pos && f in ClassOf(equiv, x);
      ClassesAgree(equiv, f, x);
      WidenMembers(equiv, group, x);
    }
    if group != [] {
      ClassesAgree(equiv, group[0], group[0]);
      WidenMembers(equiv, group, group[0]);
    }
  }

  lemma MovedMeaning(equiv: EquivMap, f: FeatureId, pos: set<FeatureId>)
    requires ClassClosed(equiv)
    ensures AnyIn(Widen(equiv, ClassOf(equiv, f)), pos) <==> f in Closure(equiv, pos)
    ensures f !in equiv ==> (f in pos <==> f in Closure(equiv, pos))
  {
    WidenMeaning(equiv, ClassOf(equiv, f), pos);
    hide Widen;
    if AnyIn(ClassOf(equiv, f), Closure(equiv, pos)) {
      var g :| g in ClassOf(equiv, f) && g in Closure(equiv, pos);
      var x :| x in pos && g in ClassOf(equiv, x);
      ClassesAgree(equiv, f, g);
      ClassesAgree(equiv, x, g);
      assert f in ClassOf(equiv, x);
    }
    if f in Closure(equiv, pos) {
      ClassesAgree(equiv, f, f);
      assert f in ClassOf(equiv, f);
    }
    if f in pos {
      ClassesAgree(equiv, f, f);
      assert f in ClassOf(equiv, f);
    }
    if f !in equiv && f in Closure(equiv, pos) {
      var x :| x in pos && f in ClassOf(equiv, x);
      ClassesAgree(equiv, x, f);
    }
  }

  // ---- widening the whole query ----

  lemma RequiredMeaning(equiv: EquivMap, q: Query, pos: set<FeatureId>)
    requires ClassClosed(equiv)
    ensures (AllIn(Widened(q, equiv).required, pos) && forall g :: g in Widened(q, equiv).anyof ==> AnyIn(g, pos))
       <==> (AllIn(q.required, Closure(equiv, pos)) && forall g :: g in q.anyof ==> AnyIn(g, Closure(equiv, pos)))
  {
    var w := Widened(q, equiv);
    var moved := Moved(equiv, q.required);
    hide Widen, Closure, ClassClosed, Filter, Map, SaturatingAdd, AnyIn;
    forall f ensures f in w.required <==> f in q.required && f !in equiv {
      FilterMember(f => f !in equiv, q.required, f);
    }
    forall g ensures g in moved <==> exists f :: f in q.required && f in equiv && ClassOf(equiv, f) == g {
      MovedMember(equiv, q.required, g);
    }
    forall g ensures g in w.anyof <==> exists x :: x in q.anyof + moved && Widen(equiv, x) == g {
      MapMember(x => Widen(equiv, x), q.anyof + moved, g);
    }
    forall f ensures AnyIn(Widen(equiv, ClassOf(equiv, f)), pos) <==> f in Closure(equiv, pos)
             ensures f !in equiv ==> (f in pos <==> f in Closure(equiv, pos)) {
      MovedMeaning(equiv, f, pos);
    }
    forall g ensures AnyIn(Widen(equiv, g), pos) <==> AnyIn(g, Closure(equiv, pos)) {
      WidenMeaning(equiv, g, pos);
    }
    hide ClassOf;
    GroupsMeaning(equiv, q, w, moved, pos);
  }

  lemma MovedMember(equiv: EquivMap, required: seq<FeatureId>, g: seq<FeatureId>)
    ensures g in Moved(equiv, required) <==> exists f :: f in required && f in equiv && ClassOf(equiv, f) == g
  {
    var kept := Filter(f => f in equiv, required);
    hide Filter, ClassOf;
    MapMember(f => ClassOf(equiv, f), kept, g);
    forall f ensures f in kept <==> f in required && f in equiv {
      FilterMember(f => f in equiv, required, f);
    }
  }

  lemma GroupsMeaning(equiv: EquivMap, q: Query, w: Query, moved: seq<seq<FeatureId>>, pos: set<FeatureId>)
    requires forall f :: f in w.required <==> f in q.required && f !in equiv
    requires forall g :: g in moved <==> exists f :: f in q.required && f in equiv && ClassOf(equiv, f) == g
    requires forall g :: g in w.anyof <==> exists x :: x in q.anyof + moved && Widen(equiv, x) == g
    requires forall f :: AnyIn(Widen(equiv, ClassOf(equiv, f)), pos) <==> f in Closure(equiv, pos)
    requires forall f :: f !in equiv ==> (f in pos <==> f in Closure(equiv, pos))
    requires forall g :: AnyIn(Widen(equiv, g), pos) <==> AnyIn(g, Closure(equiv, pos))
    ensures (AllIn(w.required, pos) && forall g :: g in w.anyof ==> AnyIn(g, pos))
       <==> (AllIn(q.required, Closure(equiv, pos)) && forall g :: g in q.anyof ==> AnyIn(g, Closure(equiv, pos)))
  {
    hide Widen, Closure, AnyIn, ClassOf;
    if AllIn(w.required, pos) && forall g :: g in w.anyof ==> AnyIn(g, pos) {
      forall f | f in q.required ensures f in Closure(equiv, pos) {
        if f in equiv {
          assert ClassOf(equiv, f) in moved && ClassOf(equiv, f) in q.anyof + moved;
          assert Widen(equiv, ClassOf(equiv, f)) in w.anyof;
        }
      }
      forall g | g in q.anyof ensures AnyIn(g, Closure(equiv, pos)) {
        assert g in q.anyof + moved;
        assert Widen(equiv, g) in w.anyof;
      }
    }
    if AllIn(q.required, Closure(equiv, pos)) && forall g :: g in q.anyof ==> AnyIn(g, Closure(equiv, pos)) {
      forall g | g in w.anyof ensures AnyIn(g, pos) {
        var x :| x in q.anyof + moved && Widen(equiv, x) == g;
        if x !in q.anyof {
          var f :| f in q.required && f in equiv && ClassOf(equiv, f) == x;
        }
      }
    }
  }

  lemma WidenMemberMeaning(equiv: EquivMap, m: AnyOfMember, pos: set<FeatureId>)
    requires ClassClosed(equiv)
    ensures MemberHolds(WidenMember(equiv, m), pos) <==> MemberHolds(m, Closure(equiv, pos))
    ensures FullMember(m) ==> FullMember(WidenMember(equiv, m))
  {
    var w := WidenMember(equiv, m);
    hide Widen, Closure, AnyIn, ClassClosed, Map;
    forall r ensures r in w.requirements <==> exists x :: x in m.requirements && Widen(equiv, x) == r {
      MapMember(x => Widen(equiv, x), m.requirements, r);
    }
    forall r ensures AnyIn(Widen(equiv, r), pos) <==> AnyIn(r, Closure(equiv, pos))
             ensures r != [] ==> Widen(equiv, r) != [] {
      WidenMeaning(equiv, r, pos);
    }
    if m.requirements != [] {
      assert m.requirements[0] in m.requirements;
      assert Widen(equiv, m.requirements[0]) in w.requirements;
    }
  }

  lemma WidenPredicateMeaning(equiv: EquivMap, p: AnyOfPredicate, pos: set<FeatureId>)
    requires ClassClosed(equiv)
    ensures PredicateHolds(WidenPredicate(equiv, p), pos) <==> PredicateHolds(p, Closure(equiv, pos))
    ensures FullPredicate(p) ==> FullPredicate(WidenPredicate(equiv, p))
  {
    var w := WidenPredicate(equiv, p);
    hide WidenMember, Closure, MemberHolds, FullMember, ClassClosed, Map;
    forall m ensures m in w.members <==> exists x :: x in p.members && WidenMember(equiv, x) == m {
      MapMember(x => WidenMember(equiv, x), p.members, m);
    }
    forall m ensures MemberHolds(WidenMember(equiv, m), pos) <==> MemberHolds(m, Closure(equiv, pos))
             ensures FullMember(m) ==> FullMember(WidenMember(equiv, m)) {
      WidenMemberMeaning(equiv, m, pos);
    }
    if p.members != [] {
      assert p.members[0] in p.members;
      assert WidenMember(equiv, p.members[0]) in w.members;
    }
  }

  lemma PredicatesMeaning(equiv: EquivMap, ps: seq<AnyOfPredicate>, pos: set<FeatureId>)
    requires ClassClosed(equiv)
    ensures var ws := Map(p => WidenPredicate(equiv, p), ps);
            && ((forall p :: p in ws ==> PredicateHolds(p, pos)) <==>
                (forall p :: p in ps ==> PredicateHolds(p, Closure(equiv, pos))))
            && ((forall p :: p in ps ==> FullPredicate(p)) ==> (forall p :: p in ws ==> FullPredicate(p)))
  {
    var ws := Map(p => WidenPredicate(equiv, p), ps);
    hide WidenPredicate, Closure, PredicateHolds, FullPredicate, ClassClosed, Map;
    forall p ensures p in ws <==> exists x :: x in ps && WidenPredicate(equiv, x) == p {
      MapMember(x => WidenPredicate(equiv, x), ps, p);
    }
    forall p ensures PredicateHolds(WidenPredicate(equiv, p), pos) <==> PredicateHolds(p, Closure(equiv, pos))
             ensures FullPredicate(p) ==> FullPredicate(WidenPredicate(equiv, p)) {
      WidenPredicateMeaning(equiv, p, pos);
    }
  }

  lemma WidenedMeaning(q: Query, equiv: EquivMap, pos: set<FeatureId>)
    requires ClassClosed(equiv)
    ensures PositiveFlat(Widened(q, equiv), pos) <==> PositiveFlat(q, Closure(equiv, pos))
  {
    RequiredMeaning(equiv, q, pos);
    PredicatesMeaning(equiv, q.predicates, pos);
    hide Map, Filter, Moved, Closure, AllIn, AnyIn, PredicateHolds;
  }

  // ---- phrases ----

  lemma WidenPhraseFull(equiv: EquivMap, p: PhraseGraph)
    requires ClassClosed(equiv) && FullPhrase(p)
    ensures FullPhrase(WidenPhrase(equiv, p))
  {
    var w := WidenPhrase(equiv, p);
    hide Map, Widen;
    forall a | a in w.arcs ensures KeptArc(p.positions, a) {
      MapMember(x => WidenArc(equiv, x), p.arcs, a);
      var x :| x in p.arcs && WidenArc(equiv, x) == a;
      WidenMeaning(equiv, x.alternatives, {});
    }
    MapMember(x => WidenArc(equiv, x), p.arcs, WidenArc(equiv, p.arcs[0]));
    assert p.arcs[0] in p.arcs;
    assert WidenArc(equiv, p.arcs[0]) in w.arcs;
  }

  lemma WidenedFull(q: Query, equiv: EquivMap)
    requires ClassClosed(equiv) && FullQuery(q)
    ensures FullQuery(Widened(q, equiv))
  {
    PredicatesMeaning(equiv, q.predicates, {});
    var w := Widened(q, equiv);
    hide WidenPhrase, FullPhrase, FullPredicate, Filter, Moved, Widen, WidenPredicate, ClassClosed;
    forall p | p in w.requiredPhrases ensures FullPhrase(p) {
      MapMember(x => WidenPhrase(equiv, x), q.requiredPhrases, p);
      var x :| x in q.requiredPhrases && WidenPhrase(equiv, x) == p;
      WidenPhraseFull(equiv, x);
    }
  }

  /** The title graph with every arc repeated for each feature its label stands for. */
  function ClosedArcs(equiv: EquivMap, title: seq<PG.PositionArc>): seq<PG.PositionArc> {
    if title == [] then []
    else
      var last := title[|title| - 1];
      ClosedArcs(equiv, title[..|title| - 1])
      + Map(g => PG.PositionArc(g, last.start, last.end), ClassOf(equiv, last.feature))
  }

  lemma {:induction false} ClosedArcsMember(equiv: EquivMap, title: seq<PG.PositionArc>, b: PG.PositionArc)
    ensures b in ClosedArcs(equiv, title)
       <==> exists x :: x in title && b.feature in ClassOf(equiv, x.feature) && b.start == x.start && b.end == x.end
  {
    if title != [] {
      var last := title[|title| - 1];
      ClosedArcsMember(equiv, title[..|title| - 1], b);
      assert title == title[..|title| - 1] + [last];
      MapMember(g => PG.PositionArc(g, last.start, last.end), ClassOf(equiv, last.feature), b);
    }
  }

  lemma WidenPhraseSteps(equiv: EquivMap, p: PhraseGraph, title: seq<PG.PositionArc>)
    requires ClassClosed(equiv)
    ensures PhraseSteps.StepsWithin(WidenPhrase(equiv, p), title, p, ClosedArcs(equiv, title))
    ensures PhraseSteps.StepsWithin(p, ClosedArcs(equiv, title), WidenPhrase(equiv, p), title)
  {
    var w, closed := WidenPhrase(equiv, p), ClosedArcs(equiv, title);
    forall a ensures a in w.arcs <==> exists x :: x in p.arcs && WidenArc(equiv, x) == a {
      MapMember(x => WidenArc(equiv, x), p.arcs, a);
    }
    hide WidenPhrase, ClosedArcs, Widen, ClassOf, ClassClosed;
    forall s, t | StepsTo(w, title, s, t)
      ensures StepsTo(p, closed, s, t)
    {
      var a, b :| a in w.arcs && b in title && a.start == s.0 && b.start == s.1 && b.feature in a.alternatives &&
          t == (a.end, b.end);
      var x :| x in p.arcs && WidenArc(equiv, x) == a;
      WidenMembers(equiv, x.alternatives, b.feature);
      var f :| f in x.alternatives && b.feature in ClassOf(equiv, f);
      ClassesAgree(equiv, f, b.feature);
      var b' := PG.PositionArc(f, b.start, b.end);
      ClosedArcsMember(equiv, title, b');
      assert x in p.arcs && b' in closed;
    }
    forall s, t | StepsTo(p, closed, s, t)
      ensures StepsTo(w, title, s, t)
    {
      var x, b' :| x in p.arcs && b' in closed && x.start == s.0 && b'.start == s.1 && b'.feature in x.alternatives &&
          t == (x.end, b'.end);
      ClosedArcsMember(equiv, title, b');
      var b :| b in title && b'.feature in ClassOf(equiv, b.feature) && b'.start == b.start && b'.end == b.end;
      ClassesAgree(equiv, b.feature, b'.feature);
      WidenMembers(equiv, x.alternatives, b.feature);
      assert WidenArc(equiv, x) in w.arcs && b in title;
    }
  }

  /** A widened phrase occurs in a title iff the phrase occurs in the closed title. */
  lemma WidenPhraseOccurs(equiv: EquivMap, p: PhraseGraph, titlePositions: nat, title: seq<PG.PositionArc>)
    requires ClassClosed(equiv)
    ensures PG.Occurs(WidenPhrase(equiv, p), titlePositions, title) <==>
              PG.Occurs(p, titlePositions, ClosedArcs(equiv, title))
  {
    WidenPhraseSteps(equiv, p, title);
    PhraseSteps.SameSteps(WidenPhrase(equiv, p), title, p, ClosedArcs(equiv, title), titlePositions);
  }

  lemma WidenedPhrases(equiv: EquivMap, ps: seq<PhraseGraph>, titlePositions: nat, title: seq<PG.PositionArc>)
    requires ClassClosed(equiv)
    ensures AllOccur(Map(p => WidenPhrase(equiv, p), ps), titlePositions, title)
       <==> AllOccur(ps, titlePositions, ClosedArcs(equiv, title))
  {
    var ws := Map(p => WidenPhrase(equiv, p), ps);
    hide WidenPhrase, PG.Occurs, ClosedArcs, ClassClosed, Map;
    forall p ensures p in ws <==> exists x :: x in ps && WidenPhrase(equiv, x) == p {
      MapMember(x => WidenPhrase(equiv, x), ps, p);
    }
    forall p ensures PG.Occurs(WidenPhrase(equiv, p), titlePositions, title)
                <==> PG.Occurs(p, titlePositions, ClosedArcs(equiv, title)) {
      WidenPhraseOccurs(equiv, p, titlePositions, title);
    }
  }

  // ---- the theorem ----

  lemma EmptyMapCloses(equiv: EquivMap, features: set<FeatureId>)
    requires equiv == map[]
    ensures Closure(equiv, features) == features
  {
    forall g: FeatureId | g in features ensures g in Closure(equiv, features) {
      assert g in ClassOf(equiv, g);
    }
  }

  /** What expansion means: the expanded query accepts a title iff the original accepts it with its
      positive features closed under the equivalences; the negative part reads the same. */
  lemma ExpandedMeaning(q: Query, equiv: EquivMap, pos: set<FeatureId>, neg: set<FeatureId>)
    requires FullQuery(q) && ClassClosed(equiv)
    ensures FullQuery(Expanded(q, equiv))
    ensures PositiveFlat(Expanded(q, equiv), pos) <==> PositiveFlat(q, Closure(equiv, pos))
    ensures NegativeFlat(Expanded(q, equiv), neg) <==> NegativeFlat(q, neg)
    ensures MatchesFlat(Expanded(q, equiv), pos, neg) <==> MatchesFlat(q, Closure(equiv, pos), neg)
  {
    hide FullQuery, ClassClosed, CanonicalQuery, PositiveFlat;
    if equiv == map[] {
      EmptyMapCloses(equiv, pos);
      FullIsSensible(q);
      CanonicalMeaning(q, pos, neg);
      CanonicalFull(q);
    } else {
      var w := Widened(q, equiv);
      WidenedFull(q, equiv);
      WidenedMeaning(q, equiv, pos);
      FullIsSensible(w);
      CanonicalMeaning(w, pos, neg);
      CanonicalFull(w);
    }
  }

  /** Expansion never loses a match. */
  lemma ExpansionKeepsMatches(q: Query, equiv: EquivMap, pos: set<FeatureId>, neg: set<FeatureId>)
    requires FullQuery(q) && ClassClosed(equiv) && MatchesFlat(q, pos, neg)
    ensures MatchesFlat(Expanded(q, equiv), pos, neg)
  {
    ExpandedMeaning(q, equiv, pos, neg);
    forall f | f in pos ensures f in Closure(equiv, pos) {
      ClassesAgree(equiv, f, f);
    }
    hide Expanded, Closure, ClassClosed, FullQuery;
    PositiveGrows(q, pos, Closure(equiv, pos));
  }

  lemma PositiveGrows(q: Query, pos: set<FeatureId>, more: set<FeatureId>)
    requires pos <= more && PositiveFlat(q, pos)
    ensures PositiveFlat(q, more)
  {
    forall g | AnyIn(g, pos) ensures AnyIn(g, more) { }
    forall m | MemberHolds(m, pos) ensures MemberHolds(m, more) {
      forall r | r in m.requirements ensures AnyIn(r, more) { assert AnyIn(r, pos); }
    }
    hide MemberHolds, AnyIn;
    forall p | PredicateHolds(p, pos) ensures PredicateHolds(p, more) { }
  }

  /** The expanded required phrases occur in a title iff the original ones occur in the closed title;
      the forbidden ones read the same. */
  lemma ExpandedPhrases(q: Query, equiv: EquivMap, titlePositions: nat, title: seq<PG.PositionArc>)
    requires FullQuery(q) && ClassClosed(equiv)
    ensures AllOccur(Expanded(q, equiv).requiredPhrases, titlePositions, title)
       <==> AllOccur(q.requiredPhrases, titlePositions, if equiv == map[] then title else ClosedArcs(equiv, title))
    ensures NoneOccurs(Expanded(q, equiv).forbiddenPhrases, titlePositions, title)
       <==> NoneOccurs(q.forbiddenPhrases, titlePositions, title)
  {
    hide AllOccur, NoneOccurs, CanonPhrases, FullPhrase, FullPredicate, ClosedArcs, Filter, Moved, Widen,
        WidenPredicate, WidenPhrase,
         CanonPredicates, CanonConjunctions, SortSet, ClassClosed;
    if equiv == map[] {
      CanonPhrasesMeaning(q.requiredPhrases, titlePositions, title);
    } else {
      WidenedFull(q, equiv);
      WidenedPhrases(equiv, q.requiredPhrases, titlePositions, title);
      CanonPhrasesMeaning(Widened(q, equiv).requiredPhrases, titlePositions, title);
    }
    CanonPhrasesMeaning(q.forbiddenPhrases, titlePositions, title);
  }

  // ---- expanding twice ----

  lemma WidenTwice(equiv: EquivMap, group: seq<FeatureId>)
    requires ClassClosed(equiv)
    ensures SortSet(Widen(equiv, group)) == Widen(equiv, group)
    ensures Widen(equiv, Widen(equiv, group)) == Widen(equiv, group)
  {
    var once := Widen(equiv, group);
    SortSetSorted(Spread(equiv, group));
    forall x ensures x in Spread(equiv, once) <==> x in once {
      SpreadMember(equiv, once, x);
      WidenMembers(equiv, group, x);
      if x in once { ClassesAgree(equiv, x, x); }
      if y :| y in once && x in ClassOf(equiv, y) {
        WidenMembers(equiv, group, y);
        var f :| f in group && y in ClassOf(equiv, f);
        ClassesAgree(equiv, f, y);
      }
    }
    assert Elements(Spread(equiv, once)) == Elements(once);
    NatOrder();
    SortDedupByElements(Spread(equiv, once), once, NatLess);
  }

  predicate Wide(equiv: EquivMap, group: seq<FeatureId>) {
    Widen(equiv, group) == group
  }

  predicate WideMember(equiv: EquivMap, m: AnyOfMember) {
    forall r :: r in m.requirements ==> Wide(equiv, r)
  }

  predicate WidePredicate(equiv: EquivMap, p: AnyOfPredicate) {
    forall m :: m in p.members ==> WideMember(equiv, m)
  }

  predicate WidePhrase(equiv: EquivMap, p: PhraseGraph) {
    forall a :: a in p.arcs ==> Wide(equiv, a.alternatives)
  }

  /** Nothing in the query is left to widen. */
  predicate WideQuery(equiv: EquivMap, q: Query) {
    && (forall f :: f in q.required ==> f !in equiv)
    && (forall g :: g in q.anyof ==> Wide(equiv, g))
    && (forall p :: p in q.predicates ==> WidePredicate(equiv, p))
    && (forall p :: p in q.requiredPhrases ==> WidePhrase(equiv, p))
    && q.semanticGroups <= COUNT_LIMIT && q.semanticTerms <= COUNT_LIMIT
  }

  lemma WideStays(equiv: EquivMap, q: Query)
    requires WideQuery(equiv, q)
    ensures Widened(q, equiv) == q
  {
    hide Widen, Map;
    FilterAll(f => f !in equiv, q.required);
    NoneMoved(equiv, q.required);
    assert q.anyof + [] == q.anyof;
    MapFixed(g => Widen(equiv, g), q.anyof);
    forall m: AnyOfMember | WideMember(equiv, m) ensures WidenMember(equiv, m) == m {
      MapFixed(g => Widen(equiv, g), m.requirements);
    }
    forall p: AnyOfPredicate | WidePredicate(equiv, p) ensures WidenPredicate(equiv, p) == p {
      MapFixed(m => WidenMember(equiv, m), p.members);
    }
    forall p: PhraseGraph | WidePhrase(equiv, p) ensures WidenPhrase(equiv, p) == p {
      MapFixed(a => WidenArc(equiv, a), p.arcs);
    }
    MapFixed(p => WidenPredicate(equiv, p), q.predicates);
    MapFixed(p => WidenPhrase(equiv, p), q.requiredPhrases);
  }

  lemma NoneMoved(equiv: EquivMap, required: seq<FeatureId>)
    requires forall f :: f in required ==> f !in equiv
    ensures Moved(equiv, required) == []
  {
    var kept := Filter(f => f in equiv, required);
    if kept != [] {
      FilterMember(f => f in equiv, required, kept[0]);
    }
  }

  lemma CanonWideMember(equiv: EquivMap, m: AnyOfMember)
    requires ClassClosed(equiv)
    ensures WideMember(equiv, CanonMember(WidenMember(equiv, m)))
  {
    ListOrder();
    var w := WidenMember(equiv, m);
    hide Widen, Map;
    forall r | r in CanonMember(w).requirements
      ensures Wide(equiv, r)
    {
      NormalizeMember(w.requirements, SortSet, NonEmpty, ListLess, r);
      var x :| x in w.requirements && SortSet(x) == r;
      MapMember(g => Widen(equiv, g), m.requirements, x);
      var g :| g in m.requirements && Widen(equiv, g) == x;
      WidenTwice(equiv, g);
    }
  }

  lemma CanonWidePredicate(equiv: EquivMap, p: AnyOfPredicate)
    requires ClassClosed(equiv)
    ensures WidePredicate(equiv, CanonPredicate(WidenPredicate(equiv, p)))
  {
    MemberOrder();
    var w := WidenPredicate(equiv, p);
    hide WideMember, WidenMember, CanonMember, Map;
    forall m | m in CanonPredicate(w).members
      ensures WideMember(equiv, m)
    {
      NormalizeMember(w.members, CanonMember, HasRequirements, MemberLess, m);
      var x :| x in w.members && CanonMember(x) == m;
      MapMember(y => WidenMember(equiv, y), p.members, x);
      var y :| y in p.members && WidenMember(equiv, y) == x;
      CanonWideMember(equiv, y);
    }
  }

  lemma CanonWidePhrase(equiv: EquivMap, p: PhraseGraph)
    requires ClassClosed(equiv)
    ensures WidePhrase(equiv, CanonPhrase(WidenPhrase(equiv, p)))
  {
    var w := WidenPhrase(equiv, p);
    var c := CanonPhrase(w);
    hide Widen, Map, CanonPhrase;
    forall a | a in c.arcs
      ensures Wide(equiv, a.alternatives)
    {
      CanonPhraseArcs(w, a);
      var x :| x in w.arcs && CanonArc(x) == a;
      MapMember(y => WidenArc(equiv, y), p.arcs, x);
      var y :| y in p.arcs && WidenArc(equiv, y) == x;
      WidenTwice(equiv, y.alternatives);
    }
  }

  lemma CanonWideLists(equiv: EquivMap, q: Query)
    requires ClassClosed(equiv)
    ensures forall p :: p in CanonPredicates(Map(p => WidenPredicate(equiv, p), q.predicates)) ==>
              WidePredicate(equiv, p)
    ensures forall p :: p in CanonPhrases(Map(p => WidenPhrase(equiv, p), q.requiredPhrases)) ==> WidePhrase(equiv, p)
  {
    PredicateOrder();
    PhraseOrder();
    hide WidePredicate, WidePhrase, WidenPredicate, WidenPhrase, CanonPredicate, CanonPhrase, Map, ClassClosed;
    var ws := Map(p => WidenPredicate(equiv, p), q.predicates);
    forall p | p in CanonPredicates(ws)
      ensures WidePredicate(equiv, p)
    {
      NormalizeMember(ws, CanonPredicate, HasMembers, PredicateLess, p);
      var x :| x in ws && CanonPredicate(x) == p;
      MapMember(y => WidenPredicate(equiv, y), q.predicates, x);
      var y :| y in q.predicates && WidenPredicate(equiv, y) == x;
      CanonWidePredicate(equiv, y);
    }
    var vs := Map(p => WidenPhrase(equiv, p), q.requiredPhrases);
    forall p | p in CanonPhrases(vs)
      ensures WidePhrase(equiv, p)
    {
      NormalizeMember(vs, CanonPhrase, KeptPhrase, PhraseLess, p);
      var x :| x in vs && CanonPhrase(x) == p;
      MapMember(y => WidenPhrase(equiv, y), q.requiredPhrases, x);
      var y :| y in q.requiredPhrases && WidenPhrase(equiv, y) == x;
      CanonWidePhrase(equiv, y);
    }
  }

  lemma ExpandedIsWide(q: Query, equiv: EquivMap)
    requires ClassClosed(equiv) && equiv != map[]
    ensures WideQuery(equiv, Expanded(q, equiv))
  {
    var w := Widened(q, equiv);
    var e := Expanded(q, equiv);
    CanonWideLists(equiv, q);
    hide WidePredicate, WidePhrase, WidenPredicate, WidenPhrase, Widen, CanonPredicates, CanonPhrases,
        CanonConjunctions, Filter, Map, SortSet;
    forall f | f in e.required
      ensures f !in equiv
    {
      SortSetMember(w.required, f);
      FilterMember(f => f !in equiv, q.required, f);
    }
    ListOrder();
    var groups := q.anyof + Moved(equiv, q.required);
    forall g | g in e.anyof
      ensures Wide(equiv, g)
    {
      SortDedupMember(w.anyof, ListLess, g);
      MapMember(x => Widen(equiv, x), groups, g);
      var x :| x in groups && Widen(equiv, x) == g;
      WidenTwice(equiv, x);
    }
  }

  /** Expanding an expanded query changes nothing, to the last byte of its canonical form. */
  lemma ExpansionIdempotent(q: Query, equiv: EquivMap)
    requires ClassClosed(equiv)
    ensures Expanded(Expanded(q, equiv), equiv) == Expanded(q, equiv)
  {
    CanonicalTwice(if equiv == map[] then q else Widened(q, equiv));
    if equiv != map[] {
      ExpandedIsWide(q, equiv);
      hide CanonicalQuery, Widened, WideQuery;
      WideStays(equiv, Expanded(q, equiv));
    }
  }

  // ---- retrieval proxies ----

  /** Every way to satisfy the predicate brings in a feature of the group. */
  predicate Proxies(group: seq<FeatureId>, p: AnyOfPredicate) {
    forall m :: m in p.members ==> exists r :: r in m.requirements && forall f :: f in r ==> f in group
  }

  /** Every exact predicate has a retrieval group that stands for it. */
  predicate Backed(q: Query) {
    forall p :: p in q.predicates ==> exists g :: g in q.anyof && Proxies(g, p)
  }

  lemma ProxyImplied(group: seq<FeatureId>, p: AnyOfPredicate, pos: set<FeatureId>)
    requires Proxies(group, p) && PredicateHolds(p, pos)
    ensures AnyIn(group, pos)
  {
    var m :| m in p.members && MemberHolds(m, pos);
    var r :| r in m.requirements && forall f :: f in r ==> f in group;
    assert AnyIn(r, pos);
    var f :| f in r && f in pos;
    assert f in group;
  }

  lemma WidenedProxies(equiv: EquivMap, group: seq<FeatureId>, p: AnyOfPredicate)
    requires Proxies(group, p)
    ensures Proxies(Widen(equiv, group), WidenPredicate(equiv, p))
  {
    var w := WidenPredicate(equiv, p);
    hide Widen, Map;
    forall m | m in w.members
      ensures exists r :: r in m.requirements && forall f :: f in r ==> f in Widen(equiv, group)
    {
      MapMember(x => WidenMember(equiv, x), p.members, m);
      var x :| x in p.members && WidenMember(equiv, x) == m;
      var r :| r in x.requirements && forall f :: f in r ==> f in group;
      MapMember(g => Widen(equiv, g), x.requirements, Widen(equiv, r));
      assert Widen(equiv, r) in m.requirements;
      forall f | f in Widen(equiv, r) ensures f in Widen(equiv, group) {
        WidenMembers(equiv, r, f);
        WidenMembers(equiv, group, f);
      }
    }
  }

  lemma CanonProxies(group: seq<FeatureId>, p: AnyOfPredicate)
    requires FullPredicate(p) && Proxies(group, p)
    ensures Proxies(group, CanonPredicate(p))
  {
    MemberOrder();
    ListOrder();
    hide SortSet;
    forall m | m in CanonPredicate(p).members
      ensures exists r :: r in m.requirements && forall f :: f in r ==> f in group
    {
      NormalizeMember(p.members, CanonMember, HasRequirements, MemberLess, m);
      var x :| x in p.members && CanonMember(x) == m;
      var r :| r in x.requirements && forall f :: f in r ==> f in group;
      SortSetMeaning(r, {});
      NormalizeMember(x.requirements, SortSet, NonEmpty, ListLess, SortSet(r));
      assert SortSet(r) in m.requirements;
      forall f | f in SortSet(r) ensures f in group { SortSetMember(r, f); }
    }
  }

  lemma CanonBacked(q: Query)
    requires FullQuery(q) && Backed(q)
    ensures Backed(CanonicalQuery(q))
  {
    PredicateOrder();
    ListOrder();
    var c := CanonicalQuery(q);
    hide CanonPredicate, Proxies, FullPredicate, FullPhrase, CanonPhrases, CanonConjunctions;
    forall p | p in c.predicates
      ensures exists g :: g in c.anyof && Proxies(g, p)
    {
      NormalizeMember(q.predicates, CanonPredicate, HasMembers, PredicateLess, p);
      var x :| x in q.predicates && CanonPredicate(x) == p;
      var g :| g in q.anyof && Proxies(g, x);
      CanonProxies(g, x);
      SortDedupMember(q.anyof, ListLess, g);
    }
  }

  lemma WidenedBacked(q: Query, equiv: EquivMap)
    requires Backed(q)
    ensures Backed(Widened(q, equiv))
  {
    var w := Widened(q, equiv);
    var groups := q.anyof + Moved(equiv, q.required);
    hide WidenPredicate, Widen, Proxies, Filter, Map, Moved;
    forall p | p in w.predicates
      ensures exists g :: g in w.anyof && Proxies(g, p)
    {
      MapMember(x => WidenPredicate(equiv, x), q.predicates, p);
      var x :| x in q.predicates && WidenPredicate(equiv, x) == p;
      var g :| g in q.anyof && Proxies(g, x);
      WidenedProxies(equiv, g, x);
      assert g in groups;
      MapMember(y => Widen(equiv, y), groups, Widen(equiv, g));
    }
  }

  /** Every exact predicate of an expanded query still has its retrieval group. */
  lemma ExpansionKeepsProxies(q: Query, equiv: EquivMap)
    requires FullQuery(q) && ClassClosed(equiv) && Backed(q)
    ensures Backed(Expanded(q, equiv))
  {
    hide Backed, FullQuery, ClassClosed, CanonicalQuery;
    if equiv == map[] {
      CanonBacked(q);
    } else {
      WidenedFull(q, equiv);
      WidenedBacked(q, equiv);
      CanonBacked(Widened(q, equiv));
    }
  }
}
