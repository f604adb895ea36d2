/** A compiled query as the object the compiler rewrites in place, and its exact check against a
    title.
  */
module ExtractedQuery {
  import opened Equivalences
  import opened Expansion
  import opened Lists
  import opened Orders
  import opened Queries
  import opened Wrappers
  import PhraseSearch
  import PG = PhraseGraphs

  /** What a title offers: its positive and canonical feature views with their token graphs, and
      the features the main lane is probed with. */
  datatype TitleView = TitleView(
    pos: set<FeatureId>,
    neg: set<FeatureId>,
    probe: set<FeatureId>,
    posPositions: nat,
    posArcs: seq<PG.PositionArc>,
    complete: bool,
    negPositions: nat,
    negArcs: seq<PG.PositionArc>)

  ghost predicate SortedView(v: TitleView) {
    PG.SortedTitle(v.posArcs) && PG.SortedTitle(v.negArcs)
  }

  /** The query's meaning with every phrase decided. */
  ghost predicate Holds(q: Query, v: TitleView) {
    && MatchesFlat(q, v.pos, v.neg)
    && AllOccur(q.requiredPhrases, v.posPositions, v.posArcs)
    && NoneOccurs(q.forbiddenPhrases, v.negPositions, v.negArcs)
  }

  /** The search for a required phrase, and the one for a forbidden phrase. */
  ghost function Required(v: TitleView, p: PhraseGraph): Option<bool> {
    PhraseSearch.BoundedAnswer(p, v.posPositions, v.posArcs, v.complete)
  }

  ghost function Forbidden(v: TitleView, p: PhraseGraph): Option<bool> {
    PhraseSearch.BoundedAnswer(p, v.negPositions, v.negArcs, true)
  }

  /** What the exact check answers: a search that gives up rejects nothing. */
  ghost predicate Accepts(q: Query, v: TitleView) {
    && MatchesFlat(q, v.pos, v.neg)
    && (forall p :: p in q.requiredPhrases ==> Required(v, p) != Some(false))
    && (forall p :: p in q.forbiddenPhrases ==> Forbidden(v, p) != Some(true))
  }

  /** No search for a phrase of the query gives up. */
  ghost predicate Decided(q: Query, v: TitleView) {
    && (forall p :: p in q.requiredPhrases ==> Required(v, p).Some?)
    && (forall p :: p in q.forbiddenPhrases ==> Forbidden(v, p).Some?)
  }

  lemma SearchesTell(q: Query, v: TitleView)
    requires SearchablePhrases(q)
    ensures forall p :: p in q.requiredPhrases && Required(v, p).Some? ==>
              (Required(v, p).value <==> PG.Occurs(p, v.posPositions, v.posArcs))
    ensures forall p :: p in q.forbiddenPhrases && Forbidden(v, p).Some? ==>
              (Forbidden(v, p).value <==> PG.Occurs(p, v.negPositions, v.negArcs))
  {
    hide PG.Occurs, PG.Canonical, PhraseSearch.BoundedAnswer, PhraseSearch.WithinBudget;
    forall p | p in q.requiredPhrases && Required(v, p).Some?
      ensures Required(v, p).value <==> PG.Occurs(p, v.posPositions, v.posArcs)
    {
      PhraseSearch.BoundedNeverLies(p, v.posPositions, v.posArcs, v.complete);
    }
    forall p | p in q.forbiddenPhrases && Forbidden(v, p).Some?
      ensures Forbidden(v, p).value <==> PG.Occurs(p, v.negPositions, v.negArcs)
    {
      PhraseSearch.BoundedNeverLies(p, v.negPositions, v.negArcs, true);
    }
  }

  /** The check never rejects a title that satisfies the query, whatever the searches can afford. */
  lemma TrueMatchAccepted(q: Query, v: TitleView)
    requires SearchablePhrases(q) && Holds(q, v)
    ensures Accepts(q, v)
  {
    hide PG.Occurs, MatchesFlat, Required, Forbidden, SearchablePhrases;
    SearchesTell(q, v);
  }

  /** When no search gives up, the check is exact. */
  lemma DecidedExact(q: Query, v: TitleView)
    requires SearchablePhrases(q) && Decided(q, v)
    ensures Accepts(q, v) <==> Holds(q, v)
  {
    hide PG.Occurs, MatchesFlat, Required, Forbidden, SearchablePhrases;
    SearchesTell(q, v);
  }

  /** A complete title small enough for the budgets decides every phrase. */
  lemma SmallIsDecided(q: Query, v: TitleView)
    requires SearchablePhrases(q) && v.complete
    requires forall p :: p in q.requiredPhrases ==> PhraseSearch.WithinBudget(p, v.posPositions, v.posArcs)
    requires forall p :: p in q.forbiddenPhrases ==> PhraseSearch.WithinBudget(p, v.negPositions, v.negArcs)
    ensures Decided(q, v)
  {
    hide PG.Canonical, PhraseSearch.BoundedAnswer, PhraseSearch.WithinBudget;
    forall p | p in q.requiredPhrases ensures Required(v, p).Some? {
      PhraseSearch.BoundedNeverLies(p, v.posPositions, v.posArcs, true);
    }
    forall p | p in q.forbiddenPhrases ensures Forbidden(v, p).Some? {
      PhraseSearch.BoundedNeverLies(p, v.negPositions, v.negArcs, true);
    }
  }

  ghost predicate SearchablePhrases(q: Query) {
    && (forall p :: p in q.requiredPhrases ==> PG.Canonical(p))
    && (forall p :: p in q.forbiddenPhrases ==> PG.Canonical(p))
  }

  /** Canonical queries, and so expanded ones, can be handed to the phrase search. */
  lemma CanonicalSearchable(q: Query)
    ensures SearchablePhrases(CanonicalQuery(q))
  {
    CanonPhrasesSorted(q.requiredPhrases);
    CanonPhrasesSorted(q.forbiddenPhrases);
    hide CanonPhrases, PG.Canonical, CanonPredicates, CanonConjunctions;
  }

  lemma MapNext<S, T>(f: S -> T, s: seq<S>, n: nat)
    requires n < |s|
    ensures Map(f, s[..n + 1]) == Map(f, s[..n]) + [f(s[n])]
  {
  }

  lemma NothingMoved(equiv: EquivMap)
    ensures Moved(equiv, []) == [] && Filter((f: FeatureId) => f !in equiv, []) == []
  {
  }

  lemma MovedNext(equiv: EquivMap, required: seq<FeatureId>, n: nat)
    requires n < |required|
    ensures Moved(equiv, required[..n + 1])
         == Moved(equiv, required[..n]) + (if required[n] in equiv then [equiv[required[n]]] else [])
    ensures Filter(f => f !in equiv, required[..n + 1])
         == Filter(f => f !in equiv, required[..n]) + (if required[n] in equiv then [] else [required[n]])
  {
    var some := required[..n + 1];
    assert some[..|some| - 1] == required[..n] && some[|some| - 1] == required[n];
    var kept := Filter(f => f in equiv, required[..n]);
    if required[n] in equiv {
      assert (kept + [required[n]])[..|kept|] == kept;
      MapNext(f => ClassOf(equiv, f), kept + [required[n]], |kept|);
      assert (kept + [required[n]])[..|kept| + 1] == kept + [required[n]];
    }
  }

  class Extracted {
    var required: seq<FeatureId>
    var forbidden: seq<FeatureId>
    var anyof: seq<seq<FeatureId>>
    var semanticGroups: nat
    var semanticTerms: nat
    var predicates: seq<AnyOfPredicate>
    var forbiddenConjunctions: seq<seq<FeatureId>>
    var requiredPhrases: seq<PhraseGraph>
    var forbiddenPhrases: seq<PhraseGraph>

    function Value(): Query
      reads this
    {
      Query(required, forbidden, anyof, semanticGroups, semanticTerms, predicates, forbiddenConjunctions,
            requiredPhrases, forbiddenPhrases)
    }

    constructor (q: Query)
      ensures Value() == q
    {
      required, forbidden, anyof := q.required, q.forbidden, q.anyof;
      semanticGroups, semanticTerms := q.semanticGroups, q.semanticTerms;
      predicates, forbiddenConjunctions := q.predicates, q.forbiddenConjunctions;
      requiredPhrases, forbiddenPhrases := q.requiredPhrases, q.forbiddenPhrases;
    }

    /** Sort, drop repeats and drop empty parts, column by column. */
    method Canonicalize()
      modifies this
      ensures Value() == CanonicalQuery(old(Value()))
    {
      hide SortDedup, SortSet, CanonPredicates, CanonConjunctions, CanonPhrases;
      required := SortSet(required);
      forbidden := SortSet(forbidden);
      anyof := SortDedup(anyof, ListLess);
      predicates := CanonicalizePredicates(predicates);
      forbiddenConjunctions := CanonicalizeConjunctions(forbiddenConjunctions);
      requiredPhrases := CanonicalizePhrases(requiredPhrases);
      forbiddenPhrases := CanonicalizePhrases(forbiddenPhrases);
    }

    static method CanonicalizePredicates(predicates: seq<AnyOfPredicate>) returns (r: seq<AnyOfPredicate>)
      ensures r == CanonPredicates(predicates)
    {
      r := RewriteAll(predicates, CanonPredicate);
      r := Filter(HasMembers, r);
      r := SortDedup(r, PredicateLess);
    }

    static method CanonicalizeConjunctions(conjunctions: seq<seq<FeatureId>>) returns (r: seq<seq<FeatureId>>)
      ensures r == CanonConjunctions(conjunctions)
    {
      r := RewriteAll(conjunctions, SortSet);
      r := Filter(NonEmpty, r);
      r := SortDedup(r, ListLess);
    }

    static method CanonicalizePhrases(phrases: seq<PhraseGraph>) returns (r: seq<PhraseGraph>)
      ensures r == CanonPhrases(phrases)
    {
      r := RewriteAll(phrases, CanonPhrase);
      r := Filter(KeptPhrase, r);
      r := SortDedup(r, PhraseLess);
    }

    /** Required features with a class become any-of groups. */
    method MoveRequired(equiv: EquivMap)
      modifies this`required, this`anyof, this`semanticGroups, this`semanticTerms
      ensures required == Filter(f => f !in equiv, old(required))
      ensures anyof == old(anyof) + Moved(equiv, old(required))
      ensures semanticGroups == SaturatingAdd(old(semanticGroups), |Moved(equiv, old(required))|)
      ensures semanticTerms == SaturatingAdd(old(semanticTerms), |Moved(equiv, old(required))|)
    {
      NothingMoved(equiv);
      hide Moved, Filter;
      var still: seq<FeatureId> := [];
      var added: nat := 0;
      for n := 0 to |required|
        invariant required == old(required)
        invariant semanticGroups == old(semanticGroups) && semanticTerms == old(semanticTerms)
        invariant still == Filter(f => f !in equiv, required[..n])
        invariant anyof == old(anyof) + Moved(equiv, required[..n])
        invariant added == SaturatingAdd(0, |Moved(equiv, required[..n])|)
      {
        MovedNext(equiv, required, n);
        var f := required[n];
        if f in equiv {
          anyof := anyof + [equiv[f]];
          added := SaturatingAdd(added, 1);
        } else {
          still := still + [f];
        }
      }
      assert required[..|required|] == required;
      required := still;
      semanticGroups := SaturatingAdd(semanticGroups, added);
      semanticTerms := SaturatingAdd(semanticTerms, added);
    }

    /** Apply learned equivalences by widening the positive parts. */
    method ExpandEquivalences(equiv: EquivMap)
      modifies this
      ensures Value() == Expanded(old(Value()), equiv)
    {
      if equiv == map[] {
        Canonicalize();
        return;
      }
      hide Moved, Filter, Map, Widen, WidenPredicate, WidenPhrase, CanonicalQuery;
      MoveRequired(equiv);
      anyof := RewriteAll(anyof, g => Widen(equiv, g));
      predicates := RewriteAll(predicates, p => WidenPredicate(equiv, p));
      requiredPhrases := RewriteAll(requiredPhrases, p => WidenPhrase(equiv, p));
      assert Value() == Widened(old(Value()), equiv);
      Canonicalize();
    }

    /** The exact check, phrases included. */
    method MatchesPositioned(v: TitleView) returns (accepted: bool)
      requires SearchablePhrases(Value()) && SortedView(v)
      ensures accepted <==> Accepts(Value(), v)
    {
      accepted := CheckQuery(Value(), v);
    }
  }

  /** The flat predicates first, then one search per phrase; a search that gives up fails open. */
  method CheckQuery(q: Query, v: TitleView) returns (accepted: bool)
    requires SearchablePhrases(q) && SortedView(v)
    ensures accepted <==> Accepts(q, v)
  {
    hide MatchesFlat, PG.Canonical, PG.SortedTitle, PG.Occurs, PhraseSearch.BoundedAnswer, PhraseSearch.WithinBudget;
    if !MatchesFlat(q, v.pos, v.neg) {
      return false;
    }
    for i := 0 to |q.requiredPhrases|
      invariant forall k :: 0 <= k < i ==> Required(v, q.requiredPhrases[k]) != Some(false)
    {
      var p := q.requiredPhrases[i];
      assert p in q.requiredPhrases;
      var answer := PhraseSearch.PhraseGraphMatchesBounded(p, v.posPositions, v.posArcs, v.complete);
      if answer == Some(false) {
        return false;
      }
    }
    for i := 0 to |q.forbiddenPhrases|
      invariant forall k :: 0 <= k < i ==> Forbidden(v, q.forbiddenPhrases[k]) != Some(true)
    {
      var p := q.forbiddenPhrases[i];
      assert p in q.forbiddenPhrases;
      var answer := PhraseSearch.PhraseGraphMatchesBounded(p, v.negPositions, v.negArcs, true);
      if answer == Some(true) {
        return false;
      }
    }
    return true;
  }
}
