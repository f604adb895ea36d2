/** Strict total orders, ascending lists and the canonical listing of a collection: what
    "sort, then drop repeats" produces, and why it depends on the elements alone.
  */
module Orders {

  ghost predicate StrictTotal<T(!new)>(less: (T, T) -> bool) {
    && (forall x :: !less(x, x))
    && (forall x, y, z :: less(x, y) && less(y, z) ==> less(x, z))
    && (forall x, y :: x != y ==> less(x, y) || less(y, x))
  }

  ghost predicate Ascending<T>(s: seq<T>, less: (T, T) -> bool) {
    forall i, j :: 0 <= i < j < |s| ==> less(s[i], s[j])
  }

  ghost function Elements<T>(s: seq<T>): set<T> {
    set x | x in s
  }

  ghost predicate Distinct<T>(s: seq<T>) {
    forall i, j :: 0 <= i < j < |s| ==> s[i] != s[j]
  }

  predicate NatLess(a: nat, b: nat) {
    a < b
  }

  lemma NatOrder()
    ensures StrictTotal(NatLess)
  {
  }

  /** An ascending list is determined by its elements. */
  lemma {:induction false} AscendingUnique<T(!new)>(a: seq<T>, b: seq<T>, less: (T, T) -> bool)
    requires StrictTotal(less) && Ascending(a, less) && Ascending(b, less)
    requires Elements(a) == Elements(b)
    ensures a == b
  {
    assert a != [] ==> a[0] in Elements(a);
    assert b != [] ==> b[0] in Elements(b);
    if a != [] && b != [] {
      var j :| 0 <= j < |a| && a[j] == b[0];
      assert a[0] == b[0];
      forall x ensures x in Elements(a[1..]) <==> x in Elements(b[1..])
      {
        HeadApart(a, less, x);
        HeadApart(b, less, x);
        assert x in a <==> x in Elements(a);
        assert x in b <==> x in Elements(b);
      }
      AscendingUnique(a[1..], b[1..], less);
    }
  }

  lemma HeadApart<T(!new)>(a: seq<T>, less: (T, T) -> bool, x: T)
    requires StrictTotal(less) && Ascending(a, less) && a != []
    ensures x in a[1..] <==> x in a && x != a[0]
  {
    assert a == [a[0]] + a[1..];
  }

  // ---- sort_unstable followed by dedup ----

  function InsertNew<T(==)>(x: T, s: seq<T>, less: (T, T) -> bool): seq<T> {
    if s == [] then [x]
    else if x == s[0] then s
    else if less(x, s[0]) then [x] + s
    else [s[0]] + InsertNew(x, s[1..], less)
  }

  function SortDedup<T(==)>(s: seq<T>, less: (T, T) -> bool): seq<T> {
    if s == [] then [] else InsertNew(s[0], SortDedup(s[1..], less), less)
  }

  lemma {:induction false} InsertNewMember<T(!new)>(x: T, s: seq<T>, less: (T, T) -> bool, y: T)
    ensures y in InsertNew(x, s, less) <==> y == x || y in s
  {
    if s != [] && x != s[0] && !less(x, s[0]) {
      InsertNewMember(x, s[1..], less, y);
      assert s == [s[0]] + s[1..];
    }
  }

  lemma {:induction false} InsertNewAscending<T(!new)>(x: T, s: seq<T>, less: (T, T) -> bool)
    requires StrictTotal(less) && Ascending(s, less)
    ensures Ascending(InsertNew(x, s, less), less)
  {
    if s != [] && x != s[0] {
      if less(x, s[0]) {
        forall j | 0 <= j < |s| ensures less(x, s[j]) {
          if j > 0 { assert less(s[0], s[j]); }
        }
      } else {
        InsertNewAscending(x, s[1..], less);
        var tail := InsertNew(x, s[1..], less);
        forall j | 0 <= j < |tail| ensures less(s[0], tail[j]) {
          InsertNewMember(x, s[1..], less, tail[j]);
          if tail[j] != x {
            var k :| 0 <= k < |s[1..]| && s[1..][k] == tail[j];
            assert less(s[0], s[k + 1]);
          }
        }
      }
    }
  }

  /** Sorting and dropping repeats keeps the elements and leaves one ascending list. */
  lemma {:induction false} SortDedupListing<T(!new)>(s: seq<T>, less: (T, T) -> bool)
    requires StrictTotal(less)
    ensures Ascending(SortDedup(s, less), less)
    ensures Elements(SortDedup(s, less)) == Elements(s)
  {
    if s != [] {
      SortDedupListing(s[1..], less);
      var tail := SortDedup(s[1..], less);
      InsertNewAscending(s[0], tail, less);
      forall y ensures y in Elements(SortDedup(s, less)) <==> y in Elements(s) {
        InsertNewMember(s[0], tail, less, y);
        assert s == [s[0]] + s[1..];
        assert y in Elements(tail) <==> y in Elements(s[1..]);
      }
    }
  }

  /** Membership form of the listing lemma. */
  lemma SortDedupMember<T(!new)>(s: seq<T>, less: (T, T) -> bool, x: T)
    requires StrictTotal(less)
    ensures x in SortDedup(s, less) <==> x in s
  {
    SortDedupListing(s, less);
    assert x in Elements(SortDedup(s, less)) <==> x in Elements(s);
  }

  /** The listing depends on the elements alone. */
  lemma SortDedupByElements<T(!new)>(a: seq<T>, b: seq<T>, less: (T, T) -> bool)
    requires StrictTotal(less) && Elements(a) == Elements(b)
    ensures SortDedup(a, less) == SortDedup(b, less)
  {
    SortDedupListing(a, less);
    SortDedupListing(b, less);
    AscendingUnique(SortDedup(a, less), SortDedup(b, less), less);
  }

  /** An ascending list is already its own listing. */
  lemma SortDedupFixed<T(!new)>(s: seq<T>, less: (T, T) -> bool)
    requires StrictTotal(less) && Ascending(s, less)
    ensures SortDedup(s, less) == s
  {
    SortDedupListing(s, less);
    AscendingUnique(SortDedup(s, less), s, less);
  }

  // ---- lexicographic order ----

  predicate LexLess<T(==)>(a: seq<T>, b: seq<T>, less: (T, T) -> bool) {
    if b == [] then false
    else if a == [] then true
    else if a[0] == b[0] then LexLess(a[1..], b[1..], less)
    else less(a[0], b[0])
  }

  lemma {:induction false} LexIrreflexive<T(!new)>(a: seq<T>, less: (T, T) -> bool)
    ensures !LexLess(a, a, less)
  {
    if a != [] { LexIrreflexive(a[1..], less); }
  }

  lemma {:induction false} LexTransitive<T(!new)>(a: seq<T>, b: seq<T>, c: seq<T>, less: (T, T) -> bool)
    requires StrictTotal(less) && LexLess(a, b, less) && LexLess(b, c, less)
    ensures LexLess(a, c, less)
  {
    if a != [] && a[0] == b[0] && b[0] == c[0] { LexTransitive(a[1..], b[1..], c[1..], less); }
  }

  lemma {:induction false} LexTotal<T(!new)>(a: seq<T>, b: seq<T>, less: (T, T) -> bool)
    requires StrictTotal(less) && a != b
    ensures LexLess(a, b, less) || LexLess(b, a, less)
  {
    if a != [] && b != [] && a[0] == b[0] {
      assert a == [a[0]] + a[1..] && b == [b[0]] + b[1..];
      LexTotal(a[1..], b[1..], less);
    }
  }

  /** The lexicographic order of a strict total order is one, under any name it is given. */
  lemma LexStrictTotal<T(!new)>(less: (T, T) -> bool, lex: (seq<T>, seq<T>) -> bool)
    requires StrictTotal(less)
    requires forall a, b :: lex(a, b) == LexLess(a, b, less)
    ensures StrictTotal(lex)
  {
    forall a ensures !lex(a, a) { LexIrreflexive(a, less); }
    forall a, b, c | lex(a, b) && lex(b, c) ensures lex(a, c) { LexTransitive(a, b, c, less); }
    forall a, b | a != b ensures lex(a, b) || lex(b, a) { LexTotal(a, b, less); }
  }
}
