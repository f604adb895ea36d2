/** Lists rewritten element by element, filtered, sorted and freed of repeats: the steps every
    canonical form is made of.
  */
module Lists {
  import opened Orders

  function Map<S, T>(f: S -> T, s: seq<S>): seq<T> {
    seq(|s|, i requires 0 <= i < |s| => f(s[i]))
  }

  function Filter<T>(keep: T -> bool, s: seq<T>): seq<T> {
    if s == [] then []
    else Filter(keep, s[..|s| - 1]) + (if keep(s[|s| - 1]) then [s[|s| - 1]] else [])
  }

  lemma MapMember<S(!new), T(!new)>(f: S -> T, s: seq<S>, y: T)
    ensures y in Map(f, s) <==> exists x :: x in s && f(x) == y
  {
    if y in Map(f, s) {
      var i :| 0 <= i < |s| && Map(f, s)[i] == y;
      assert s[i] in s && f(s[i]) == y;
    }
    if x :| x in s && f(x) == y {
      var i :| 0 <= i < |s| && s[i] == x;
      assert Map(f, s)[i] == y;
    }
  }

  lemma MapFixed<T(!new)>(f: T -> T, s: seq<T>)
    requires forall x :: x in s ==> f(x) == x
    ensures Map(f, s) == s
  {
    forall i | 0 <= i < |s| ensures f(s[i]) == s[i] { assert s[i] in s; }
  }

  lemma {:induction false} FilterMember<T(!new)>(keep: T -> bool, s: seq<T>, x: T)
    ensures x in Filter(keep, s) <==> x in s && keep(x)
  {
    if s != [] {
      FilterMember(keep, s[..|s| - 1], x);
      assert s == s[..|s| - 1] + [s[|s| - 1]];
    }
  }

  lemma {:induction false} FilterAll<T(!new)>(keep: T -> bool, s: seq<T>)
    requires forall x :: x in s ==> keep(x)
    ensures Filter(keep, s) == s
  {
    if s != [] {
      var rest, last := s[..|s| - 1], s[|s| - 1];
      assert keep(last) by { assert last in s; }
      forall x | x in rest ensures keep(x) { assert x in s; }
      FilterAll(keep, rest);
      assert s == rest + [last];
    }
  }

  /** Rewrite each element, keep some, sort, drop repeats. */
  function Normalize<T(==)>(s: seq<T>, f: T -> T, keep: T -> bool, less: (T, T) -> bool): seq<T> {
    SortDedup(Filter(keep, Map(f, s)), less)
  }

  lemma NormalizeMember<T(!new)>(s: seq<T>, f: T -> T, keep: T -> bool, less: (T, T) -> bool, y: T)
    requires StrictTotal(less)
    ensures y in Normalize(s, f, keep, less) <==> keep(y) && exists x :: x in s && f(x) == y
  {
    SortDedupMember(Filter(keep, Map(f, s)), less, y);
    FilterMember(keep, Map(f, s), y);
    MapMember(f, s, y);
  }

  /** An ascending list whose elements the rewriting leaves alone and keeps is left alone. */
  lemma NormalizeFixed<T(!new)>(s: seq<T>, f: T -> T, keep: T -> bool, less: (T, T) -> bool)
    requires StrictTotal(less) && Ascending(s, less)
    requires forall x :: x in s ==> f(x) == x && keep(x)
    ensures Normalize(s, f, keep, less) == s
  {
    MapFixed(f, s);
    FilterAll(keep, s);
    SortDedupFixed(s, less);
  }

  /** A normalized list stays as it is, when rewriting twice is rewriting once. */
  lemma NormalizeIdempotent<T(!new)>(s: seq<T>, f: T -> T, keep: T -> bool, less: (T, T) -> bool)
    requires StrictTotal(less) && forall x :: x in s ==> f(f(x)) == f(x)
    ensures Normalize(Normalize(s, f, keep, less), f, keep, less) == Normalize(s, f, keep, less)
  {
    var n := Normalize(s, f, keep, less);
    SortDedupListing(Filter(keep, Map(f, s)), less);
    forall y | y in n
      ensures f(y) == y && keep(y)
    {
      NormalizeMember(s, f, keep, less, y);
    }
    NormalizeFixed(n, f, keep, less);
  }

  /** Rewriting a list in place, one element after the other. */
  method RewriteAll<T>(s: seq<T>, f: T -> T) returns (r: seq<T>)
    ensures r == Map(f, s)
  {
    r := s;
    for i := 0 to |s|
      invariant |r| == |s|
      invariant forall k :: 0 <= k < i ==> r[k] == f(s[k])
      invariant forall k :: i <= k < |s| ==> r[k] == s[k]
    {
      r := r[i := f(r[i])];
    }
  }
}
