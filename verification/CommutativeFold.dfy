/** Folding a list into a commutative monoid: order does not matter, splits do not matter, and
    where the operation cancels a single change always shows.
  */
module CommutativeFold {

  /** Commutativity and associativity at three values. */
  ghost predicate Laws<M>(op: (M, M) -> M, a: M, b: M, c: M) {
    op(a, b) == op(b, a) && op(op(a, b), c) == op(a, op(b, c))
  }

  ghost predicate Monoid<M(!new)>(op: (M, M) -> M, unit: M) {
    && (forall a, b, c :: Laws(op, a, b, c))
    && (forall a :: op(a, unit) == a)
  }

  ghost predicate LeftCancels<M(!new)>(op: (M, M) -> M) {
    forall a, b, c :: op(a, b) == op(a, c) ==> b == c
  }

  function Total<T, M>(op: (M, M) -> M, unit: M, value: T -> M, s: seq<T>): M {
    if s == [] then unit else op(Total(op, unit, value, s[..|s| - 1]), value(s[|s| - 1]))
  }

  lemma {:induction false} TotalConcat<T, M(!new)>(op: (M, M) -> M, unit: M, value: T -> M, a: seq<T>, b: seq<T>)
    requires Monoid(op, unit)
    ensures Total(op, unit, value, a + b) == op(Total(op, unit, value, a), Total(op, unit, value, b))
  {
    if b == [] {
      assert a + b == a;
    } else {
      var n := |b| - 1;
      assert (a + b)[..|a + b| - 1] == a + b[..n];
      TotalConcat(op, unit, value, a, b[..n]);
      assert Laws(op, Total(op, unit, value, a), Total(op, unit, value, b[..n]), value(b[n]));
    }
  }

  /** Taking one element out of the middle. */
  lemma TotalRemove<T, M(!new)>(op: (M, M) -> M, unit: M, value: T -> M, s: seq<T>, i: nat)
    requires Monoid(op, unit) && i < |s|
    ensures Total(op, unit, value, s) == op(Total(op, unit, value, s[..i] + s[i + 1..]), value(s[i]))
  {
    hide *;
    var a, x, b := s[..i], s[i], s[i + 1..];
    assert s == (a + [x]) + b;
    TotalConcat(op, unit, value, a + [x], b);
    TotalConcat(op, unit, value, a, b);
    TotalLast(op, unit, value, a, x);
    Swap(op, unit, Total(op, unit, value, a), value(x), Total(op, unit, value, b));
  }

  lemma TotalLast<T, M(!new)>(op: (M, M) -> M, unit: M, value: T -> M, a: seq<T>, x: T)
    ensures Total(op, unit, value, a + [x]) == op(Total(op, unit, value, a), value(x))
  {
    assert (a + [x])[..|a|] == a;
  }

  lemma Swap<M(!new)>(op: (M, M) -> M, unit: M, p: M, v: M, q: M)
    requires Monoid(op, unit)
    ensures op(op(p, v), q) == op(op(p, q), v)
  {
    assert Laws(op, p, v, q) && Laws(op, p, q, v) && Laws(op, q, v, p);
  }

  lemma FrontMultiset<T>(a: seq<T>)
    requires a != []
    ensures multiset(a[..|a| - 1]) == multiset(a) - multiset{a[|a| - 1]}
  {
    assert a == a[..|a| - 1] + [a[|a| - 1]];
  }

  lemma RestMultiset<T>(b: seq<T>, i: nat)
    requires i < |b|
    ensures multiset(b[..i] + b[i + 1..]) == multiset(b) - multiset{b[i]}
  {
    assert b == b[..i] + [b[i]] + b[i + 1..];
  }

  lemma TotalFront<T, M>(op: (M, M) -> M, unit: M, value: T -> M, a: seq<T>)
    requires a != []
    ensures Total(op, unit, value, a) == op(Total(op, unit, value, a[..|a| - 1]), value(a[|a| - 1]))
  {
  }

  lemma TotalEmpty<T, M>(op: (M, M) -> M, unit: M, value: T -> M, a: seq<T>, b: seq<T>)
    requires a == [] && multiset(a) == multiset(b)
    ensures a == b
  {
    assert |multiset(a)| == |a| && |multiset(b)| == |b|;
  }

  /** The total depends on the multiset alone. */
  lemma {:induction false} TotalOfMultiset<T, M(!new)>(op: (M, M) -> M, unit: M, value: T -> M, a: seq<T>, b: seq<T>)
    requires Monoid(op, unit) && multiset(a) == multiset(b)
    ensures Total(op, unit, value, a) == Total(op, unit, value, b)
    decreases |a|
  {
    hide *;
    if a == [] {
      TotalEmpty(op, unit, value, a, b);
    } else {
      var n := |a| - 1;
      assert a[n] in multiset(b);
      var i :| 0 <= i < |b| && b[i] == a[n];
      FrontMultiset(a);
      RestMultiset(b, i);
      TotalOfMultiset(op, unit, value, a[..n], b[..i] + b[i + 1..]);
      TotalFront(op, unit, value, a);
      TotalRemove(op, unit, value, b, i);
    }
  }

  /** One change shows when the changed values differ. */
  lemma OneChangeShows<T, M(!new)>(op: (M, M) -> M, unit: M, value: T -> M, s: seq<T>, i: nat, x: T)
    requires Monoid(op, unit) && LeftCancels(op)
    requires i < |s| && value(x) != value(s[i])
    ensures Total(op, unit, value, s[i := x]) != Total(op, unit, value, s)
  {
    TotalRemove(op, unit, value, s, i);
    TotalRemove(op, unit, value, s[i := x], i);
    assert s[i := x][..i] == s[..i] && s[i := x][i + 1..] == s[i + 1..];
  }

  function Flatten<T>(parts: seq<seq<T>>): seq<T> {
    if parts == [] then [] else Flatten(parts[..|parts| - 1]) + parts[|parts| - 1]
  }

  function Identity<M>(m: M): M { m }

  /** Totals of parts combine to the total of everything. */
  lemma {:induction false} TotalOfParts<T, M(!new)>(op: (M, M) -> M, unit: M, value: T -> M, parts: seq<seq<T>>,
                                                    totals: seq<M>)
    requires Monoid(op, unit) && |totals| == |parts|
    requires forall i :: 0 <= i < |parts| ==> totals[i] == Total(op, unit, value, parts[i])
    ensures Total(op, unit, Identity, totals) == Total(op, unit, value, Flatten(parts))
  {
    if parts != [] {
      var n := |parts| - 1;
      TotalOfParts(op, unit, value, parts[..n], totals[..n]);
      TotalConcat(op, unit, value, Flatten(parts[..n]), parts[n]);
    }
  }
}
