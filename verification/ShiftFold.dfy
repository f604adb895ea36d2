/** Mixing a word with a shifted copy of itself, and undoing it. Words are left abstract: all
    that counts is that the shift is linear and empties the word after three applications.
  */
module ShiftFold {
  import opened LinearFold

  function Folded<T>(xor: (T, T) -> T, shift: T -> T, x: T): T {
    xor(x, shift(x))
  }

  function Unfolded<T>(xor: (T, T) -> T, shift: T -> T, x: T): T {
    xor(xor(x, shift(x)), shift(shift(x)))
  }

  ghost predicate SelfInverse<T(!new)>(xor: (T, T) -> T, zero: T) {
    forall a :: xor(a, a) == zero
  }

  ghost predicate Empties<T(!new)>(shift: T -> T, zero: T) {
    forall a :: shift(shift(shift(a))) == zero
  }

  ghost predicate IsFold<T(!new)>(xor: (T, T) -> T, zero: T, shift: T -> T) {
    && Associative(xor) && RightUnit(xor, zero) && LeftUnit(xor, zero) && SelfInverse(xor, zero)
    && Linear(shift, xor) && Empties(shift, zero)
  }

  lemma UnfoldUndoes<T(!new)>(xor: (T, T) -> T, zero: T, shift: T -> T, x: T)
    requires IsFold(xor, zero, shift)
    ensures Unfolded(xor, shift, Folded(xor, shift, x)) == x
  {
    var b, c := shift(x), shift(shift(x));
    var f := xor(x, b);
    assert shift(f) == xor(b, c);
    assert shift(shift(f)) == c by {
      assert shift(xor(b, c)) == xor(shift(b), shift(c));
      assert shift(c) == zero;
    }
    Collapse(xor, zero, x, b, c);
  }

  lemma Collapse<T(!new)>(xor: (T, T) -> T, zero: T, a: T, b: T, c: T)
    requires Associative(xor) && RightUnit(xor, zero) && LeftUnit(xor, zero) && SelfInverse(xor, zero)
    ensures xor(xor(xor(a, b), xor(b, c)), c) == a
  {
    assert xor(xor(a, b), xor(b, c)) == xor(a, xor(b, xor(b, c)));
    assert xor(xor(b, b), c) == xor(b, xor(b, c));
    assert xor(xor(a, c), c) == xor(a, xor(c, c));
  }

  lemma FoldUndoes<T(!new)>(xor: (T, T) -> T, zero: T, shift: T -> T, x: T)
    requires IsFold(xor, zero, shift)
    ensures Folded(xor, shift, Unfolded(xor, shift, x)) == x
  {
    ShiftUnfolded(xor, zero, shift, x);
    CancelPair(xor, zero, x, shift(x), shift(shift(x)));
  }

  lemma ShiftUnfolded<T(!new)>(xor: (T, T) -> T, zero: T, shift: T -> T, x: T)
    requires RightUnit(xor, zero) && Linear(shift, xor) && Empties(shift, zero)
    ensures shift(Unfolded(xor, shift, x)) == xor(shift(x), shift(shift(x)))
  {
    var p, q := shift(x), shift(shift(x));
    assert shift(xor(xor(x, p), q)) == xor(shift(xor(x, p)), shift(q));
    assert shift(q) == zero;
  }

  lemma CancelPair<T(!new)>(xor: (T, T) -> T, zero: T, x: T, p: T, q: T)
    requires Associative(xor) && RightUnit(xor, zero) && SelfInverse(xor, zero)
    ensures xor(xor(xor(x, p), q), xor(p, q)) == x
  {
    var pq := xor(p, q);
    assert xor(xor(x, p), q) == xor(x, pq);
    assert xor(xor(x, pq), pq) == xor(x, xor(pq, pq));
  }
}
