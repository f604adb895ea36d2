/** A checksum register driven by a linear step: what feeding bytes one at a time does, said
    without looking inside a word. `xor` is only known to be associative with a right unit.
  */
module LinearFold {

  ghost predicate Associative<T(!new)>(xor: (T, T) -> T) {
    forall a, b, c :: xor(xor(a, b), c) == xor(a, xor(b, c))
  }

  ghost predicate RightUnit<T(!new)>(xor: (T, T) -> T, zero: T) {
    forall a :: xor(a, zero) == a
  }

  ghost predicate Linear<T(!new)>(step: T -> T, xor: (T, T) -> T) {
    forall a, b :: step(xor(a, b)) == xor(step(a), step(b))
  }

  function Power<T>(step: T -> T, n: nat, x: T): T {
    if n == 0 then x else step(Power(step, n - 1, x))
  }

  /** Feed `data` to the register one element at a time. */
  function Feed<T>(step: T -> T, xor: (T, T) -> T, register: T, data: seq<T>): T {
    if data == [] then register
    else step(xor(Feed(step, xor, register, data[..|data| - 1]), data[|data| - 1]))
  }

  lemma {:induction false} PowerInner<T>(step: T -> T, n: nat, x: T)
    ensures Power(step, n + 1, x) == Power(step, n, step(x))
  {
    if n > 0 { PowerInner(step, n - 1, x); }
  }

  lemma {:induction false} PowerAdd<T>(step: T -> T, m: nat, n: nat, x: T)
    ensures Power(step, m + n, x) == Power(step, m, Power(step, n, x))
  {
    if m > 0 { PowerAdd(step, m - 1, n, x); }
  }

  lemma {:induction false} PowerLinear<T(!new)>(step: T -> T, xor: (T, T) -> T, n: nat, a: T, b: T)
    requires Linear(step, xor)
    ensures Power(step, n, xor(a, b)) == xor(Power(step, n, a), Power(step, n, b))
  {
    if n > 0 { PowerLinear(step, xor, n - 1, a, b); }
  }

  lemma {:induction false} FeedConcat<T>(step: T -> T, xor: (T, T) -> T, register: T, a: seq<T>, b: seq<T>)
    ensures Feed(step, xor, register, a + b) == Feed(step, xor, Feed(step, xor, register, a), b)
  {
    if b == [] {
      assert a + b == a;
    } else {
      var n := |b| - 1;
      assert (a + b)[..|a + b| - 1] == a + b[..n];
      FeedConcat(step, xor, register, a, b[..n]);
    }
  }

  /** The register and the data act independently. */
  lemma {:induction false} Superposition<T(!new)>(step: T -> T, xor: (T, T) -> T, zero: T, register: T, data: seq<T>)
    requires Linear(step, xor) && Associative(xor) && RightUnit(xor, zero)
    ensures Feed(step, xor, register, data) == xor(Power(step, |data|, register), Feed(step, xor, zero, data))
  {
    if data != [] {
      var n := |data| - 1;
      Superposition(step, xor, zero, register, data[..n]);
      var p, f := Power(step, n, register), Feed(step, xor, zero, data[..n]);
      assert xor(xor(p, f), data[n]) == xor(p, xor(f, data[n]));
      assert step(xor(p, xor(f, data[n]))) == xor(step(p), step(xor(f, data[n])));
    }
  }

  ghost predicate LeftUnit<T(!new)>(xor: (T, T) -> T, zero: T) {
    forall a :: xor(zero, a) == a
  }

  /** Four elements fed to an empty register. */
  lemma FeedFour<T(!new)>(step: T -> T, xor: (T, T) -> T, zero: T, b0: T, b1: T, b2: T, b3: T)
    requires Linear(step, xor) && LeftUnit(xor, zero)
    ensures Feed(step, xor, zero, [b0, b1, b2, b3])
         == xor(xor(xor(Power(step, 4, b0), Power(step, 3, b1)), Power(step, 2, b2)), Power(step, 1, b3))
  {
    assert [b0, b1, b2, b3][..3] == [b0, b1, b2] && [b0, b1, b2][..2] == [b0, b1] && [b0, b1][..1] == [b0] &&
        [b0][..0] == [];
    assert Feed(step, xor, zero, [b0]) == step(xor(Feed(step, xor, zero, []), b0)) == step(b0);
    assert Feed(step, xor, zero, [b0, b1]) == step(xor(step(b0), b1));
    assert Feed(step, xor, zero, [b0, b1, b2]) == step(xor(step(xor(step(b0), b1)), b2));
    assert Power(step, 1, b3) == step(b3) && Power(step, 1, b2) == step(b2) && Power(step, 1, b1) == step(b1) &&
        Power(step, 1, b0) == step(b0);
    assert Power(step, 2, b2) == step(step(b2)) && Power(step, 2, b1) == step(step(b1)) &&
        Power(step, 2, b0) == step(step(b0));
    assert Power(step, 3, b1) == step(Power(step, 2, b1)) && Power(step, 3, b0) == step(Power(step, 2, b0));
    assert Power(step, 4, b0) == step(Power(step, 3, b0));
  }

  /** A word laid out as four lanes: lane `k` holds `l_k` shifted so that `k` steps bring it down. */
  ghost predicate Lanes<T(!new)>(step: T -> T, xor: (T, T) -> T, word: T,
                           l0: T, s1: T, l1: T, s2: T, l2: T, s3: T, l3: T) {
    && word == xor(xor(xor(l0, s1), s2), s3)
    && Power(step, 1, s1) == l1 && Power(step, 2, s2) == l2 && Power(step, 3, s3) == l3
  }

  lemma LanesPower<T(!new)>(step: T -> T, xor: (T, T) -> T, n: nat, word: T,
                      l0: T, s1: T, l1: T, s2: T, l2: T, s3: T, l3: T)
    requires Linear(step, xor) && Lanes(step, xor, word, l0, s1, l1, s2, l2, s3, l3)
    ensures Power(step, n + 4, word)
         == xor(xor(xor(Power(step, n + 4, l0), Power(step, n + 3, l1)), Power(step, n + 2, l2)),
                Power(step, n + 1, l3))
  {
    PowerLinear(step, xor, n + 4, xor(xor(l0, s1), s2), s3);
    PowerLinear(step, xor, n + 4, xor(l0, s1), s2);
    PowerLinear(step, xor, n + 4, l0, s1);
    PowerAdd(step, n + 3, 1, s1);
    PowerAdd(step, n + 2, 2, s2);
    PowerAdd(step, n + 1, 3, s3);
  }

  /** The register absorbs four elements as one word. */
  lemma FourAtOnce<T(!new)>(step: T -> T, xor: (T, T) -> T, zero: T, register: T,
                      b0: T, b1: T, b2: T, b3: T, u1: T, u2: T, u3: T, word: T)
    requires Linear(step, xor) && Associative(xor) && RightUnit(xor, zero) && LeftUnit(xor, zero)
    requires Lanes(step, xor, word, b0, u1, b1, u2, b2, u3, b3)
    ensures Feed(step, xor, register, [b0, b1, b2, b3]) == Power(step, 4, xor(register, word))
  {
    Superposition(step, xor, zero, register, [b0, b1, b2, b3]);
    FeedFour(step, xor, zero, b0, b1, b2, b3);
    LanesPower(step, xor, 0, word, b0, u1, b1, u2, b2, u3, b3);
    PowerLinear(step, xor, 4, register, word);
  }

  lemma FourMore<T(!new)>(step: T -> T, xor: (T, T) -> T, zero: T, low: T, b4: T, b5: T, b6: T, b7: T)
    requires Linear(step, xor) && Associative(xor) && RightUnit(xor, zero) && LeftUnit(xor, zero)
    ensures Feed(step, xor, Power(step, 4, low), [b4, b5, b6, b7])
         == xor(xor(xor(xor(Power(step, 8, low), Power(step, 4, b4)), Power(step, 3, b5)), Power(step, 2, b6)),
                Power(step, 1, b7))
  {
    Superposition(step, xor, zero, Power(step, 4, low), [b4, b5, b6, b7]);
    FeedFour(step, xor, zero, b4, b5, b6, b7);
    PowerAdd(step, 4, 4, low);
    Regroup(xor, Power(step, 8, low), Power(step, 4, b4), Power(step, 3, b5), Power(step, 2, b6), Power(step, 1, b7));
  }

  function Combine<T>(xor: (T, T) -> T, a0: T, a1: T, a2: T, a3: T, a4: T, a5: T, a6: T, a7: T): T {
    xor(xor(xor(xor(xor(xor(xor(a0, a1), a2), a3), a4), a5), a6), a7)
  }

  /** Eight elements at once: the register absorbs the first four as one word, and every lane
      is advanced by as many steps as there are elements behind it. */
  lemma EightAtOnce<T(!new)>(step: T -> T, xor: (T, T) -> T, zero: T, register: T,
                       b0: T, b1: T, b2: T, b3: T, b4: T, b5: T, b6: T, b7: T, u1: T, u2: T, u3: T, word: T,
                       l0: T, s1: T, l1: T, s2: T, l2: T, s3: T, l3: T)
    requires Linear(step, xor) && Associative(xor) && RightUnit(xor, zero) && LeftUnit(xor, zero)
    requires Lanes(step, xor, word, b0, u1, b1, u2, b2, u3, b3)
    requires Lanes(step, xor, xor(register, word), l0, s1, l1, s2, l2, s3, l3)
    ensures Feed(step, xor, register, [b0, b1, b2, b3, b4, b5, b6, b7])
         == Combine(xor, Power(step, 8, l0), Power(step, 7, l1), Power(step, 6, l2), Power(step, 5, l3),
                    Power(step, 4, b4), Power(step, 3, b5), Power(step, 2, b6), Power(step, 1, b7))
  {
    var first, second := [b0, b1, b2, b3], [b4, b5, b6, b7];
    assert [b0, b1, b2, b3, b4, b5, b6, b7] == first + second;
    FeedConcat(step, xor, register, first, second);
    FourAtOnce(step, xor, zero, register, b0, b1, b2, b3, u1, u2, u3, word);
    FourMore(step, xor, zero, xor(register, word), b4, b5, b6, b7);
    LanesPower(step, xor, 4, xor(register, word), l0, s1, l1, s2, l2, s3, l3);
  }

  lemma Regroup<T(!new)>(xor: (T, T) -> T, a: T, b: T, c: T, d: T, e: T)
    requires Associative(xor)
    ensures xor(a, xor(xor(xor(b, c), d), e)) == xor(xor(xor(xor(a, b), c), d), e)
  {
    assert xor(xor(a, xor(xor(b, c), d)), e) == xor(a, xor(xor(xor(b, c), d), e));
    assert xor(xor(a, xor(b, c)), d) == xor(a, xor(xor(b, c), d));
    assert xor(xor(a, b), c) == xor(a, xor(b, c));
  }

  // ---- what a change does ----

  ghost predicate Injective<T(!new)>(step: T -> T) {
    forall a, b :: step(a) == step(b) ==> a == b
  }

  ghost predicate Cancels<T(!new)>(xor: (T, T) -> T) {
    && (forall a, b, c :: xor(a, c) == xor(b, c) ==> a == b)
    && (forall a, b, c :: xor(a, b) == xor(a, c) ==> b == c)
  }

  lemma {:induction false} PowerInjective<T(!new)>(step: T -> T, n: nat, a: T, b: T)
    requires Injective(step) && Power(step, n, a) == Power(step, n, b)
    ensures a == b
  {
    if n > 0 { PowerInjective(step, n - 1, a, b); }
  }

  /** Two different registers never meet again on the same data. */
  lemma {:induction false} NeverMeet<T(!new)>(step: T -> T, xor: (T, T) -> T, r: T, s: T, data: seq<T>)
    requires Injective(step) && Cancels(xor) && r != s
    ensures Feed(step, xor, r, data) != Feed(step, xor, s, data)
  {
    if data != [] { NeverMeet(step, xor, r, s, data[..|data| - 1]); }
  }

  /** Changing exactly one element changes the result. */
  lemma OneChange<T(!new)>(step: T -> T, xor: (T, T) -> T, register: T, data: seq<T>, i: nat, x: T)
    requires Injective(step) && Cancels(xor)
    requires i < |data| && x != data[i]
    ensures Feed(step, xor, register, data[i := x]) != Feed(step, xor, register, data)
  {
    var before, after := data[..i], data[i + 1..];
    assert data == before + [data[i]] + after && data[i := x] == before + [x] + after;
    FeedConcat(step, xor, register, before + [data[i]], after);
    FeedConcat(step, xor, register, before + [x], after);
    assert (before + [data[i]])[..i] == before && (before + [x])[..i] == before;
    var r := Feed(step, xor, register, before);
    assert Feed(step, xor, register, before + [data[i]]) == step(xor(r, data[i]));
    assert Feed(step, xor, register, before + [x]) == step(xor(r, x));
    NeverMeet(step, xor, step(xor(r, x)), step(xor(r, data[i])), after);
  }
}
