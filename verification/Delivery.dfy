/** The order-independent checksum of an exhaustive delivery, and the 64-bit mixer behind it. */
module Delivery {
  import opened CommutativeFold
  import opened LinearFold
  import opened MemberWords
  import opened ShiftFold
  import opened Wrappers

  type Word64 = bv64

  /** A delivered match. The score is the two's complement word of the signed score. */
  datatype Member = Member(logicalId: Word64, score: Option<Word64>)

  // ---- the mixer and its inverse ----

  function Xor64(a: Word64, b: Word64): Word64 { a ^ b }
  function Shift30(x: Word64): Word64 { x >> 30 }
  function Shift27(x: Word64): Word64 { x >> 27 }
  function Shift31(x: Word64): Word64 { x >> 31 }

  function Fold30(x: Word64): Word64 { Folded(Xor64, Shift30, x) }
  function Fold27(x: Word64): Word64 { Folded(Xor64, Shift27, x) }
  function Fold31(x: Word64): Word64 { Folded(Xor64, Shift31, x) }
  function Scale1(x: Word64): Word64 { x * 0xbf58_476d_1ce4_e5b9 }
  function Scale2(x: Word64): Word64 { x * 0x94d0_49bb_1331_11eb }

  function Mix64(x: Word64): Word64 {
    Fold31(Scale2(Fold27(Scale1(Fold30(x)))))
  }

  function Unfold30(x: Word64): Word64 { Unfolded(Xor64, Shift30, x) }
  function Unfold27(x: Word64): Word64 { Unfolded(Xor64, Shift27, x) }
  function Unfold31(x: Word64): Word64 { Unfolded(Xor64, Shift31, x) }
  function Unscale1(x: Word64): Word64 { x * 0x96de_1b17_3f11_9089 }
  function Unscale2(x: Word64): Word64 { x * 0x3196_42b2_d24d_8ec3 }

  function Unmix64(x: Word64): Word64 {
    Unfold30(Unscale1(Unfold27(Unscale2(Unfold31(x)))))
  }

  lemma Scale1Back(x: Word64)
    ensures Unscale1(Scale1(x)) == x && Scale1(Unscale1(x)) == x
  {
    assert Unscale1(x * 0xbf58_476d_1ce4_e5b9) == x;
    assert Scale1(x * 0x96de_1b17_3f11_9089) == x;
  }

  lemma Scale2Back(x: Word64)
    ensures Unscale2(Scale2(x)) == x && Scale2(Unscale2(x)) == x
  {
    assert Unscale2(x * 0x94d0_49bb_1331_11eb) == x;
    assert Scale2(x * 0x3196_42b2_d24d_8ec3) == x;
  }

  lemma XorIs(a: Word64, b: Word64)
    ensures Xor64(a, b) == a ^ b
  {
  }

  lemma XorBits(a: Word64, b: Word64, c: Word64, ab: Word64, bc: Word64)
    requires ab == a ^ b && bc == b ^ c
    ensures ab ^ c == a ^ bc
  {
  }

  lemma XorAssociates(a: Word64, b: Word64, c: Word64)
    ensures Xor64(Xor64(a, b), c) == Xor64(a, Xor64(b, c))
  {
    hide Xor64;
    var ab, bc := Xor64(a, b), Xor64(b, c);
    XorIs(a, b);
    XorIs(b, c);
    XorBits(a, b, c, ab, bc);
    XorIs(ab, c);
    XorIs(a, bc);
  }

  lemma XorUnits(a: Word64)
    ensures Xor64(a, 0) == a && Xor64(0, a) == a
  {
  }

  lemma XorSelf(a: Word64)
    ensures Xor64(a, a) == 0
  {
  }

  lemma XorAssociative()
    ensures Associative(Xor64)
  {
    forall a: Word64, b: Word64, c: Word64
      ensures Xor64(Xor64(a, b), c) == Xor64(a, Xor64(b, c))
    {
      XorAssociates(a, b, c);
    }
  }

  lemma XorUnital()
    ensures RightUnit(Xor64, 0) && LeftUnit(Xor64, 0) && SelfInverse(Xor64, 0)
  {
    forall a: Word64
      ensures Xor64(a, 0) == a && Xor64(0, a) == a && Xor64(a, a) == 0
    {
      XorUnits(a);
      XorSelf(a);
    }
  }

  lemma XorGroup()
    ensures Associative(Xor64) && RightUnit(Xor64, 0) && LeftUnit(Xor64, 0) && SelfInverse(Xor64, 0)
  {
    XorAssociative();
    XorUnital();
    hide Associative, RightUnit, LeftUnit, SelfInverse;
  }

  lemma Shift30Linear(a: Word64, b: Word64)
    ensures Shift30(Xor64(a, b)) == Xor64(Shift30(a), Shift30(b))
  {
  }

  lemma Shift30Empties(a: Word64)
    ensures Shift30(Shift30(Shift30(a))) == 0
  {
  }

  lemma Shift30IsFold()
    ensures IsFold(Xor64, 0, Shift30)
  {
    XorGroup();
    forall a: Word64, b: Word64
      ensures Shift30(Xor64(a, b)) == Xor64(Shift30(a), Shift30(b))
    {
      Shift30Linear(a, b);
    }
    forall a: Word64
      ensures Shift30(Shift30(Shift30(a))) == 0
    {
      Shift30Empties(a);
    }
  }

  lemma Fold30Back(x: Word64)
    ensures Unfold30(Fold30(x)) == x && Fold30(Unfold30(x)) == x
  {
    Shift30IsFold();
    UnfoldUndoes(Xor64, 0, Shift30, x);
    FoldUndoes(Xor64, 0, Shift30, x);
  }

  lemma Shift27Linear(a: Word64, b: Word64)
    ensures Shift27(Xor64(a, b)) == Xor64(Shift27(a), Shift27(b))
  {
  }

  lemma Shift27Empties(a: Word64)
    ensures Shift27(Shift27(Shift27(a))) == 0
  {
  }

  lemma Shift27IsFold()
    ensures IsFold(Xor64, 0, Shift27)
  {
    XorGroup();
    forall a: Word64, b: Word64
      ensures Shift27(Xor64(a, b)) == Xor64(Shift27(a), Shift27(b))
    {
      Shift27Linear(a, b);
    }
    forall a: Word64
      ensures Shift27(Shift27(Shift27(a))) == 0
    {
      Shift27Empties(a);
    }
  }

  lemma Fold27Back(x: Word64)
    ensures Unfold27(Fold27(x)) == x && Fold27(Unfold27(x)) == x
  {
    Shift27IsFold();
    UnfoldUndoes(Xor64, 0, Shift27, x);
    FoldUndoes(Xor64, 0, Shift27, x);
  }

  lemma Shift31Linear(a: Word64, b: Word64)
    ensures Shift31(Xor64(a, b)) == Xor64(Shift31(a), Shift31(b))
  {
  }

  lemma Shift31Empties(a: Word64)
    ensures Shift31(Shift31(Shift31(a))) == 0
  {
  }

  lemma Shift31IsFold()
    ensures IsFold(Xor64, 0, Shift31)
  {
    XorGroup();
    forall a: Word64, b: Word64
      ensures Shift31(Xor64(a, b)) == Xor64(Shift31(a), Shift31(b))
    {
      Shift31Linear(a, b);
    }
    forall a: Word64
      ensures Shift31(Shift31(Shift31(a))) == 0
    {
      Shift31Empties(a);
    }
  }

  lemma Fold31Back(x: Word64)
    ensures Unfold31(Fold31(x)) == x && Fold31(Unfold31(x)) == x
  {
    Shift31IsFold();
    UnfoldUndoes(Xor64, 0, Shift31, x);
    FoldUndoes(Xor64, 0, Shift31, x);
  }

  /** The mixer is a bijection: `Unmix64` undoes it on both sides. */
  lemma MixIsBijective(x: Word64)
    ensures Unmix64(Mix64(x)) == x && Mix64(Unmix64(x)) == x
  {
    Fold30Back(x);
    Scale1Back(Fold30(x));
    Fold27Back(Scale1(Fold30(x)));
    Scale2Back(Fold27(Scale1(Fold30(x))));
    Fold31Back(Scale2(Fold27(Scale1(Fold30(x)))));
    Fold31Back(x);
    Scale2Back(Unfold31(x));
    Fold27Back(Unscale2(Unfold31(x)));
    Scale1Back(Unfold27(Unscale2(Unfold31(x))));
    Fold30Back(Unscale1(Unfold27(Unscale2(Unfold31(x)))));
  }

  lemma MixInjective(x: Word64, y: Word64)
    requires Mix64(x) == Mix64(y)
    ensures x == y
  {
    MixIsBijective(x);
    MixIsBijective(y);
  }

  // ---- the two words of a member ----

  function RotateLeft23(x: Word64): Word64 { x.RotateLeft(23) }
  function RotateRight17(x: Word64): Word64 { x.RotateRight(17) }

  function WordOps(): Ops<Word64> {
    Ops(Mix64, Xor64, RotateLeft23, RotateRight17)
  }

  const KEYS: Keys<Word64> := Keys(
    0x9e37_79b9_7f4a_7c15, 0xd6e8_feb8_6659_fd93,
    0xa076_1d64_78bd_642f, 0xe703_7ed1_a0b4_28db,
    0x8ebc_6af0_9c88_c6e3)

  function First(m: Member): Word64 { FirstWord(WordOps(), KEYS, m.logicalId, m.score) }

  function Second(m: Member): Word64 { SecondWord(WordOps(), KEYS, m.logicalId, m.score) }

  // ---- the checksum as a fold ----

  datatype Checksum = Checksum(xor: Word64, sum: Word64)

  const EMPTY := Checksum(0, 0)

  function Add64(a: Word64, b: Word64): Word64 { a + b }

  function Merged(c: Checksum, d: Checksum): Checksum {
    Checksum(Xor64(c.xor, d.xor), Add64(c.sum, d.sum))
  }

  function One(m: Member): Checksum {
    Checksum(First(m), Second(m))
  }

  /** The checksum of a delivery: every member's pair of words, combined. */
  function Summary(members: seq<Member>): Checksum {
    Total(Merged, EMPTY, One, members)
  }

  function MergeAll(checksums: seq<Checksum>): Checksum {
    Total(Merged, EMPTY, Identity, checksums)
  }

  lemma XorCommutes(a: Word64, b: Word64)
    ensures Xor64(a, b) == Xor64(b, a)
  {
  }

  lemma AddCommutes(a: Word64, b: Word64)
    ensures Add64(a, b) == Add64(b, a)
  {
  }

  lemma AddAssociates(a: Word64, b: Word64, c: Word64)
    ensures Add64(Add64(a, b), c) == Add64(a, Add64(b, c))
  {
    assert Add64(a + b, c) == Add64(a, b + c);
  }

  lemma AddUnit(a: Word64)
    ensures Add64(a, 0) == a
  {
  }

  lemma MergedMonoid()
    ensures Monoid(Merged, EMPTY)
  {
    forall a: Checksum, b: Checksum, c: Checksum
      ensures Laws(Merged, a, b, c)
    {
      XorCommutes(a.xor, b.xor);
      XorAssociates(a.xor, b.xor, c.xor);
      AddCommutes(a.sum, b.sum);
      AddAssociates(a.sum, b.sum, c.sum);
    }
    forall a: Checksum
      ensures Merged(a, EMPTY) == a
    {
      XorUnits(a.xor);
      AddUnit(a.sum);
    }
  }

  lemma XorBack(a: Word64, b: Word64)
    ensures Xor64(a, Xor64(a, b)) == b
  {
    assert Xor64(a, a ^ b) == b;
  }

  lemma XorCancels(a: Word64, b: Word64, c: Word64)
    requires Xor64(a, b) == Xor64(a, c)
    ensures b == c
  {
    XorBack(a, b);
    XorBack(a, c);
  }

  lemma AddBack(a: Word64, b: Word64)
    ensures Add64(0 - a, Add64(a, b)) == b
  {
    assert Add64(0 - a, a + b) == b;
  }

  lemma AddCancels(a: Word64, b: Word64, c: Word64)
    requires Add64(a, b) == Add64(a, c)
    ensures b == c
  {
    AddBack(a, b);
    AddBack(a, c);
  }

  lemma MergedCancels()
    ensures LeftCancels(Merged)
  {
    forall a: Checksum, b: Checksum, c: Checksum | Merged(a, b) == Merged(a, c)
      ensures b == c
    {
      XorCancels(a.xor, b.xor, c.xor);
      AddCancels(a.sum, b.sum, c.sum);
    }
  }

  // ---- a change to a member shows in its pair of words ----

  lemma RotateBack(x: Word64)
    ensures RotateLeft23(x).RotateRight(23) == x
  {
    assert x.RotateLeft(23).RotateRight(23) == x;
  }

  lemma MixSeparates()
    ensures Injective(Mix64)
  {
    forall a: Word64, b: Word64 | Mix64(a) == Mix64(b)
      ensures a == b
    {
      MixInjective(a, b);
    }
  }

  lemma RotateSeparates()
    ensures Injective(RotateLeft23)
  {
    forall a: Word64, b: Word64 | RotateLeft23(a) == RotateLeft23(b)
      ensures a == b
    {
      RotateBack(a);
      RotateBack(b);
    }
  }

  lemma XorSeparates()
    ensures Cancels(Xor64)
  {
    forall a: Word64, b: Word64, c: Word64 | Xor64(a, b) == Xor64(a, c)
      ensures b == c
    {
      XorCancels(a, b, c);
    }
    forall a: Word64, b: Word64, c: Word64 | Xor64(a, c) == Xor64(b, c)
      ensures a == b
    {
      XorCommutes(a, c);
      XorCommutes(b, c);
      XorCancels(c, a, b);
    }
  }

  /** The one score whose first word is that of an absent score is not the one whose second is. */
  lemma AbsentScores()
    ensures AbsenceApart(WordOps(), KEYS)
  {
    forall v: Word64 | Xor64(v, 0xd6e8_feb8_6659_fd93) == 0x9e37_79b9_7f4a_7c15
      ensures Xor64(v, 0xe703_7ed1_a0b4_28db) != 0xa076_1d64_78bd_642f
    {
      Solve(v);
    }
  }

  lemma Solve(x: Word64)
    requires x ^ 0xd6e8_feb8_6659_fd93 == 0x9e37_79b9_7f4a_7c15
    ensures x == 0x48df_8701_1913_8186
    ensures x ^ 0xe703_7ed1_a0b4_28db != 0xa076_1d64_78bd_642f
  {
  }

  /** Changing only the id or only the score always changes the pair of words. */
  lemma OneSeparates(m: Member, n: Member)
    requires m != n && (m.logicalId == n.logicalId || m.score == n.score)
    ensures One(m) != One(n)
  {
    MixSeparates();
    RotateSeparates();
    XorSeparates();
    AbsentScores();
    PairSeparates(WordOps(), KEYS, m.logicalId, m.score, n.logicalId, n.score);
  }

  // ---- what the checksum promises ----

  /** The order of delivery does not matter. */
  lemma OrderIndependent(a: seq<Member>, b: seq<Member>)
    requires multiset(a) == multiset(b)
    ensures Summary(a) == Summary(b)
  {
    MergedMonoid();
    TotalOfMultiset(Merged, EMPTY, One, a, b);
  }

  /** However the members are spread over shards, merging the shards' checksums gives the
      checksum of the whole delivery. */
  lemma ShardsMerge(shards: seq<seq<Member>>, checksums: seq<Checksum>, all: seq<Member>)
    requires |checksums| == |shards|
    requires forall i :: 0 <= i < |shards| ==> checksums[i] == Summary(shards[i])
    requires multiset(Flatten(shards)) == multiset(all)
    ensures MergeAll(checksums) == Summary(all)
  {
    ShardsTotal(shards, checksums);
    OrderIndependent(Flatten(shards), all);
  }

  lemma ShardsTotal(shards: seq<seq<Member>>, checksums: seq<Checksum>)
    requires |checksums| == |shards|
    requires forall i :: 0 <= i < |shards| ==> checksums[i] == Summary(shards[i])
    ensures MergeAll(checksums) == Summary(Flatten(shards))
  {
    MergedMonoid();
    TotalOfParts(Merged, EMPTY, One, shards, checksums);
  }

  /** Changing exactly one member's id, or its score to any other value, absent or present,
      always changes the checksum. */
  lemma SingleChangeDetected(members: seq<Member>, i: nat, changed: Member)
    requires i < |members| && changed != members[i]
    requires changed.logicalId == members[i].logicalId || changed.score == members[i].score
    ensures Summary(members[i := changed]) != Summary(members)
  {
    MergedMonoid();
    MergedCancels();
    OneSeparates(changed, members[i]);
    OneChangeShows(Merged, EMPTY, One, members, i, changed);
  }

  // ---- the accumulator ----

  /** Observing one more member turns the checksum of a delivery into that of the longer one. */
  lemma SummaryAppends(seen: seq<Member>, member: Member)
    ensures Summary(seen + [member]) ==
              Checksum(Xor64(Summary(seen).xor, First(member)), Add64(Summary(seen).sum, Second(member)))
  {
    assert (seen + [member])[..|seen|] == seen;
    hide First, Second, Xor64, Add64;
  }

  lemma SummaryConcat(a: seq<Member>, b: seq<Member>)
    ensures Summary(a + b) == Merged(Summary(a), Summary(b))
  {
    MergedMonoid();
    TotalConcat(Merged, EMPTY, One, a, b);
  }

  class DeliveryChecksum {
    var xor: Word64
    var sum: Word64
    /** The members observed here or merged in, in some order. */
    ghost var members: seq<Member>

    ghost predicate Valid()
      reads this
    {
      Checksum(xor, sum) == Summary(members)
    }

    constructor ()
      ensures Valid() && members == []
    {
      xor, sum, members := 0, 0, [];
    }

    method Observe(member: Member)
      requires Valid()
      modifies this
      ensures Valid() && members == old(members) + [member]
    {
      SummaryAppends(members, member);
      hide First, Second, Xor64, Add64, Summary;
      xor := Xor64(xor, First(member));
      sum := Add64(sum, Second(member));
      members := members + [member];
    }

    method Merge(other: DeliveryChecksum)
      requires Valid() && other.Valid()
      modifies this
      ensures Valid() && members == old(members) + old(other.members)
    {
      SummaryConcat(members, other.members);
      hide Xor64, Add64, Summary;
      var x, s := other.xor, other.sum;
      ghost var more := other.members;
      xor := Xor64(xor, x);
      sum := Add64(sum, s);
      members := members + more;
    }
  }
}
