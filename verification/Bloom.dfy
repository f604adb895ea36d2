/** The per-segment anchor filter: a Bloom filter whose probes for one key all fall in one block
    of eight words.
  */
module Bloom {

  const WORDS_PER_BLOCK: nat := 8
  const NUM_PROBES: nat := 6
  const KEYS_PER_BLOCK: nat := 51
  const HALF_WORD: nat := 0x1_0000_0000

  /** A 64-bit signature key. */
  type Key = k: nat | k < 0x1_0000_0000_0000_0000

  // ---- words ----

  /** The place of a position in its word. */
  function Place(pos: bv32): bv32 { pos & 63 }

  function Widened(x: bv32): bv64 { x as bv64 }

  function Shifted(b: bv64): bv64
    requires b < 64
  {
    1 << b
  }

  lemma PlaceSmall(pos: bv32)
    ensures Widened(Place(pos)) < 64
  {
  }

  function OneBit(pos: bv32): bv64 {
    PlaceSmall(pos);
    Shifted(Widened(Place(pos)))
  }

  predicate Tests(word: bv64, bits: bv64) { word & bits != 0 }

  function Sets(word: bv64, bits: bv64): bv64 { word | bits }

  predicate HasBit(word: bv64, pos: bv32) { Tests(word, OneBit(pos)) }

  function WithBit(word: bv64, pos: bv32): bv64 { Sets(word, OneBit(pos)) }

  lemma ShiftedShows(b: bv64)
    requires b < 64
    ensures Shifted(b) != 0
  {
  }

  lemma ShiftedApart(b: bv64, c: bv64)
    requires b < 64 && c < 64 && b != c
    ensures Shifted(b) & Shifted(c) == 0
  {
  }

  lemma WidenedApart(x: bv32, y: bv32)
    requires x != y
    ensures Widened(x) != Widened(y)
  {
  }

  lemma BitLogic(w: bv64, m: bv64, x: bv64, same: bool)
    requires x != 0 && (if same then m == x else m & x == 0)
    ensures Tests(Sets(w, m), x) <==> Tests(w, x) || same
  {
    hide *;
    SetsMeans(w, m);
    TestsMeans(w, x);
    TestsMeans(w | m, x);
    OrThenAnd(w, m, x, same);
  }

  lemma TestsMeans(w: bv64, x: bv64)
    ensures Tests(w, x) <==> w & x != 0
  {
  }

  lemma SetsMeans(w: bv64, m: bv64)
    ensures Sets(w, m) == w | m
  {
  }

  lemma OrThenAnd(w: bv64, m: bv64, x: bv64, same: bool)
    requires x != 0 && (if same then m == x else m & x == 0)
    ensures (w | m) & x != 0 <==> w & x != 0 || same
  {
  }

  lemma OneBitFacts(p: bv32, q: bv32)
    ensures OneBit(q) != 0
    ensures if Place(p) == Place(q) then OneBit(p) == OneBit(q) else OneBit(p) & OneBit(q) == 0
  {
    hide Shifted, Widened, Place;
    PlaceSmall(p);
    PlaceSmall(q);
    var b, c := Widened(Place(p)), Widened(Place(q));
    ShiftedShows(c);
    if Place(p) != Place(q) {
      WidenedApart(Place(p), Place(q));
      ShiftedApart(b, c);
    }
  }

  /** Setting a bit sets that bit and no other. */
  lemma SetOneBit(word: bv64, p: bv32, q: bv32)
    ensures HasBit(WithBit(word, p), q) <==> HasBit(word, q) || Place(p) == Place(q)
  {
    hide OneBit, Tests, Sets, Place;
    OneBitFacts(p, q);
    BitLogic(word, OneBit(p), OneBit(q), Place(p) == Place(q));
  }

  lemma NoBits(q: bv32)
    ensures !HasBit(0, q)
  {
  }

  // ---- where a key probes ----

  /** Bitwise AND of two naturals. */
  function And(x: nat, m: nat): nat {
    if x == 0 || m == 0 then 0 else (x % 2) * (m % 2) + 2 * And(x / 2, m / 2)
  }

  lemma {:induction false} AndBelow(x: nat, m: nat)
    ensures And(x, m) <= m
  {
    if x != 0 && m != 0 { AndBelow(x / 2, m / 2); }
  }

  function Power(n: nat): (p: nat)
    ensures p > 0
  {
    if n == 0 then 1 else 2 * Power(n - 1)
  }

  lemma AndOdd(x: nat, m: nat)
    requires x > 0 && m > 0
    ensures And(x, 2 * m - 1) == x % 2 + 2 * And(x / 2, m - 1)
  {
    assert (2 * m - 1) / 2 == m - 1 && (2 * m - 1) % 2 == 1;
  }

  lemma AndStep(x: nat, m: nat)
    requires x > 0 && m > 0 && And(x / 2, m - 1) == (x / 2) % m
    ensures And(x, 2 * m - 1) == x % (2 * m)
  {
    AndOdd(x, m);
    hide And;
    HalfRemainder(x, m);
  }

  /** Masking with a power of two less one is the remainder. */
  lemma {:induction false} AndIsRemainder(x: nat, n: nat)
    ensures And(x, Power(n) - 1) == x % Power(n)
  {
    if n == 0 || x == 0 {
      AndNothing(x, n);
    } else {
      AndIsRemainder(x / 2, n - 1);
      hide And;
      AndStep(x, Power(n - 1));
    }
  }

  lemma AndNothing(x: nat, n: nat)
    requires n == 0 || x == 0
    ensures And(x, Power(n) - 1) == 0 == x % Power(n)
  {
    if n == 0 {
      NoRemainder(x);
    } else {
      ZeroRemainder(Power(n));
      hide Power;
    }
  }

  lemma NoRemainder(x: nat)
    ensures x % 1 == 0
  {
  }

  lemma ZeroRemainder(d: nat)
    requires d > 0
    ensures 0 % d == 0
  {
  }

  lemma HalfRemainder(x: nat, m: nat)
    requires m > 0
    ensures x % (2 * m) == x % 2 + 2 * ((x / 2) % m)
  {
    var h := x / 2;
    var q, r := h / m, h % m;
    assert x == (2 * m) * q + (2 * r + x % 2) by {
      assert h == m * q + r;
      assert x == 2 * h + x % 2;
    }
    RemainderIs(x, 2 * m, q, 2 * r + x % 2);
  }

  lemma RemainderIs(x: nat, d: nat, q: nat, r: nat)
    requires x == d * q + r && r < d
    ensures x % d == r
  {
    var more := x / d - q;
    assert d * more == r - x % d;
    SmallMultiple(d, more);
  }

  lemma SmallMultiple(d: nat, more: int)
    requires d * more < d && -(d * more) < d
    ensures more == 0
  {
  }

  function Low(key: Key): bv32 {
    (key % HALF_WORD) as bv32
  }

  function Position(key: Key, i: bv32): bv32 {
    var lo := Low(key);
    ((lo & 0x1FF) + i * ((lo >> 9) | 1)) & 0x1FF
  }

  function Probes(key: Key): (r: seq<bv32>)
    ensures |r| == NUM_PROBES
  {
    [Position(key, 0), Position(key, 1), Position(key, 2), Position(key, 3), Position(key, 4), Position(key, 5)]
  }

  function Number(x: bv32): nat { x as nat }

  function WordOf(pos: bv32): nat {
    Number(pos >> 6)
  }

  function BlockOf(key: Key, mask: nat): nat {
    And(key / HALF_WORD, mask)
  }

  function BlockOffset(key: Key, mask: nat): nat {
    BlockOf(key, mask) * WORDS_PER_BLOCK
  }

  lemma PositionSmall(key: Key, i: bv32)
    ensures Position(key, i) <= 0x1FF
  {
    MaskedSmall((Low(key) & 0x1FF) + i * ((Low(key) >> 9) | 1));
  }

  lemma MaskedSmall(x: bv32)
    ensures x & 0x1FF <= 0x1FF
  {
  }

  lemma SmallWord(pos: bv32)
    requires pos <= 0x1FF
    ensures WordOf(pos) < WORDS_PER_BLOCK
  {
  }

  lemma ProbesInBlock(key: Key, k: nat)
    requires k < NUM_PROBES
    ensures Probes(key)[k] <= 0x1FF && WordOf(Probes(key)[k]) < WORDS_PER_BLOCK
  {
    PositionSmall(key, 0);
    PositionSmall(key, 1);
    PositionSmall(key, 2);
    PositionSmall(key, 3);
    PositionSmall(key, 4);
    PositionSmall(key, 5);
    hide Position, WordOf;
    SmallWord(Probes(key)[k]);
  }

  /** Two positions with the same word and the same place in it are the same. */
  lemma SamePosition(p: bv32, q: bv32)
    requires WordOf(p) == WordOf(q) && Place(p) == Place(q)
    ensures p == q
  {
    hide *;
    SameWord(p, q);
    Reassemble(p, q);
  }

  lemma SameWord(p: bv32, q: bv32)
    requires WordOf(p) == WordOf(q)
    ensures p >> 6 == q >> 6
  {
    hide Number;
    SameNumber(p >> 6, q >> 6);
  }

  lemma SameNumber(x: bv32, y: bv32)
    requires Number(x) == Number(y)
    ensures x == y
  {
    assert (x as int) as bv32 == x;
    assert (y as int) as bv32 == y;
  }

  lemma Reassemble(p: bv32, q: bv32)
    requires p >> 6 == q >> 6 && Place(p) == Place(q)
    ensures p == q
  {
  }

  // ---- setting and checking the probes of a key ----

  /** Probe `k` of the key falls on position `q` of word `at`. */
  ghost predicate Hits(key: Key, start: nat, k: nat, at: nat, q: bv32)
    requires k < NUM_PROBES
  {
    at == start + WordOf(Probes(key)[k]) && Place(Probes(key)[k]) == Place(q)
  }

  /** Some probe of the key does. */
  ghost predicate Marks(key: Key, start: nat, n: nat, at: nat, q: bv32)
    requires n <= NUM_PROBES
  {
    exists k :: 0 <= k < n && Hits(key, start, k, at, q)
  }

  method SetProbes(data: array<bv64>, start: nat, key: Key)
    requires start + WORDS_PER_BLOCK <= data.Length
    modifies data
    ensures forall at, q :: 0 <= at < data.Length ==>
              (HasBit(data[at], q) <==> old(HasBit(data[at], q)) || Marks(key, start, NUM_PROBES, at, q))
  {
    hide Place, WordOf, Probes, HasBit, WithBit;
    for k := 0 to NUM_PROBES
      invariant forall at, q :: 0 <= at < data.Length ==>
                  (HasBit(data[at], q) <==> old(HasBit(data[at], q)) || Marks(key, start, k, at, q))
    {
      var pos := Probes(key)[k];
      ProbesInBlock(key, k);
      var word := start + WordOf(pos);
      ghost var before := data[..];
      data[word] := WithBit(data[word], pos);
      forall at, q | 0 <= at < data.Length
        ensures HasBit(data[at], q) <==> HasBit(before[at], q) || Hits(key, start, k, at, q)
      {
        SetOneBit(before[word], pos, q);
      }
      forall at, q ensures Marks(key, start, k + 1, at, q) <==>
          Marks(key, start, k, at, q) || Hits(key, start, k, at, q) {
        hide Hits;
      }
      hide Marks, Hits;
    }
  }

  /** Every probe of the key finds its bit. */
  ghost predicate AllSet(data: seq<bv64>, start: nat, key: Key) {
    forall k :: 0 <= k < NUM_PROBES ==>
      var pos := Probes(key)[k];
      start + WordOf(pos) < |data| && HasBit(data[start + WordOf(pos)], pos)
  }

  method CheckProbes(data: seq<bv64>, start: nat, key: Key) returns (all: bool)
    requires start + WORDS_PER_BLOCK <= |data|
    ensures all <==> AllSet(data, start, key)
  {
    hide WordOf, Probes, HasBit;
    for k := 0 to NUM_PROBES
      invariant forall j :: 0 <= j < k ==>
                  var pos := Probes(key)[j];
                  start + WordOf(pos) < |data| && HasBit(data[start + WordOf(pos)], pos)
    {
      var pos := Probes(key)[k];
      ProbesInBlock(key, k);
      if !HasBit(data[start + WordOf(pos)], pos) {
        return false;
      }
    }
    return true;
  }

  // ---- the filter ----

  datatype SegmentFilter = SegmentFilter(data: seq<bv64>, numBlocks: nat, mask: nat)

  /** One block for every value of the mask, or nothing at all. */
  predicate Laid(data: seq<bv64>, mask: nat) {
    data == [] || |data| == (mask + 1) * WORDS_PER_BLOCK
  }

  lemma BlockFits(key: Key, mask: nat, length: nat)
    requires length == (mask + 1) * WORDS_PER_BLOCK
    ensures BlockOffset(key, mask) + WORDS_PER_BLOCK <= length
  {
    AndBelow(key / HALF_WORD, mask);
  }

  method NextPowerOfTwo(n: nat) returns (p: nat, ghost e: nat)
    ensures p == Power(e) && p >= n && (n > 0 ==> p < 2 * n)
  {
    p, e := 1, 0;
    while p < n
      invariant p == Power(e) && (n > 0 ==> p < 2 * n)
      decreases n - p
    {
      p, e := 2 * p, e + 1;
    }
  }

  /** A bit is set exactly where a key of the list put it. */
  ghost predicate Filled(data: seq<bv64>, mask: nat, keys: seq<Key>) {
    forall at, q :: 0 <= at < |data| ==> (HasBit(data[at], q) <==> Put(keys, mask, at, q))
  }

  ghost predicate Put(keys: seq<Key>, mask: nat, at: nat, q: bv32) {
    exists key :: key in keys && Marks(key, BlockOffset(key, mask), NUM_PROBES, at, q)
  }

  lemma PutMore(keys: seq<Key>, n: nat, mask: nat, at: nat, q: bv32)
    requires n < |keys|
    ensures Put(keys[..n + 1], mask, at, q)
       <==> Put(keys[..n], mask, at, q) || Marks(keys[n], BlockOffset(keys[n], mask), NUM_PROBES, at, q)
  {
    hide Marks, BlockOffset;
    assert keys[..n + 1] == keys[..n] + [keys[n]];
  }

  method FillBlocks(data: array<bv64>, mask: nat, keys: seq<Key>)
    requires data.Length == (mask + 1) * WORDS_PER_BLOCK && forall at :: 0 <= at < data.Length ==> data[at] == 0
    modifies data
    ensures Filled(data[..], mask, keys)
  {
    hide Put, HasBit;
    forall q ensures !HasBit(0, q) && forall at :: !Put(keys[..0], mask, at, q) { NoBits(q); NonePut(mask, q); }
    for n := 0 to |keys|
      invariant forall at, q :: 0 <= at < data.Length ==> (HasBit(data[at], q) <==> Put(keys[..n], mask, at, q))
    {
      BlockFits(keys[n], mask, data.Length);
      SetProbes(data, BlockOffset(keys[n], mask), keys[n]);
      forall at: nat, q
        ensures Put(keys[..n + 1], mask, at, q)
           <==> Put(keys[..n], mask, at, q) || Marks(keys[n], BlockOffset(keys[n], mask), NUM_PROBES, at, q)
      {
        PutMore(keys, n, mask, at, q);
      }
      hide Marks, BlockOffset;
    }
    assert keys[..|keys|] == keys;
  }

  lemma NonePut(mask: nat, q: bv32)
    ensures forall at :: !Put([], mask, at, q)
  {
  }

  /** What building promises: one block per 51 keys, rounded up to a power of two, and exactly the
      bits of the keys. */
  ghost predicate Built(f: SegmentFilter, keys: seq<Key>) {
    && Laid(f.data, f.mask) && (f.data == [] <==> keys == [])
    && (keys != [] ==> exists e :: f.numBlocks == Power(e) && f.mask == Power(e) - 1)
    && (keys != [] ==> Target(keys) <= f.numBlocks < 2 * Target(keys))
    && Filled(f.data, f.mask, keys)
  }

  function Target(keys: seq<Key>): nat {
    if |keys| / KEYS_PER_BLOCK > 1 then |keys| / KEYS_PER_BLOCK else 1
  }

  method Build(keys: seq<Key>) returns (f: SegmentFilter)
    ensures Built(f, keys)
  {
    if keys == [] {
      return SegmentFilter([], 0, 0);
    }
    var numBlocks, e := NextPowerOfTwo(Target(keys));
    var mask := numBlocks - 1;
    var data := new bv64[numBlocks * WORDS_PER_BLOCK](_ => 0);
    hide Filled;
    FillBlocks(data, mask, keys);
    assert numBlocks == Power(e) && mask == Power(e) - 1;
    f := SegmentFilter(data[..], numBlocks, mask);
  }

  /** Whether the filter lets a key through. */
  ghost predicate Passes(data: seq<bv64>, mask: nat, key: Key) {
    data != [] && AllSet(data, BlockOffset(key, mask), key)
  }

  method MayContain(f: SegmentFilter, key: Key) returns (may: bool)
    requires Laid(f.data, f.mask)
    ensures may <==> Passes(f.data, f.mask, key)
  {
    if f.data == [] {
      return false;
    }
    BlockFits(key, f.mask, |f.data|);
    may := CheckProbes(f.data, BlockOffset(key, f.mask), key);
  }

  /** The check on raw words, for a filter that was read back. */
  method BloomCheck(key: Key, data: seq<bv64>, mask: nat) returns (may: bool)
    requires Laid(data, mask)
    ensures may <==> Passes(data, mask, key)
  {
    if data == [] {
      return false;
    }
    BlockFits(key, mask, |data|);
    may := CheckProbes(data, BlockOffset(key, mask), key);
  }

  // ---- what the filter lets through ----

  lemma SameBlock(a: nat, b: nat, v: nat, w: nat)
    requires a * WORDS_PER_BLOCK + v == b * WORDS_PER_BLOCK + w && v < WORDS_PER_BLOCK && w < WORDS_PER_BLOCK
    ensures a == b && v == w
  {
  }

  /** The other key has the same block, and this probe of the key among its own. */
  ghost predicate Shares(other: Key, mask: nat, key: Key, k: nat)
    requires k < NUM_PROBES
  {
    BlockOf(other, mask) == BlockOf(key, mask) && Probes(key)[k] in Probes(other)
  }

  ghost predicate AnyShares(keys: seq<Key>, mask: nat, key: Key, k: nat)
    requires k < NUM_PROBES
  {
    exists other :: other in keys && Shares(other, mask, key, k)
  }

  /** A key lands on a probe of another exactly when they share the block and the position. */
  lemma MarksMeans(key: Key, other: Key, mask: nat, k: nat)
    requires k < NUM_PROBES
    ensures Marks(other, BlockOffset(other, mask), NUM_PROBES, BlockOffset(key, mask) + WordOf(Probes(key)[k]),
                  Probes(key)[k])
       <==> Shares(other, mask, key, k)
  {
    hide Place, WordOf, Probes, BlockOf;
    var pos := Probes(key)[k];
    ProbesInBlock(key, k);
    var start, at := BlockOffset(other, mask), BlockOffset(key, mask) + WordOf(pos);
    if Marks(other, start, NUM_PROBES, at, pos) {
      var j: nat :| 0 <= j < NUM_PROBES && Hits(other, start, j, at, pos);
      ProbesInBlock(other, j);
      SameBlock(BlockOf(other, mask), BlockOf(key, mask), WordOf(Probes(other)[j]), WordOf(pos));
      SamePosition(Probes(other)[j], pos);
    }
    if BlockOf(other, mask) == BlockOf(key, mask) && pos in Probes(other) {
      var j: nat :| 0 <= j < NUM_PROBES && Probes(other)[j] == pos;
      assert Hits(other, start, j, at, pos);
    }
  }

  /** Choosing a block by masking is choosing it by remainder. */
  lemma BlockIsRemainder(f: SegmentFilter, keys: seq<Key>, key: Key)
    requires Built(f, keys) && keys != []
    ensures BlockOf(key, f.mask) == (key / HALF_WORD) % f.numBlocks
  {
    var e :| f.numBlocks == Power(e) && f.mask == Power(e) - 1;
    AndIsRemainder(key / HALF_WORD, e);
  }

  lemma ProbeSet(f: SegmentFilter, keys: seq<Key>, key: Key, k: nat)
    requires Built(f, keys) && keys != [] && k < NUM_PROBES
    ensures var at := BlockOffset(key, f.mask) + WordOf(Probes(key)[k]);
            at < |f.data| && (HasBit(f.data[at], Probes(key)[k]) <==> AnyShares(keys, f.mask, key, k))
  {
    hide Marks, Probes, WordOf, HasBit, BlockOffset, Shares;
    BlockFits(key, f.mask, |f.data|);
    ProbesInBlock(key, k);
    var pos := Probes(key)[k];
    var at := BlockOffset(key, f.mask) + WordOf(pos);
    assert HasBit(f.data[at], pos) <==> Put(keys, f.mask, at, pos);
    forall other: Key
      ensures Marks(other, BlockOffset(other, f.mask), NUM_PROBES, at, pos) <==> Shares(other, f.mask, key, k)
    {
      MarksMeans(key, other, f.mask, k);
    }
  }

  /** The filter lets a key through exactly when every probe of it is a probe of some inserted key in
      the same block. */
  lemma PassesMeans(f: SegmentFilter, keys: seq<Key>, key: Key)
    requires Built(f, keys)
    ensures Passes(f.data, f.mask, key) <==>
              keys != [] && forall k :: 0 <= k < NUM_PROBES ==> AnyShares(keys, f.mask, key, k)
  {
    hide Probes, WordOf, HasBit, BlockOffset, AnyShares, Filled;
    if keys != [] {
      forall k | 0 <= k < NUM_PROBES
        ensures var at := BlockOffset(key, f.mask) + WordOf(Probes(key)[k]);
                at < |f.data| && (HasBit(f.data[at], Probes(key)[k]) <==> AnyShares(keys, f.mask, key, k))
      {
        ProbeSet(f, keys, key, k);
      }
    }
  }

  /** No false negatives. */
  lemma NoFalseNegatives(f: SegmentFilter, keys: seq<Key>, key: Key)
    requires Built(f, keys) && key in keys
    ensures Passes(f.data, f.mask, key)
  {
    PassesMeans(f, keys, key);
    hide Built, Passes, Probes, BlockOf;
    forall k | 0 <= k < NUM_PROBES
      ensures AnyShares(keys, f.mask, key, k)
    {
      assert key in keys && Shares(key, f.mask, key, k);
    }
  }
}
