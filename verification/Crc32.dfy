/** CRC-32 by eight lookup tables, against the definition that shifts one bit at a time
    (section 8 of RFC 1952).
  */
module Crc32Checksum {
  import opened LinearFold
  import opened StepTables

  type Word = bv32

  // ---- the definition ----

  const POLYNOMIAL: Word := 0xEDB8_8320

  function Bit(crc: Word): Word {
    if crc & 1 == 1 then (crc >> 1) ^ POLYNOMIAL else crc >> 1
  }

  function Xor(a: Word, b: Word): Word { a ^ b }

  /** One byte of the definition: eight bits. */
  function ByteStep(crc: Word): Word { Power(Bit, 8, crc) }

  function Widen(byte: bv8): Word { byte as Word }

  function Words(data: seq<bv8>): (r: seq<Word>)
    ensures |r| == |data|
    ensures forall i :: 0 <= i < |data| ==> r[i] == Widen(data[i])
  {
    seq(|data|, i requires 0 <= i < |data| => Widen(data[i]))
  }

  /** The register after `data`, one byte and one bit at a time. */
  function Register(crc: Word, data: seq<bv8>): Word {
    Feed(ByteStep, Xor, crc, Words(data))
  }

  function Definition(data: seq<bv8>): Word {
    !Register(0xFFFF_FFFF, data)
  }

  // ---- facts about words ----

  lemma LowBit(a: Word)
    ensures a & 1 == 0 || a & 1 == 1
  {
  }

  lemma XorShift(a: Word, b: Word)
    ensures (a ^ b) >> 1 == (a >> 1) ^ (b >> 1)
    ensures (a ^ b) & 1 == (a & 1) ^ (b & 1)
  {
  }

  lemma XorMove(x: Word, y: Word, p: Word)
    ensures (x ^ y) ^ p == (x ^ p) ^ y
    ensures (x ^ y) ^ p == x ^ (y ^ p)
    ensures (x ^ p) ^ (y ^ p) == x ^ y
  {
  }

  lemma BitLinearAt(a: Word, b: Word)
    ensures Bit(a ^ b) == Bit(a) ^ Bit(b)
  {
    LowBit(a);
    LowBit(b);
    if a & 1 == 0 {
      if b & 1 == 0 { BothEven(a, b); } else { EvenOdd(a, b); }
    } else {
      if b & 1 == 0 { OddEven(a, b); } else { BothOdd(a, b); }
    }
  }

  lemma BothEven(a: Word, b: Word)
    requires a & 1 == 0 && b & 1 == 0
    ensures Bit(a ^ b) == Bit(a) ^ Bit(b)
  {
    XorShift(a, b);
  }

  lemma EvenOdd(a: Word, b: Word)
    requires a & 1 == 0 && b & 1 == 1
    ensures Bit(a ^ b) == Bit(a) ^ Bit(b)
  {
    XorShift(a, b);
    XorMove(a >> 1, b >> 1, 0xEDB8_8320);
  }

  lemma OddEven(a: Word, b: Word)
    requires a & 1 == 1 && b & 1 == 0
    ensures Bit(a ^ b) == Bit(a) ^ Bit(b)
  {
    XorShift(a, b);
    XorMove(a >> 1, b >> 1, 0xEDB8_8320);
  }

  lemma BothOdd(a: Word, b: Word)
    requires a & 1 == 1 && b & 1 == 1
    ensures Bit(a ^ b) == Bit(a) ^ Bit(b)
  {
    XorShift(a, b);
    XorMove(a >> 1, b >> 1, 0xEDB8_8320);
  }

  lemma BitLinear()
    ensures Linear(Bit, Xor)
  {
    forall a: Word, b: Word
      ensures Bit(Xor(a, b)) == Xor(Bit(a), Bit(b))
    {
      BitLinearAt(a, b);
    }
  }

  lemma StepLinear()
    ensures Linear(ByteStep, Xor)
  {
    BitLinear();
    forall a: Word, b: Word
      ensures ByteStep(Xor(a, b)) == Xor(ByteStep(a), ByteStep(b))
    {
      PowerLinear(Bit, Xor, 8, a, b);
    }
  }

  lemma XorAssociates(a: Word, b: Word, c: Word)
    ensures Xor(Xor(a, b), c) == Xor(a, Xor(b, c))
  {
  }

  lemma XorUnit(a: Word)
    ensures Xor(a, 0) == a && Xor(0, a) == a
  {
  }

  lemma XorGroup()
    ensures Associative(Xor) && RightUnit(Xor, 0) && LeftUnit(Xor, 0)
  {
    forall a: Word, b: Word, c: Word
      ensures Xor(Xor(a, b), c) == Xor(a, Xor(b, c))
    {
      XorAssociates(a, b, c);
    }
    forall a: Word
      ensures Xor(a, 0) == a && Xor(0, a) == a
    {
      XorUnit(a);
    }
  }

  lemma EvenBit(x: Word)
    requires x & 1 == 0
    ensures Bit(x) == x >> 1
  {
  }

  lemma TwoBits(x: Word)
    requires x & 3 == 0
    ensures Power(Bit, 2, x) == x >> 2
  {
    TwoBitFacts(x);
    EvenBit(x);
    EvenBit(x >> 1);
    assert Power(Bit, 1, x) == Bit(Power(Bit, 0, x)) == x >> 1;
  }

  lemma TwoBitFacts(x: Word)
    requires x & 3 == 0
    ensures x & 1 == 0 && (x >> 1) & 1 == 0 && (x >> 1) >> 1 == x >> 2
  {
  }

  lemma FourBits(x: Word)
    requires x & 15 == 0
    ensures Power(Bit, 4, x) == x >> 4
  {
    FourBitFacts(x);
    TwoBits(x);
    TwoBits(x >> 2);
    PowerAdd(Bit, 2, 2, x);
  }

  lemma FourBitFacts(x: Word)
    requires x & 15 == 0
    ensures x & 3 == 0 && (x >> 2) & 3 == 0 && (x >> 2) >> 2 == x >> 4
  {
  }

  /** Eight bits of an empty low byte only shift. */
  lemma StepShifts(x: Word)
    requires x & 0xFF == 0
    ensures ByteStep(x) == x >> 8
  {
    EightBitFacts(x);
    FourBits(x);
    FourBits(x >> 4);
    PowerAdd(Bit, 4, 4, x);
  }

  lemma EightBitFacts(x: Word)
    requires x & 0xFF == 0
    ensures x & 15 == 0 && (x >> 4) & 15 == 0 && (x >> 4) >> 4 == x >> 8
  {
  }

  lemma SplitLow(x: Word)
    ensures Xor(x & 0xFF, x & 0xFFFF_FF00) == x
    ensures (x & 0xFFFF_FF00) & 0xFF == 0
    ensures (x & 0xFFFF_FF00) >> 8 == x >> 8
  {
  }

  /** A byte step is a lookup of the low byte and a shift of the rest. */
  lemma StepSplits(x: Word)
    ensures ByteStep(x) == Xor(ByteStep(x & 0xFF), x >> 8)
  {
    SplitLow(x);
    StepLinear();
    StepShifts(x & 0xFFFF_FF00);
    assert ByteStep(Xor(x & 0xFF, x & 0xFFFF_FF00)) == Xor(ByteStep(x & 0xFF), ByteStep(x & 0xFFFF_FF00));
  }

  // ---- the four lanes of a word ----

  /** What `from_le_bytes` makes of four bytes. */
  function FromLeBytes(b0: bv8, b1: bv8, b2: bv8, b3: bv8): Word {
    (b0 as Word) | ((b1 as Word) << 8) | ((b2 as Word) << 16) | ((b3 as Word) << 24)
  }

  lemma ShiftUp(x: Word)
    requires x <= 0xFF_FFFF
    ensures (x << 8) & 0xFF == 0 && (x << 8) >> 8 == x
  {
  }

  lemma StepDown(x: Word)
    requires x <= 0xFF_FFFF
    ensures ByteStep(x << 8) == x
  {
    ShiftUp(x);
    StepShifts(x << 8);
  }

  lemma ByteUp(x: Word)
    requires x <= 0xFF
    ensures x << 8 <= 0xFF_FFFF && x << 16 <= 0xFF_FFFF
    ensures (x << 8) << 8 == x << 16 && (x << 16) << 8 == x << 24
  {
  }

  lemma LaneOne(x: Word)
    requires x <= 0xFF
    ensures Power(ByteStep, 1, x << 8) == x
  {
    StepDown(x);
    PowerInner(ByteStep, 0, x << 8);
  }

  lemma LaneTwo(x: Word)
    requires x <= 0xFF
    ensures Power(ByteStep, 2, x << 16) == x
  {
    ByteUp(x);
    StepDown(x << 8);
    PowerInner(ByteStep, 1, x << 16);
    LaneOne(x);
  }

  lemma LaneThree(x: Word)
    requires x <= 0xFF
    ensures Power(ByteStep, 3, x << 24) == x
  {
    ByteUp(x);
    StepDown(x << 16);
    PowerInner(ByteStep, 2, x << 24);
    LaneTwo(x);
  }

  // The bytes of a word, lowest first.

  function Lane0(w: Word): (r: Word) ensures r <= 0xFF { w & 0xFF }
  function Lane1(w: Word): (r: Word) ensures r <= 0xFF { (w >> 8) & 0xFF }
  function Lane2(w: Word): (r: Word) ensures r <= 0xFF { (w >> 16) & 0xFF }
  function Lane3(w: Word): (r: Word) ensures r <= 0xFF { w >> 24 }

  lemma LanesOfWord(w: Word)
    ensures w == Xor(Xor(Xor(Lane0(w), Lane1(w) << 8), Lane2(w) << 16), Lane3(w) << 24)
  {
    LanesOfWordBits(w);
  }

  lemma LanesOfWordBits(w: Word)
    ensures w == (((w & 0xFF) ^ (((w >> 8) & 0xFF) << 8)) ^ (((w >> 16) & 0xFF) << 16)) ^ ((w >> 24) << 24)
  {
  }

  lemma LeBytesAreLanes(b0: bv8, b1: bv8, b2: bv8, b3: bv8)
    ensures FromLeBytes(b0, b1, b2, b3) == Xor(Xor(Xor(Widen(b0), Widen(b1) << 8), Widen(b2) << 16), Widen(b3) << 24)
  {
    LeBytesBits(b0, b1, b2, b3);
  }

  lemma LeBytesBits(b0: bv8, b1: bv8, b2: bv8, b3: bv8)
    ensures (b0 as Word) | ((b1 as Word) << 8) | ((b2 as Word) << 16) | ((b3 as Word) << 24)
         == (((b0 as Word) ^ ((b1 as Word) << 8)) ^ ((b2 as Word) << 16)) ^ ((b3 as Word) << 24)
  {
  }

  lemma WidenSmall(b: bv8)
    ensures Widen(b) <= 0xFF
  {
  }

  lemma WordLanes(w: Word)
    ensures Lanes(ByteStep, Xor, w, Lane0(w), Lane1(w) << 8, Lane1(w), Lane2(w) << 16, Lane2(w), Lane3(w) << 24,
                  Lane3(w))
  {
    LanesOfWord(w);
    LaneOne(Lane1(w));
    LaneTwo(Lane2(w));
    LaneThree(Lane3(w));
  }

  lemma ByteLanes(b0: bv8, b1: bv8, b2: bv8, b3: bv8)
    ensures Lanes(ByteStep, Xor, FromLeBytes(b0, b1, b2, b3), Widen(b0), Widen(b1) << 8, Widen(b1),
                  Widen(b2) << 16, Widen(b2), Widen(b3) << 24, Widen(b3))
  {
    LeBytesAreLanes(b0, b1, b2, b3);
    WidenSmall(b1);
    WidenSmall(b2);
    WidenSmall(b3);
    LaneOne(Widen(b1));
    LaneTwo(Widen(b2));
    LaneThree(Widen(b3));
  }

  /** What eight table lookups contribute: each byte advanced past the bytes behind it. */
  function Contributions(low: Word, c4: Word, c5: Word, c6: Word, c7: Word): Word {
    Combine(Xor, Power(ByteStep, 8, Lane0(low)), Power(ByteStep, 7, Lane1(low)),
            Power(ByteStep, 6, Lane2(low)), Power(ByteStep, 5, Lane3(low)),
            Power(ByteStep, 4, c4), Power(ByteStep, 3, c5), Power(ByteStep, 2, c6), Power(ByteStep, 1, c7))
  }

  lemma WordsOfEight(c: seq<bv8>)
    requires |c| == 8
    ensures Words(c) == [Widen(c[0]), Widen(c[1]), Widen(c[2]), Widen(c[3]), Widen(c[4]), Widen(c[5]), Widen(c[6]),
                         Widen(c[7])]
  {
  }

  /** Eight bytes of the definition are eight independent contributions. */
  lemma EightBytes(crc: Word, c: seq<bv8>, low: Word)
    requires |c| == 8
    requires low == Xor(crc, FromLeBytes(c[0], c[1], c[2], c[3]))
    ensures Register(crc, c) == Contributions(low, Widen(c[4]), Widen(c[5]), Widen(c[6]), Widen(c[7]))
  {
    WordsOfEight(c);
    EightContributions(crc, c[0], c[1], c[2], c[3], c[4], c[5], c[6], c[7], low);
  }

  lemma EightContributions(crc: Word, c0: bv8, c1: bv8, c2: bv8, c3: bv8, c4: bv8, c5: bv8, c6: bv8, c7: bv8, low: Word)
    requires low == Xor(crc, FromLeBytes(c0, c1, c2, c3))
    ensures Feed(ByteStep, Xor, crc,
                 [Widen(c0), Widen(c1), Widen(c2), Widen(c3), Widen(c4), Widen(c5), Widen(c6), Widen(c7)])
         == Contributions(low, Widen(c4), Widen(c5), Widen(c6), Widen(c7))
  {
    EightLanes(crc, c0, c1, c2, c3, c4, c5, c6, c7, low);
  }

  lemma EightLanes(crc: Word, c0: bv8, c1: bv8, c2: bv8, c3: bv8, c4: bv8, c5: bv8, c6: bv8, c7: bv8, low: Word)
    requires low == Xor(crc, FromLeBytes(c0, c1, c2, c3))
    ensures Feed(ByteStep, Xor, crc,
                 [Widen(c0), Widen(c1), Widen(c2), Widen(c3), Widen(c4), Widen(c5), Widen(c6), Widen(c7)])
         == Combine(Xor, Power(ByteStep, 8, Lane0(low)), Power(ByteStep, 7, Lane1(low)),
                    Power(ByteStep, 6, Lane2(low)), Power(ByteStep, 5, Lane3(low)),
                    Power(ByteStep, 4, Widen(c4)), Power(ByteStep, 3, Widen(c5)),
                    Power(ByteStep, 2, Widen(c6)), Power(ByteStep, 1, Widen(c7)))
  {
    ByteLanes(c0, c1, c2, c3);
    WordLanes(low);
    EightWords(crc, Widen(c0), Widen(c1), Widen(c2), Widen(c3), Widen(c4), Widen(c5), Widen(c6), Widen(c7),
      Widen(c1) << 8, Widen(c2) << 16, Widen(c3) << 24, FromLeBytes(c0, c1, c2, c3), low,
      Lane0(low), Lane1(low) << 8, Lane1(low), Lane2(low) << 16, Lane2(low), Lane3(low) << 24, Lane3(low));
  }

  lemma EightWords(crc: Word, b0: Word, b1: Word, b2: Word, b3: Word, b4: Word, b5: Word, b6: Word, b7: Word,
                   u1: Word, u2: Word, u3: Word, word: Word, low: Word,
                   l0: Word, s1: Word, l1: Word, s2: Word, l2: Word, s3: Word, l3: Word)
    requires low == Xor(crc, word)
    requires Lanes(ByteStep, Xor, word, b0, u1, b1, u2, b2, u3, b3)
    requires Lanes(ByteStep, Xor, low, l0, s1, l1, s2, l2, s3, l3)
    ensures Feed(ByteStep, Xor, crc, [b0, b1, b2, b3, b4, b5, b6, b7])
         == Combine(Xor, Power(ByteStep, 8, l0), Power(ByteStep, 7, l1), Power(ByteStep, 6, l2), Power(ByteStep, 5, l3),
                    Power(ByteStep, 4, b4), Power(ByteStep, 3, b5), Power(ByteStep, 2, b6), Power(ByteStep, 1, b7))
  {
    StepLinear();
    XorGroup();
    EightAtOnce(ByteStep, Xor, 0, crc, b0, b1, b2, b3, b4, b5, b6, b7, u1, u2, u3, word, l0, s1, l1, s2, l2, s3, l3);
  }

  // ---- the tables ----

  function IndexWord(b: int): Word {
    if 0 <= b < 256 then b as Word else 0
  }

  function LowByte(x: Word): (r: Word)
    ensures r <= 0xFF
  {
    x & 0xFF
  }

  function Rest(x: Word): Word { x >> 8 }

  /** The table index of a byte-sized word. */
  function Index(x: Word): (i: int)
    requires x <= 0xFF
    ensures 0 <= i < 256 && IndexWord(i) == x
  {
    SmallWord(x);
    x as int
  }

  function LowIndex(x: Word): int { Index(LowByte(x)) }

  lemma SmallWord(x: Word)
    requires x <= 0xFF
    ensures 0 <= x as int < 256 && (x as int) as Word == x
  {
    WordRoundTrip(x);
  }

  lemma WordRoundTrip(x: Word)
    ensures (x as int) as Word == x
  {
  }

  lemma XorCommutes(a: Word, b: Word)
    ensures Xor(a, b) == Xor(b, a)
  {
  }

  function CrcOps(): Ops<Word> {
    Ops(Bit, ByteStep, Xor, Rest, LowIndex, IndexWord)
  }

  lemma StepSplitsAt(x: Word)
    ensures ByteStep(x) == Xor(Rest(x), ByteStep(IndexWord(LowIndex(x))))
  {
    StepSplits(x);
    XorCommutes(Rest(x), ByteStep(LowByte(x)));
  }

  /** What the table builder needs of the word operations. */
  lemma CrcOpsSplit()
    ensures Splits(CrcOps())
  {
    forall x: Word
      ensures ByteStep(x) == Xor(Rest(x), ByteStep(IndexWord(LowIndex(x))))
    {
      StepSplitsAt(x);
    }
  }

  // ---- the running checksum ----

  ghost predicate IsCrcTables(tables: seq<seq<Word>>) {
    IsTables(tables, CrcOps())
  }

  function Entry(tables: seq<seq<Word>>, k: nat, x: Word): (r: Word)
    requires IsCrcTables(tables) && k < 8 && x <= 0xFF
    ensures r == Power(ByteStep, k + 1, x)
  {
    tables[k][Index(x)]
  }

  lemma OneStep(x: Word)
    ensures Power(ByteStep, 1, x) == ByteStep(x)
  {
    assert Power(ByteStep, 0, x) == x;
  }

  lemma RegisterAppends(crc: Word, data: seq<bv8>, byte: bv8)
    ensures Register(crc, data + [byte]) == ByteStep(Xor(Register(crc, data), Widen(byte)))
  {
    assert Words(data + [byte])[..|data|] == Words(data);
  }

  lemma RegisterConcat(crc: Word, a: seq<bv8>, b: seq<bv8>)
    ensures Register(crc, a + b) == Register(Register(crc, a), b)
  {
    assert Words(a + b) == Words(a) + Words(b);
    FeedConcat(ByteStep, Xor, crc, Words(a), Words(b));
  }

  function SmallWiden(byte: bv8): (r: Word)
    ensures r <= 0xFF && r == Widen(byte)
  {
    WidenSmall(byte);
    byte as Word
  }

  /** Feeding a prefix and then what follows it is feeding the longer prefix. */
  lemma RegisterSlice(crc: Word, data: seq<bv8>, i: nat, j: nat)
    requires i <= j <= |data|
    ensures Register(crc, data[..j]) == Register(Register(crc, data[..i]), data[i..j])
  {
    assert data[..i] + data[i..j] == data[..j];
    RegisterConcat(crc, data[..i], data[i..j]);
  }

  lemma MixedRest(crc: Word, byte: bv8)
    ensures Rest(Xor(crc, Widen(byte))) == Rest(crc)
  {
    MixedRestBits(crc, byte);
  }

  lemma MixedRestBits(crc: Word, byte: bv8)
    ensures (crc ^ (byte as Word)) >> 8 == crc >> 8
  {
  }

  lemma UpdateStep(crc: Word, byte: bv8)
    ensures Xor(Power(ByteStep, 1, LowByte(Xor(crc, Widen(byte)))), Rest(crc)) == Register(crc, [byte])
  {
    var mixed := Xor(crc, Widen(byte));
    MixedRest(crc, byte);
    StepSplits(mixed);
    OneStep(LowByte(mixed));
    RegisterOne(crc, byte);
  }

  lemma RegisterOne(crc: Word, byte: bv8)
    ensures Register(crc, [byte]) == ByteStep(Xor(crc, Widen(byte)))
  {
    RegisterAppends(crc, [], byte);
    assert [] + [byte] == [byte];
  }

  /** Eight lookups. */
  function ChunkStep(tables: seq<seq<Word>>, low: Word, c4: bv8, c5: bv8, c6: bv8, c7: bv8): (r: Word)
    requires IsCrcTables(tables)
    ensures r == Contributions(low, Widen(c4), Widen(c5), Widen(c6), Widen(c7))
  {
    Combine(Xor,
            Entry(tables, 7, Lane0(low)), Entry(tables, 6, Lane1(low)), Entry(tables, 5, Lane2(low)),
                Entry(tables, 4, Lane3(low)),
            Entry(tables, 3, SmallWiden(c4)), Entry(tables, 2, SmallWiden(c5)),
            Entry(tables, 1, SmallWiden(c6)), Entry(tables, 0, SmallWiden(c7)))
  }

  class Crc32 {
    const tables: seq<seq<Word>>
    var register: Word

    ghost predicate Valid() {
      IsCrcTables(tables)
    }

    constructor (tables: seq<seq<Word>>)
      requires IsCrcTables(tables)
      ensures Valid() && register == 0xFFFF_FFFF
    {
      this.tables := tables;
      register := 0xFFFF_FFFF;
    }

    method Update(byte: bv8)
      requires Valid()
      modifies this
      ensures register == Register(old(register), [byte])
    {
      UpdateStep(register, byte);
      register := Xor(Entry(tables, 0, LowByte(Xor(register, Widen(byte)))), Rest(register));
    }

    /** Eight bytes per step. */
    method UpdateChunk(chunk: seq<bv8>)
      requires Valid() && |chunk| == 8
      modifies this
      ensures register == Register(old(register), chunk)
    {
      var low := Xor(register, FromLeBytes(chunk[0], chunk[1], chunk[2], chunk[3]));
      EightBytes(register, chunk, low);
      register := ChunkStep(tables, low, chunk[4], chunk[5], chunk[6], chunk[7]);
    }

    /** The whole chunks of eight; returns where the remainder starts. */
    method UpdateChunks(data: seq<bv8>) returns (i: nat)
      requires Valid()
      modifies this
      ensures i <= |data| < i + 8
      ensures register == Register(old(register), data[..i])
    {
      i := 0;
      while i + 8 <= |data|
        invariant 0 <= i <= |data|
        invariant register == Register(old(register), data[..i])
      {
        UpdateChunk(data[i..i + 8]);
        RegisterSlice(old(register), data, i, i + 8);
        i := i + 8;
      }
    }

    /** The remainder byte by byte. */
    method UpdateRemainder(data: seq<bv8>)
      requires Valid()
      modifies this
      ensures register == Register(old(register), data)
    {
      for i := 0 to |data|
        invariant register == Register(old(register), data[..i])
      {
        Update(data[i]);
        assert data[i..i + 1] == [data[i]];
        RegisterSlice(old(register), data, i, i + 1);
      }
      assert data[..|data|] == data;
    }

    /** Whole chunks first, then the remainder. */
    method UpdateSlice(data: seq<bv8>)
      requires Valid()
      modifies this
      ensures register == Register(old(register), data)
    {
      var i := UpdateChunks(data);
      UpdateRemainder(data[i..]);
      RegisterSlice(old(register), data, i, |data|);
      assert data[..|data|] == data;
    }

    method Finish() returns (checksum: Word)
      ensures checksum == !register
    {
      checksum := !register;
    }
  }

  /** Tables built by the loops, then the table-driven checksum: the definition, for every byte string. */
  method ChecksumOf(data: seq<bv8>) returns (checksum: Word)
    ensures checksum == Definition(data)
  {
    CrcOpsSplit();
    var tables := BuildTables(CrcOps());
    var crc := new Crc32(tables);
    crc.UpdateSlice(data);
    checksum := crc.Finish();
  }

  /** The definition as the loop that shifts bit by bit. */
  method BitwiseCrc32(data: seq<bv8>) returns (checksum: Word)
    ensures checksum == Definition(data)
  {
    var crc: Word := 0xFFFF_FFFF;
    for i := 0 to |data|
      invariant crc == Register(0xFFFF_FFFF, data[..i])
    {
      RegisterAppends(0xFFFF_FFFF, data[..i], data[i]);
      assert data[..i] + [data[i]] == data[..i + 1];
      crc := Xor(crc, Widen(data[i]));
      ghost var start := crc;
      for bit := 0 to 8
        invariant crc == Power(Bit, bit, start)
      {
        crc := Bit(crc);
      }
    }
    assert data[..|data|] == data;
    checksum := !crc;
  }

  // ---- what the checksum detects ----

  /** The bit before: the top bit says whether the polynomial was mixed in. */
  function BitBack(crc: Word): Word {
    if crc & 0x8000_0000 == 0 then crc << 1 else ((crc ^ POLYNOMIAL) << 1) | 1
  }

  lemma EvenBack(x: Word)
    requires x & 1 == 0
    ensures (x >> 1) & 0x8000_0000 == 0 && (x >> 1) << 1 == x
  {
  }

  lemma OddBack(x: Word)
    requires x & 1 == 1
    ensures ((x >> 1) ^ 0xEDB8_8320) & 0x8000_0000 != 0
    ensures ((((x >> 1) ^ 0xEDB8_8320) ^ 0xEDB8_8320) << 1) | 1 == x
  {
  }

  lemma BitBackUndoes(x: Word)
    ensures BitBack(Bit(x)) == x
  {
    LowBit(x);
    if x & 1 == 0 { EvenBack(x); } else { OddBack(x); }
  }

  lemma BitInjective()
    ensures Injective(Bit)
  {
    forall a: Word, b: Word | Bit(a) == Bit(b)
      ensures a == b
    {
      BitBackUndoes(a);
      BitBackUndoes(b);
    }
  }

  lemma StepInjective()
    ensures Injective(ByteStep)
  {
    BitInjective();
    forall a: Word, b: Word | ByteStep(a) == ByteStep(b)
      ensures a == b
    {
      PowerInjective(Bit, 8, a, b);
    }
  }

  lemma XorCancelsAt(a: Word, b: Word, c: Word)
    ensures Xor(a, c) == Xor(b, c) ==> a == b
    ensures Xor(a, b) == Xor(a, c) ==> b == c
  {
  }

  lemma XorCancels()
    ensures Cancels(Xor)
  {
    forall a: Word, b: Word, c: Word
      ensures Xor(a, c) == Xor(b, c) ==> a == b
      ensures Xor(a, b) == Xor(a, c) ==> b == c
    {
      XorCancelsAt(a, b, c);
    }
    CancelsIs(Xor);
  }

  lemma CancelsIs(op: (Word, Word) -> Word)
    requires forall a, b, c :: op(a, c) == op(b, c) ==> a == b
    requires forall a, b, c :: op(a, b) == op(a, c) ==> b == c
    ensures Cancels(op)
  {
  }

  lemma WidenInjective(a: bv8, b: bv8)
    requires a != b
    ensures Widen(a) != Widen(b)
  {
  }

  lemma NotInjective(a: Word, b: Word)
    requires a != b
    ensures !a != !b
  {
  }

  /** A byte string in which one byte was changed never keeps its checksum. */
  lemma OneByteChangeDetected(data: seq<bv8>, i: nat, x: bv8)
    requires i < |data| && x != data[i]
    ensures Definition(data[i := x]) != Definition(data)
  {
    StepInjective();
    XorCancels();
    WidenInjective(x, data[i]);
    OneChange(ByteStep, Xor, 0xFFFF_FFFF, Words(data), i, Widen(x));
    assert Words(data[i := x]) == Words(data)[i := Widen(x)];
    NotInjective(Register(0xFFFF_FFFF, data[i := x]), Register(0xFFFF_FFFF, data));
  }
}
