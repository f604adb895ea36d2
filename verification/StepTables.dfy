/** Lookup tables of a checksum step: table `k` holds, for every byte, its effect followed by
    `k` zero bytes. Words are left abstract; the step is known only by its eight bits and by
    the way it splits into a lookup of the low byte and the rest of the word.
  */
module StepTables {
  import opened LinearFold

  /** The operations on words that the table builder uses. */
  datatype Ops<!T> = Ops(bit: T -> T, step: T -> T, xor: (T, T) -> T, rest: T -> T, lowIndex: T -> int, embed: int -> T)

  ghost predicate Splits<T(!new)>(ops: Ops<T>) {
    && (forall x: T :: ops.step(x) == Power(ops.bit, 8, x))
    && (forall x: T :: 0 <= ops.lowIndex(x) < 256)
    && (forall x: T {:trigger ops.rest(x)} :: ops.step(x) == ops.xor(ops.rest(x), ops.step(ops.embed(ops.lowIndex(x)))))
  }

  /** The effect of byte `b` followed by `k` zero bytes. */
  ghost function Effect<T>(ops: Ops<T>, k: nat, b: int): T {
    Power(ops.step, k + 1, ops.embed(b))
  }

  ghost predicate IsRow<T>(row: seq<T>, ops: Ops<T>, k: nat) {
    forall b :: 0 <= b < |row| ==> row[b] == Effect(ops, k, b)
  }

  ghost predicate IsTables<T>(tables: seq<seq<T>>, ops: Ops<T>) {
    && |tables| == 8
    && forall k :: 0 <= k < 8 ==> |tables[k]| == 256 && IsRow(tables[k], ops, k)
  }

  lemma EffectOne<T(!new)>(ops: Ops<T>, b: int)
    requires Splits(ops)
    ensures Effect(ops, 0, b) == ops.step(ops.embed(b)) == Power(ops.bit, 8, ops.embed(b))
  {
    assert Power(ops.step, 0, ops.embed(b)) == ops.embed(b);
  }

  lemma EffectNext<T(!new)>(ops: Ops<T>, k: nat, b: int)
    requires Splits(ops) && k >= 1
    ensures var previous := Effect(ops, k - 1, b);
            Effect(ops, k, b) == ops.xor(ops.rest(previous), Effect(ops, 0, ops.lowIndex(previous)))
  {
    var previous := Effect(ops, k - 1, b);
    EffectOne(ops, ops.lowIndex(previous));
    assert Effect(ops, k, b) == ops.step(previous);
  }

  /** The entry of the first table: eight bits of one byte. */
  method FirstEntry<T(!new)>(ops: Ops<T>, byte: int) returns (crc: T)
    requires Splits(ops)
    ensures crc == Effect(ops, 0, byte)
  {
    crc := ops.embed(byte);
    var bit := 0;
    while bit < 8
      invariant 0 <= bit <= 8
      invariant crc == Power(ops.bit, bit, ops.embed(byte))
    {
      crc := ops.bit(crc);
      bit := bit + 1;
    }
    EffectOne(ops, byte);
  }

  method FirstTable<T(0, !new)>(ops: Ops<T>) returns (row: array<T>)
    requires Splits(ops)
    ensures fresh(row) && row.Length == 256 && IsRow(row[..], ops, 0)
  {
    row := new T[256];
    var byte := 0;
    while byte < 256
      invariant 0 <= byte <= 256
      invariant IsRow(row[..byte], ops, 0)
    {
      row[byte] := FirstEntry(ops, byte);
      byte := byte + 1;
    }
    assert row[..] == row[..256];
  }

  /** An entry of a later table, from the same entry of the table before. */
  function NextEntry<T(!new)>(ops: Ops<T>, first: seq<T>, previous: seq<T>, ghost k: nat, byte: nat): (entry: T)
    requires Splits(ops) && 1 <= k && byte < 256
    requires |first| == 256 && IsRow(first, ops, 0)
    requires |previous| == 256 && IsRow(previous, ops, k - 1)
    ensures entry == Effect(ops, k, byte)
  {
    EffectNext(ops, k, byte);
    ops.xor(ops.rest(previous[byte]), first[ops.lowIndex(previous[byte])])
  }

  method NextTable<T(0, !new)>(ops: Ops<T>, first: seq<T>, previous: seq<T>, ghost k: nat) returns (row: array<T>)
    requires Splits(ops) && 1 <= k
    requires |first| == 256 && IsRow(first, ops, 0)
    requires |previous| == 256 && IsRow(previous, ops, k - 1)
    ensures fresh(row) && row.Length == 256 && IsRow(row[..], ops, k)
  {
    row := new T[256];
    var byte := 0;
    while byte < 256
      invariant 0 <= byte <= 256
      invariant IsRow(row[..byte], ops, k)
    {
      row[byte] := NextEntry(ops, first, previous, k, byte);
      byte := byte + 1;
    }
    assert row[..] == row[..256];
  }

  /** All eight tables: the first from single bits, each other one from the one before. */
  method BuildTables<T(0, !new)>(ops: Ops<T>) returns (tables: seq<seq<T>>)
    requires Splits(ops)
    ensures IsTables(tables, ops)
  {
    var first := FirstTable(ops);
    tables := [first[..]];
    var table := 1;
    while table < 8
      invariant 1 <= table <= 8 && |tables| == table
      invariant forall k :: 0 <= k < table ==> |tables[k]| == 256 && IsRow(tables[k], ops, k)
    {
      var row := NextTable(ops, tables[0], tables[table - 1], table);
      tables := tables + [row[..]];
      table := table + 1;
    }
  }
}
