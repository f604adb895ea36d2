/** The coordinator's mutations as bytes, and the log file they make up. */
module MutationCodec {
  import opened FramedLog
  import opened Ownership
  import opened Wrappers
  import CL = ClusterLog

  type Long = n: nat | n < 0x1_0000_0000_0000_0000
  type Text = seq<Byte>

  datatype Mutation =
    | Add(logical: Long, version: Word, dsl: Text, tags: seq<(Text, Text)>, placement: QueryPlacement)
    | Remove(logical: Long)
    | Upsert(logical: Long, version: Word, dsl: Text, tags: seq<(Text, Text)>, placement: QueryPlacement)

  const OP_ADD: Byte := 0
  const OP_REMOVE: Byte := 1
  const OP_UPSERT: Byte := 2

  // ---- writing ----

  function Le64(n: Long): (r: seq<Byte>)
    ensures |r| == 8
  {
    Le32(n % 0x1_0000_0000) + Le32(n / 0x1_0000_0000)
  }

  function Counted(t: Text): seq<Byte>
    requires |t| < 0x1_0000_0000
  {
    Le32(|t|) + t
  }

  function Tags(tags: seq<(Text, Text)>): seq<Byte>
    requires TagsFit(tags)
  {
    if tags == [] then [] else Counted(tags[0].0) + Counted(tags[0].1) + Tags(tags[1..])
  }

  function Positions(positions: seq<nat>): seq<Byte>
    requires PositionsFit(positions)
  {
    if positions == [] then [] else Le32(positions[0]) + Positions(positions[1..])
  }

  predicate TagsFit(tags: seq<(Text, Text)>) {
    |tags| < 0x1_0000_0000 && forall i :: 0 <= i < |tags| ==> |tags[i].0| < 0x1_0000_0000 && |tags[i].1| < 0x1_0000_0000
  }

  predicate PositionsFit(positions: seq<nat>) {
    |positions| < 0x1_0000_0000 && forall i :: 0 <= i < |positions| ==> positions[i] < 0x1_0000_0000
  }

  predicate PlacementFits(p: QueryPlacement) {
    p.generation < 0x1_0000_0000_0000_0000 && p.numShards < 0x1_0000_0000 && PositionsFit(p.positions)
  }

  function Placement(p: QueryPlacement): seq<Byte>
    requires PlacementFits(p)
  {
    Le64(p.generation) + Le32(p.numShards) + [ModeByte(p.mode)] + Le32(|p.positions|) + Positions(p.positions)
  }

  predicate Fits(m: Mutation) {
    m.Remove? || (|m.dsl| < 0x1_0000_0000 && TagsFit(m.tags) && PlacementFits(m.placement))
  }

  function AddLike(m: Mutation): seq<Byte>
    requires !m.Remove? && Fits(m)
  {
    Le64(m.logical) + Le32(m.version) + Counted(m.dsl) + Le32(|m.tags|) + Tags(m.tags) + Placement(m.placement)
  }

  /** Position, operation, payload. */
  function EncodeBody(pos: Long, m: Mutation): seq<Byte>
    requires Fits(m)
  {
    Le64(pos) + match m
                case Add(_, _, _, _, _) => [OP_ADD] + AddLike(m)
                case Upsert(_, _, _, _, _) => [OP_UPSERT] + AddLike(m)
                case Remove(logical) => [OP_REMOVE] + Le64(logical)
  }

  // ---- reading ----

  /** A value and the bytes behind it, or a payload that was too short or not well formed. */
  type Read<!T> = Option<(T, seq<Byte>)>

  function ReadByte(s: seq<Byte>): Read<Byte> {
    if s == [] then None else Some((s[0], s[1..]))
  }

  function Read32(s: seq<Byte>): Read<Word> {
    if |s| < 4 then None else Some((U32At(s, 0), s[4..]))
  }

  function Read64(s: seq<Byte>): Read<Long> {
    if |s| < 8 then None else Some(((U32At(s, 0) as int) + 0x1_0000_0000 * (U32At(s, 4) as int), s[8..]))
  }

  /** A counted string; its bytes must be well-formed text. */
  function ReadText(utf8: Text -> bool, s: seq<Byte>): Read<Text> {
    match Read32(s)
    case None => None
    case Some((len, rest)) => if len > |rest| || !utf8(rest[..len]) then None else Some((rest[..len], rest[len..]))
  }

  function ReadTags(utf8: Text -> bool, count: nat, s: seq<Byte>): Read<seq<(Text, Text)>> {
    if count == 0 then Some(([], s))
    else
      match ReadText(utf8, s)
      case None => None
      case Some((key, s1)) =>
        match ReadText(utf8, s1)
        case None => None
        case Some((value, s2)) =>
          match ReadTags(utf8, count - 1, s2)
          case None => None
          case Some((tags, rest)) => Some(([(key, value)] + tags, rest))
  }

  function ReadPositions(count: nat, s: seq<Byte>): Read<seq<nat>> {
    if count == 0 then Some(([], s))
    else
      match Read32(s)
      case None => None
      case Some((p, s1)) =>
        match ReadPositions(count - 1, s1)
        case None => None
        case Some((positions, rest)) => Some(([p as nat] + positions, rest))
  }

  ghost function ReadPlacement(s: seq<Byte>): Read<QueryPlacement> {
    match Read64(s)
    case None => None
    case Some((generation, s1)) =>
      match Read32(s1)
      case None => None
      case Some((numShards, s2)) =>
        match ReadByte(s2)
        case None => None
        case Some((mode, s3)) =>
          match Read32(s3)
          case None => None
          case Some((count, s4)) =>
            if count > |s4| / 4 then None
            else
              match ReadPositions(count, s4)
              case None => None
              case Some((positions, rest)) =>
                if ModeOf(mode).None? then None
                else
                  var p := QueryPlacement(generation, numShards, ModeOf(mode).value, positions);
                  if ValidPlacement(p) then Some((p, rest)) else None
  }

  ghost function ReadAddLike(utf8: Text -> bool, op: Byte, s: seq<Byte>): Read<Mutation> {
    match Read64(s)
    case None => None
    case Some((logical, s1)) =>
      match Read32(s1)
      case None => None
      case Some((version, s2)) =>
        match ReadText(utf8, s2)
        case None => None
        case Some((dsl, s3)) =>
          match Read32(s3)
          case None => None
          case Some((count, s4)) =>
            if count > |s4| / 8 then None
            else
              match ReadTags(utf8, count, s4)
              case None => None
              case Some((tags, s5)) =>
                match ReadPlacement(s5)
                case None => None
                case Some((placement, rest)) =>
                  Some((if op == OP_ADD then Add(logical, version, dsl, tags, placement)
                        else Upsert(logical, version, dsl, tags, placement), rest))
  }

  /** A whole body: nothing may be left over. */
  ghost function Decode(utf8: Text -> bool, body: seq<Byte>): Option<(Long, Mutation)> {
    match Read64(body)
    case None => None
    case Some((pos, s1)) =>
      match ReadByte(s1)
      case None => None
      case Some((op, s2)) =>
        if op == OP_ADD || op == OP_UPSERT then
          match ReadAddLike(utf8, op, s2)
          case None => None
          case Some((m, rest)) => if rest == [] then Some((pos, m)) else None
        else if op == OP_REMOVE then
          match Read64(s2)
          case None => None
          case Some((logical, rest)) => if rest == [] then Some((pos, Remove(logical))) else None
        else None
  }

  // ---- reading back what was written ----

  lemma Back32(n: Word, rest: seq<Byte>)
    ensures Read32(Le32(n) + rest) == Some((n, rest))
  {
    ReadBackWord(n, rest);
    assert (Le32(n) + rest)[4..] == rest;
  }

  lemma Back64(n: Long, rest: seq<Byte>)
    ensures Read64(Le64(n) + rest) == Some((n, rest))
  {
    var low: Word, high: Word := n % 0x1_0000_0000, n / 0x1_0000_0000;
    var s := Le64(n) + rest;
    assert s == Le32(low) + (Le32(high) + rest);
    ReadBackWord(low, Le32(high) + rest);
    ReadBackWord(high, rest);
    assert forall k :: 0 <= k < 4 ==> s[4 + k] == (Le32(high) + rest)[k];
    assert s[8..] == rest;
    hide Le32;
  }

  lemma BackText(utf8: Text -> bool, t: Text, rest: seq<Byte>)
    requires |t| < 0x1_0000_0000 && utf8(t)
    ensures ReadText(utf8, Counted(t) + rest) == Some((t, rest))
  {
    assert Counted(t) + rest == Le32(|t|) + (t + rest);
    Back32(|t|, t + rest);
    hide Read32, Le32;
    assert (t + rest)[..|t|] == t && (t + rest)[|t|..] == rest;
  }

  ghost predicate GoodTags(utf8: Text -> bool, tags: seq<(Text, Text)>) {
    TagsFit(tags) && forall i :: 0 <= i < |tags| ==> utf8(tags[i].0) && utf8(tags[i].1)
  }

  lemma Regroup(a: seq<Byte>, b: seq<Byte>, c: seq<Byte>, d: seq<Byte>)
    ensures a + b + c + d == a + (b + (c + d))
  {
  }

  lemma FirstTag(utf8: Text -> bool, tags: seq<(Text, Text)>)
    requires GoodTags(utf8, tags) && tags != []
    ensures GoodTags(utf8, tags[1..]) && utf8(tags[0].0) && utf8(tags[0].1)
    ensures |tags[0].0| < 0x1_0000_0000 && |tags[0].1| < 0x1_0000_0000
    ensures TagsFit(tags) && TagsFit(tags[1..])
  {
  }

  lemma TagsUnfold(tags: seq<(Text, Text)>)
    requires TagsFit(tags) && tags != []
    ensures |tags[0].0| < 0x1_0000_0000 && |tags[0].1| < 0x1_0000_0000 && TagsFit(tags[1..])
    ensures Tags(tags) == Counted(tags[0].0) + Counted(tags[0].1) + Tags(tags[1..])
  {
    hide Counted;
  }

  lemma CountedLength(t: Text)
    requires |t| < 0x1_0000_0000
    ensures |Counted(t)| == 4 + |t|
  {
  }

  lemma TagsCons(utf8: Text -> bool, tags: seq<(Text, Text)>, rest: seq<Byte>)
    requires GoodTags(utf8, tags) && tags != []
    ensures GoodTags(utf8, tags[1..]) && utf8(tags[0].0) && utf8(tags[0].1) && TagsFit(tags) && TagsFit(tags[1..])
    ensures |tags[0].0| < 0x1_0000_0000 && |tags[0].1| < 0x1_0000_0000
    ensures Tags(tags) + rest == Counted(tags[0].0) + (Counted(tags[0].1) + (Tags(tags[1..]) + rest))
    ensures |Tags(tags)| >= 8 + |Tags(tags[1..])|
  {
    hide *;
    FirstTag(utf8, tags);
    TagsUnfold(tags);
    CountedLength(tags[0].0);
    CountedLength(tags[0].1);
    Regroup(Counted(tags[0].0), Counted(tags[0].1), Tags(tags[1..]), rest);
  }

  lemma NoTags(utf8: Text -> bool, rest: seq<Byte>)
    ensures Tags([]) == [] && ReadTags(utf8, 0, [] + rest) == Some(([], rest))
  {
    assert [] + rest == rest;
  }

  lemma ReadOneTag(utf8: Text -> bool, count: nat, s: seq<Byte>, key: Text, s1: seq<Byte>, value: Text, s2: seq<Byte>,
                   tags: seq<(Text, Text)>, rest: seq<Byte>)
    requires count > 0 && ReadText(utf8, s) == Some((key, s1)) && ReadText(utf8, s1) == Some((value, s2))
    requires ReadTags(utf8, count - 1, s2) == Some((tags, rest))
    ensures ReadTags(utf8, count, s) == Some(([(key, value)] + tags, rest))
  {
    hide ReadText;
  }

  lemma {:induction false} BackTags(utf8: Text -> bool, tags: seq<(Text, Text)>, rest: seq<Byte>)
    requires TagsFit(tags) && GoodTags(utf8, tags)
    ensures ReadTags(utf8, |tags|, Tags(tags) + rest) == Some((tags, rest))
    ensures 8 * |tags| <= |Tags(tags)|
    decreases |tags|
  {
    hide *;
    if tags == [] {
      NoTags(utf8, rest);
    } else {
      TagsCons(utf8, tags, rest);
      var more := Tags(tags[1..]) + rest;
      BackTags(utf8, tags[1..], rest);
      BackText(utf8, tags[0].0, Counted(tags[0].1) + more);
      BackText(utf8, tags[0].1, more);
      ReadOneTag(utf8, |tags|, Tags(tags) + rest, tags[0].0, Counted(tags[0].1) + more, tags[0].1, more, tags[1..],
                 rest);
      assert tags == [(tags[0].0, tags[0].1)] + tags[1..];
    }
  }

  lemma {:induction false} BackPositions(positions: seq<nat>, rest: seq<Byte>)
    requires PositionsFit(positions)
    ensures ReadPositions(|positions|, Positions(positions) + rest) == Some((positions, rest))
    ensures |Positions(positions)| == 4 * |positions|
    decreases |positions|
  {
    if positions == [] {
      assert [] + rest == rest;
    } else {
      var more := Positions(positions[1..]) + rest;
      assert Positions(positions) + rest == Le32(positions[0]) + more;
      BackPositions(positions[1..], rest);
      Back32(positions[0], more);
      hide Read32, Le32, Positions;
      assert positions == [positions[0]] + positions[1..];
    }
  }

  lemma PlacementParts(p: QueryPlacement, rest: seq<Byte>)
    requires PlacementFits(p)
    ensures Placement(p) + rest
         == Le64(p.generation) + (Le32(p.numShards) + ([ModeByte(p.mode) as Byte]
            + (Le32(|p.positions|) + (Positions(p.positions) + rest))))
  {
    hide Le64, Le32, Positions;
  }

  lemma ReadPlacementSteps(s: seq<Byte>, p: QueryPlacement, s1: seq<Byte>, s2: seq<Byte>, s3: seq<Byte>, s4: seq<Byte>,
                           rest: seq<Byte>)
    requires PlacementFits(p) && ValidPlacement(p)
    requires Read64(s) == Some((p.generation, s1)) && Read32(s1) == Some((p.numShards, s2))
    requires ReadByte(s2) == Some((ModeByte(p.mode) as Byte, s3)) && Read32(s3) == Some((|p.positions|, s4))
    requires |p.positions| <= |s4| / 4 && ReadPositions(|p.positions|, s4) == Some((p.positions, rest))
    ensures ReadPlacement(s) == Some((p, rest))
  {
    hide Read64, Read32, ReadByte, ReadPositions, ValidPlacement;
  }

  lemma BackPlacement(p: QueryPlacement, rest: seq<Byte>)
    requires PlacementFits(p) && ValidPlacement(p)
    ensures ReadPlacement(Placement(p) + rest) == Some((p, rest))
  {
    var s4 := Positions(p.positions) + rest;
    var s3 := Le32(|p.positions|) + s4;
    var s2 := [ModeByte(p.mode) as Byte] + s3;
    var s1 := Le32(p.numShards) + s2;
    PlacementParts(p, rest);
    assert ReadByte(s2) == Some((ModeByte(p.mode) as Byte, s3));
    hide Read64, Read32, ReadByte, ReadPositions, Le64, Le32, Positions, Placement, ValidPlacement, ReadPlacement,
        ModeByte;
    Back64(p.generation, s1);
    Back32(p.numShards, s2);
    Back32(|p.positions|, s4);
    BackPositions(p.positions, rest);
    ReadPlacementSteps(Placement(p) + rest, p, s1, s2, s3, s4, rest);
  }

  ghost predicate Good(utf8: Text -> bool, m: Mutation) {
    Fits(m) && (!m.Remove? ==> utf8(m.dsl) && GoodTags(utf8, m.tags) && ValidPlacement(m.placement))
  }

  lemma AddLikeParts(m: Mutation)
    requires !m.Remove? && Fits(m)
    ensures AddLike(m)
         == Le64(m.logical) + (Le32(m.version) + (Counted(m.dsl)
            + (Le32(|m.tags|) + (Tags(m.tags) + (Placement(m.placement) + [])))))
  {
    hide Le64, Le32, Counted, Tags, Placement;
    assert Placement(m.placement) + [] == Placement(m.placement);
  }

  lemma ReadAddLikeSteps(utf8: Text -> bool, m: Mutation, s: seq<Byte>, s1: seq<Byte>, s2: seq<Byte>, s3: seq<Byte>,
                         s4: seq<Byte>, s5: seq<Byte>)
    requires !m.Remove? && |m.tags| < 0x1_0000_0000
    requires Read64(s) == Some((m.logical, s1)) && Read32(s1) == Some((m.version, s2))
    requires ReadText(utf8, s2) == Some((m.dsl, s3))
    requires Read32(s3) == Some((|m.tags|, s4)) && |m.tags| <= |s4| / 8
    requires ReadTags(utf8, |m.tags|, s4) == Some((m.tags, s5))
    requires ReadPlacement(s5) == Some((m.placement, []))
    ensures ReadAddLike(utf8, if m.Add? then OP_ADD else OP_UPSERT, s) == Some((m, []))
  {
    hide Read64, Read32, ReadText, ReadTags, ReadPlacement;
  }

  lemma BackAddLike(utf8: Text -> bool, m: Mutation)
    requires !m.Remove? && Good(utf8, m)
    ensures ReadAddLike(utf8, if m.Add? then OP_ADD else OP_UPSERT, AddLike(m)) == Some((m, []))
  {
    hide Read64, Read32, ReadText, ReadTags, ReadPlacement, Le64, Le32, Counted, Tags, Placement, AddLike, GoodTags,
        ValidPlacement, ReadAddLike;
    AddLikeParts(m);
    var s5 := Placement(m.placement) + [];
    var s4 := Tags(m.tags) + s5;
    var s3 := Le32(|m.tags|) + s4;
    var s2 := Counted(m.dsl) + s3;
    var s1 := Le32(m.version) + s2;
    Back64(m.logical, s1);
    Back32(m.version, s2);
    BackText(utf8, m.dsl, s3);
    Back32(|m.tags|, s4);
    BackTags(utf8, m.tags, s5);
    BackPlacement(m.placement, []);
    ReadAddLikeSteps(utf8, m, AddLike(m), s1, s2, s3, s4, s5);
  }

  function Op(m: Mutation): Byte {
    match m
    case Add(_, _, _, _, _) => OP_ADD
    case Upsert(_, _, _, _, _) => OP_UPSERT
    case Remove(_) => OP_REMOVE
  }

  function Payload(m: Mutation): seq<Byte>
    requires Fits(m)
  {
    if m.Remove? then Le64(m.logical) else AddLike(m)
  }

  lemma BodyParts(pos: Long, m: Mutation)
    requires Fits(m)
    ensures EncodeBody(pos, m) == Le64(pos) + ([Op(m)] + Payload(m))
    ensures ReadByte([Op(m)] + Payload(m)) == Some((Op(m), Payload(m)))
  {
    hide Le64, AddLike;
  }

  lemma BackPayload(utf8: Text -> bool, m: Mutation)
    requires Good(utf8, m)
    ensures m.Remove? ==> Read64(Payload(m)) == Some((m.logical, []))
    ensures !m.Remove? ==> ReadAddLike(utf8, Op(m), Payload(m)) == Some((m, []))
  {
    if m.Remove? {
      Back64(m.logical, []);
      assert Le64(m.logical) + [] == Le64(m.logical);
    } else {
      BackAddLike(utf8, m);
    }
    hide Read64, ReadAddLike, Le64, AddLike, Good;
  }

  /** Decoding an encoded mutation gives it back, position and all. */
  lemma DecodeEncode(utf8: Text -> bool, pos: Long, m: Mutation)
    requires Good(utf8, m)
    ensures Decode(utf8, EncodeBody(pos, m)) == Some((pos, m))
  {
    BodyParts(pos, m);
    hide EncodeBody, Read64, ReadByte, ReadAddLike, Le64, Payload;
    Back64(pos, [Op(m)] + Payload(m));
    BackPayload(utf8, m);
  }

  /** So two mutations with the same bytes are the same. */
  lemma EncodingIsFaithful(utf8: Text -> bool, pos: Long, m: Mutation, pos': Long, m': Mutation)
    requires Good(utf8, m) && Good(utf8, m') && EncodeBody(pos, m) == EncodeBody(pos', m')
    ensures pos == pos' && m == m'
  {
    DecodeEncode(utf8, pos, m);
    DecodeEncode(utf8, pos', m');
  }

  // ---- the log file ----

  /** The four letters of the format and its version. */
  const HEADER: seq<Byte> := [67, 77, 76, 71, 4, 0, 0, 0]

  ghost predicate GoodRecord(utf8: Text -> bool, r: CL.Record<Mutation>) {
    r.pos < 0x1_0000_0000_0000_0000 && Good(utf8, r.mutation) && |EncodeBody(r.pos, r.mutation)| < 0x1_0000_0000
  }

  /** Decoding as the log reads: every position must lie above the one before it, and above zero. */
  ghost function DecodeRecord(utf8: Text -> bool): Decoder<CL.Record<Mutation>> {
    (done: seq<CL.Record<Mutation>>, body: seq<Byte>) =>
      var d := Decode(utf8, body);
      if d.None? || d.value.0 <= PreviousPos(done) then None else Some(CL.Record(d.value.0, d.value.1))
  }

  function PreviousPos(done: seq<CL.Record<Mutation>>): nat {
    if done == [] then 0 else done[|done| - 1].pos
  }

  ghost predicate Ordered(records: seq<CL.Record<Mutation>>) {
    CL.Increasing(records) && forall i :: 0 <= i < |records| ==> 0 < records[i].pos
  }

  ghost predicate AllGood(utf8: Text -> bool, records: seq<CL.Record<Mutation>>) {
    forall i :: 0 <= i < |records| ==> GoodRecord(utf8, records[i])
  }

  ghost function Bodies(utf8: Text -> bool, records: seq<CL.Record<Mutation>>): seq<seq<Byte>>
    requires AllGood(utf8, records)
  {
    seq(|records|, i requires 0 <= i < |records| &&
        GoodRecord(utf8, records[i]) => EncodeBody(records[i].pos, records[i].mutation))
  }

  lemma BodyDecodes(utf8: Text -> bool, done: seq<CL.Record<Mutation>>, r: CL.Record<Mutation>)
    requires GoodRecord(utf8, r) && PreviousPos(done) < r.pos
    ensures Writable(EncodeBody(r.pos, r.mutation))
    ensures DecodeRecord(utf8)(done, EncodeBody(r.pos, r.mutation)) == Some(r)
  {
    DecodeEncode(utf8, r.pos, r.mutation);
    BodyParts(r.pos, r.mutation);
    hide Decode, EncodeBody, Good, Payload;
  }

  lemma BodiesDecode(utf8: Text -> bool, records: seq<CL.Record<Mutation>>)
    requires AllGood(utf8, records) && Ordered(records)
    ensures Decodes(DecodeRecord(utf8), [], Bodies(utf8, records), records)
  {
    forall i | 0 <= i < |records|
      ensures Writable(Bodies(utf8, records)[i])
      ensures DecodeRecord(utf8)([] + records[..i], Bodies(utf8, records)[i]) == Some(records[i])
    {
      assert [] + records[..i] == records[..i];
      BodyDecodes(utf8, records[..i], records[i]);
      hide DecodeRecord, EncodeBody, GoodRecord;
    }
  }

  lemma DecodesSized<T>(decode: Decoder<T>, bodies: seq<seq<Byte>>, records: seq<T>)
    requires Decodes(decode, [], bodies, records)
    ensures forall i :: 0 <= i < |bodies| ==> Sized(bodies[i])
  {
  }

  /** Reading a file: the format and version first, then the frames. */
  ghost function ReadEntries(checksum: Checksum, utf8: Text -> bool,
                             data: seq<Byte>): Result<Scanned<CL.Record<Mutation>>, ScanError> {
    if |data| < |HEADER| || data[..|HEADER|] != HEADER then Err(Refused)
    else Scan(checksum, DecodeRecord(utf8), [], data[|HEADER|..])
  }

  /** The bytes of a log with these records, then a write of `next` that stopped after `cut` bytes. */
  ghost function FileBytes(checksum: Checksum, utf8: Text -> bool, records: seq<CL.Record<Mutation>>, next: seq<Byte>,
                           cut: nat): seq<Byte>
    requires AllGood(utf8, records) && Ordered(records) && Sized(next) && cut < |Frame(checksum, next)|
  {
    BodiesDecode(utf8, records);
    DecodesSized(DecodeRecord(utf8), Bodies(utf8, records), records);
    HEADER + (Frames(checksum, Bodies(utf8, records)) + Frame(checksum, next)[..cut])
  }

  /** The unfinished write is cut off, rather than taken for a damaged record. */
  ghost predicate Dropped(checksum: Checksum, next: seq<Byte>, cut: nat)
    requires Sized(next) && cut < |Frame(checksum, next)|
  {
    var tail := Frame(checksum, next)[..cut];
    cut < FRAME_HEADER || AllZero(tail) || Droppable(checksum, tail)
  }

  /** Reading the bytes of a log returns exactly its records, or refuses when the unfinished write looks like a
      hidden record. */
  lemma LogFileIsItsRecords(checksum: Checksum, utf8: Text -> bool, records: seq<CL.Record<Mutation>>, next: seq<Byte>,
                            cut: nat)
    requires AllGood(utf8, records) && Ordered(records) && Sized(next) && cut < |Frame(checksum, next)|
    ensures var file := FileBytes(checksum, utf8, records, next, cut);
            var r := ReadEntries(checksum, utf8, file);
            if Dropped(checksum, next, cut) then r.Ok? && r.value.records == records &&
                |HEADER| + r.value.length + cut == |file|
            else r == Err(Refused)
  {
    var bodies, tail := Bodies(utf8, records), Frame(checksum, next)[..cut];
    BodiesDecode(utf8, records);
    DecodesSized(DecodeRecord(utf8), bodies, records);
    WrittenIsRead(checksum, DecodeRecord(utf8), bodies, records, next, cut);
    hide AllGood, Ordered, Bodies, DecodeRecord, Decodes, Scan, Frames, Frame, Sized, AllZero, Droppable;
    Behind(HEADER, Frames(checksum, bodies) + tail);
  }

  lemma Behind(header: seq<Byte>, rest: seq<Byte>)
    ensures (header + rest)[..|header|] == header && (header + rest)[|header|..] == rest
  {
  }

  // ---- whole runs of the log, down to the bytes ----

  /** A mutation that can be written: its texts are texts, its counts fit their fields and its record fits a frame. */
  ghost predicate Encodable(utf8: Text -> bool, m: Mutation) {
    Good(utf8, m) && |EncodeBody(0, m)| < 0x1_0000_0000
  }

  lemma EncodableIsGood(utf8: Text -> bool, m: Mutation, pos: nat)
    requires Encodable(utf8, m) && pos < CL.MAX_POSITION
    ensures GoodRecord(utf8, CL.Record(pos, m))
  {
    BodyParts(pos, m);
    BodyParts(0, m);
    hide EncodeBody, Payload, Good;
  }

  /** Whatever appends, checkpoints, crashes and reopenings a log of mutations went through, reading the bytes of
      its file returns the records of its state, and replay from them is complete. */
  lemma EveryRunReadsBack(checksum: Checksum, utf8: Text -> bool, events: seq<CL.Event<Mutation>>, next: seq<Byte>)
    requires CL.IsRun(CL.Start<Mutation>(), events)
    requires forall i :: 0 <= i < |events| && CL.WritesWhole(events[i]) ==> Encodable(utf8, events[i].mutation)
    requires var s := CL.Final(CL.Start<Mutation>(), events);
             s.file.Some? && Sized(next) && s.file.value.torn < |Frame(checksum, next)|
    ensures var s := CL.Final(CL.Start<Mutation>(), events);
            var records, cut := s.file.value.records, s.file.value.torn;
            && AllGood(utf8, records) && Ordered(records)
            && var r := ReadEntries(checksum, utf8, FileBytes(checksum, utf8, records, next, cut));
               && (Dropped(checksum, next, cut) ==> r.Ok? && r.value.records == records)
               && (!Dropped(checksum, next, cut) ==> r == Err(Refused))
               && CL.Acknowledged(CL.After(records, s.cursor), s.acked) == CL.After(s.acked, s.cursor)
  {
    var s := CL.Final(CL.Start<Mutation>(), events);
    RunIsGood(utf8, events);
    CL.EveryRunReplays(events);
    hide CL.IsRun, CL.Final, CL.Increasing, CL.After, CL.Acknowledged, AllGood, FileBytes, ReadEntries, Dropped, Frame;
    LogFileIsItsRecords(checksum, utf8, s.file.value.records, next, s.file.value.torn);
  }

  lemma RunIsGood(utf8: Text -> bool, events: seq<CL.Event<Mutation>>)
    requires CL.IsRun(CL.Start<Mutation>(), events)
    requires forall i :: 0 <= i < |events| && CL.WritesWhole(events[i]) ==> Encodable(utf8, events[i].mutation)
    ensures var s := CL.Final(CL.Start<Mutation>(), events);
            AllGood(utf8, CL.Records(s)) && Ordered(CL.Records(s))
  {
    var start, ok := CL.Start<Mutation>(), r => GoodRecord(utf8, r);
    assert forall r :: ok(r) <==> GoodRecord(utf8, r);
    hide GoodRecord, Encodable, CL.WritesWhole, CL.Writes, CL.IsRun, CL.Final, CL.Everywhere, CL.Safe;
    forall i | 0 <= i < |events| ensures CL.Writes(events[i], ok) { WritesGood(utf8, events[i], ok); }
    StartIsGood(ok);
    CL.RunEverywhere(start, events, ok);
    CL.RunSafe(start, events);
    RunEnds(utf8, CL.Final(start, events), ok);
  }

  lemma WritesGood(utf8: Text -> bool, e: CL.Event<Mutation>, ok: CL.Record<Mutation> -> bool)
    requires CL.WritesWhole(e) ==> Encodable(utf8, e.mutation)
    requires forall r :: ok(r) <==> GoodRecord(utf8, r)
    ensures CL.Writes(e, ok)
  {
    hide GoodRecord, Encodable;
    if CL.WritesWhole(e) {
      forall pos: nat | pos < CL.MAX_POSITION ensures ok(CL.Record(pos, e.mutation)) {
        EncodableIsGood(utf8, e.mutation, pos);
      }
    }
  }

  lemma StartIsGood(ok: CL.Record<Mutation> -> bool)
    ensures CL.Everywhere(CL.Start<Mutation>(), ok) && CL.Safe(CL.Start<Mutation>())
  {
  }

  lemma RunEnds(utf8: Text -> bool, s: CL.State<Mutation>, ok: CL.Record<Mutation> -> bool)
    requires CL.Everywhere(s, ok) && CL.Safe(s) && forall r :: ok(r) <==> GoodRecord(utf8, r)
    ensures AllGood(utf8, CL.Records(s)) && Ordered(CL.Records(s))
  {
    hide GoodRecord, CL.Increasing;
    var records := CL.Records(s);
    forall i | 0 <= i < |records|
      ensures GoodRecord(utf8, records[i]) && 0 < records[i].pos
    {
      assert records[i] in records;
    }
  }
}
