/** Frames with the checksum the logs really use: a frame that lost a byte of its body is never read. */
module CrcFrames {
  import Crc32Checksum
  import opened FramedLog
  import opened Wrappers

  function ToBits(b: Byte): bv8 { b as bv8 }

  function ToByte(b: bv8): Byte { b as nat }

  function BitsOf(body: seq<Byte>): seq<bv8> {
    seq(|body|, i requires 0 <= i < |body| => ToBits(body[i]))
  }

  /** A byte string as a frame's body. */
  function BytesOf(data: seq<bv8>): (r: seq<Byte>)
    ensures |r| == |data|
  {
    seq(|data|, i requires 0 <= i < |data| => ToByte(data[i]))
  }

  function Number(w: Crc32Checksum.Word): Word { w as nat }

  /** The CRC-32 of a body, as the number a frame stores. */
  function Crc(body: seq<Byte>): Word {
    Number(Crc32Checksum.Definition(BitsOf(body)))
  }

  lemma BitsBack(b: bv8)
    ensures ToBits(ToByte(b)) == b
  {
  }

  lemma BytesBack(data: seq<bv8>)
    ensures BitsOf(BytesOf(data)) == data
  {
    forall i | 0 <= i < |data| ensures BitsOf(BytesOf(data))[i] == data[i] { BitsBack(data[i]); }
    hide ToBits, ToByte;
  }

  lemma NumberBack(w: Crc32Checksum.Word)
    ensures Number(w) as bv32 == w
  {
  }

  lemma NumberInjective(v: Crc32Checksum.Word, w: Crc32Checksum.Word)
    requires Number(v) == Number(w)
    ensures v == w
  {
    NumberBack(v);
    NumberBack(w);
    hide Number;
  }

  lemma CrcShows(data: seq<bv8>, i: nat, x: bv8)
    requires i < |data| && x != data[i]
    ensures Crc(BytesOf(data[i := x])) != Crc(BytesOf(data))
  {
    BytesBack(data);
    BytesBack(data[i := x]);
    hide BitsOf, BytesOf, Number, Crc32Checksum.Definition;
    Crc32Checksum.OneByteChangeDetected(data, i, x);
    var v, w := Crc32Checksum.Definition(data[i := x]), Crc32Checksum.Definition(data);
    if Number(v) == Number(w) { NumberInjective(v, w); }
  }

  lemma BytesUpdated(data: seq<bv8>, i: nat, x: bv8)
    requires i < |data|
    ensures BytesOf(data[i := x]) == BytesOf(data)[i := ToByte(x)]
  {
    hide ToByte;
  }

  /** A complete frame one byte of whose body was changed makes the whole file unreadable, whatever precedes and
      follows it: the changed body is never decoded. */
  lemma ChangedBodyRefused<T>(decode: Decoder<T>, bodies: seq<seq<Byte>>, records: seq<T>,
                              data: seq<bv8>, i: nat, x: bv8, rest: seq<Byte>)
    requires Decodes(decode, [], bodies, records) && Writable(BytesOf(data)) && i < |data| && x != data[i]
    ensures var damaged := Frame(Crc, BytesOf(data))[FRAME_HEADER + i := ToByte(x)];
            Scan(Crc, decode, [], Frames(Crc, bodies) + (damaged + rest)) == Err(BadChecksum)
  {
    var body := BytesOf(data);
    var tail := Frame(Crc, body)[FRAME_HEADER + i := ToByte(x)] + rest;
    ScanFrames(Crc, decode, [], bodies, records, tail);
    CrcShows(data, i, x);
    BytesUpdated(data, i, x);
    ChangedParts(body, i, ToByte(x), rest);
    hide Frames, Frame, Crc, U32At, Decodes, AllZero, Scan, BytesOf, ToByte;
    ScanOnce(Crc, decode, [] + records, tail);
  }

  lemma ChangedParts(body: seq<Byte>, i: nat, x: Byte, rest: seq<Byte>)
    requires Writable(body) && i < |body|
    ensures var tail := Frame(Crc, body)[FRAME_HEADER + i := x] + rest;
            && |tail| == FRAME_HEADER + |body| + |rest| && !AllZero(tail)
            && U32At(tail, 0) == |body| && U32At(tail, 4) == Crc(body)
            && tail[FRAME_HEADER..FRAME_HEADER + |body|] == body[i := x]
  {
    FrameParts(Crc, body, rest);
    BodyBehind(Crc, body);
    hide Crc, Frame;
    var tail, whole := Frame(Crc, body)[FRAME_HEADER + i := x] + rest, Frame(Crc, body) + rest;
    assert tail[..FRAME_HEADER] == whole[..FRAME_HEADER];
    WordsInFront(tail, whole);
    ZeroWord(tail);
    hide U32At, AllZero;
    assert tail[FRAME_HEADER..FRAME_HEADER + |body|] == Frame(Crc, body)[FRAME_HEADER..][i := x];
  }

  lemma WordsInFront(a: seq<Byte>, b: seq<Byte>)
    requires |a| >= FRAME_HEADER && |b| >= FRAME_HEADER && a[..FRAME_HEADER] == b[..FRAME_HEADER]
    ensures U32At(a, 0) == U32At(b, 0) && U32At(a, 4) == U32At(b, 4)
  {
    assert forall k :: 0 <= k < FRAME_HEADER ==> a[k] == a[..FRAME_HEADER][k] && b[k] == b[..FRAME_HEADER][k];
  }
}
