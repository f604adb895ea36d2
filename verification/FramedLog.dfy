/** The byte frames that every durable log is made of: length, checksum, body. What was written whole
    is read back whole, and an unfinished last write never changes what came before it.
  */
module FramedLog {
  import opened Wrappers

  type Byte = b: nat | b < 256
  type Word = n: nat | n < 0x1_0000_0000

  /** The checksum of a body; any function will do. */
  type Checksum = seq<Byte> -> Word

  const FRAME_HEADER: nat := 8

  // ---- little-endian words ----

  function Le32(n: Word): (r: seq<Byte>)
    ensures |r| == 4
  {
    [n % 256, n / 256 % 256, n / 65536 % 256, n / 16777216]
  }

  function U32At(data: seq<Byte>, at: nat): Word
    requires at + 4 <= |data|
  {
    (data[at] as int) + 256 * (data[at + 1] as int) + 65536 * (data[at + 2] as int) + 16777216 * (data[at + 3] as int)
  }

  lemma ReadBackWord(n: Word, rest: seq<Byte>)
    ensures U32At(Le32(n) + rest, 0) == n
  {
    WordParts(n);
  }

  lemma WordParts(n: Word)
    ensures n % 256 + 256 * (n / 256 % 256) + 65536 * (n / 65536 % 256) + 16777216 * (n / 16777216) == n
  {
    var a, b, c := n / 256, n / 65536, n / 16777216;
    assert n == 256 * a + n % 256;
    assert b == a / 256 && c == b / 256;
    assert a == 256 * b + a % 256;
    assert b == 256 * c + b % 256;
  }

  // ---- frames ----

  function Frame(checksum: Checksum, body: seq<Byte>): (r: seq<Byte>)
    requires |body| < 0x1_0000_0000
    ensures |r| == FRAME_HEADER + |body|
  {
    Le32(|body|) + Le32(checksum(body)) + body
  }

  predicate Sized(body: seq<Byte>) { |body| < 0x1_0000_0000 }

  predicate Writable(body: seq<Byte>) { body != [] && Sized(body) }

  function Frames(checksum: Checksum, bodies: seq<seq<Byte>>): seq<Byte>
    requires forall i :: 0 <= i < |bodies| ==> Sized(bodies[i])
  {
    if bodies == [] then []
    else
      assert Sized(bodies[0]);
      Frame(checksum, bodies[0]) + Frames(checksum, bodies[1..])
  }

  lemma {:induction false} FramesAppend(checksum: Checksum, bodies: seq<seq<Byte>>, body: seq<Byte>)
    requires (forall i :: 0 <= i < |bodies| ==> Sized(bodies[i])) && Sized(body)
    ensures Frames(checksum, bodies + [body]) == Frames(checksum, bodies) + Frame(checksum, body)
  {
    hide Frame;
    if bodies == [] {
      assert Frames(checksum, [body]) == Frame(checksum, body) + Frames(checksum, []);
    } else {
      FramesAppend(checksum, bodies[1..], body);
      assert (bodies + [body])[1..] == bodies[1..] + [body];
    }
  }

  /** Writing at the end of a file of frames leaves a file of one more frame; it fails only when the length of
      the body does not fit its field. */
  method WriteFrame(checksum: Checksum, file: seq<Byte>, body: seq<Byte>, ghost header: seq<Byte>,
                    ghost bodies: seq<seq<Byte>>)
    returns (r: Option<seq<Byte>>)
    requires (forall i :: 0 <= i < |bodies| ==> Sized(bodies[i])) && file == header + Frames(checksum, bodies)
    ensures r.Some? <==> Sized(body)
    ensures r.Some? ==> r.value == header + Frames(checksum, bodies + [body])
  {
    if |body| >= 0x1_0000_0000 {
      return None;
    }
    FramesAppend(checksum, bodies, body);
    hide Frames;
    var frame := Le32(|body|) + Le32(checksum(body)) + body;
    return Some(file + frame);
  }

  predicate AllZero(s: seq<Byte>) {
    forall k :: 0 <= k < |s| ==> s[k] == 0
  }

  // ---- is an unfinished tail safe to drop? ----

  /** Some stretch behind the tail's header carries the header's checksum. */
  predicate PayloadShows(checksum: Checksum, tail: seq<Byte>) {
    |tail| > FRAME_HEADER && exists end ::
        FRAME_HEADER < end <= |tail| && checksum(tail[FRAME_HEADER..end]) == U32At(tail, 4)
  }

  datatype Hidden = Nothing | Found | Unclear

  /** Whether a complete record starts at `offset` or later, as far as the work allowance reaches. */
  function LaterRecord(checksum: Checksum, tail: seq<Byte>, offset: nat, budget: nat): Hidden
    decreases |tail| - offset
  {
    if offset + FRAME_HEADER > |tail| then Nothing
    else
      var len := U32At(tail, offset);
      var start := offset + FRAME_HEADER;
      if len == 0 || start + len > |tail| then LaterRecord(checksum, tail, offset + 1, budget)
      else if len > budget then Unclear
      else if checksum(tail[start..start + len]) == U32At(tail, offset + 4) then Found
      else LaterRecord(checksum, tail, offset + 1, budget - len)
  }

  function Budget(tail: seq<Byte>): nat {
    var whole := if 4 * |tail| > 64 then 4 * |tail| else 64;
    if |tail| > FRAME_HEADER then whole - (|tail| - FRAME_HEADER) else whole
  }

  predicate Droppable(checksum: Checksum, tail: seq<Byte>) {
    !PayloadShows(checksum, tail) && LaterRecord(checksum, tail, 1, Budget(tail)) == Nothing
  }

  /** A complete record lies inside the tail at `offset`. */
  ghost predicate RecordAt(checksum: Checksum, tail: seq<Byte>, offset: nat) {
    && offset + FRAME_HEADER <= |tail|
    && var len := U32At(tail, offset);
       && len > 0 && offset + FRAME_HEADER + len <= |tail|
       && checksum(tail[offset + FRAME_HEADER..offset + FRAME_HEADER + len]) == U32At(tail, offset + 4)
  }

  lemma {:induction false} NothingLater(checksum: Checksum, tail: seq<Byte>, offset: nat, budget: nat, at: nat)
    requires LaterRecord(checksum, tail, offset, budget) == Nothing && offset <= at
    ensures !RecordAt(checksum, tail, at)
    decreases |tail| - offset
  {
    if offset + FRAME_HEADER <= |tail| && offset < at {
      var len := U32At(tail, offset);
      var start := offset + FRAME_HEADER;
      if len == 0 || start + len > |tail| {
        NothingLater(checksum, tail, offset + 1, budget, at);
      } else {
        NothingLater(checksum, tail, offset + 1, budget - len, at);
      }
    }
  }

  /** A tail that is dropped hides no complete record behind a damaged start. */
  lemma DroppedHidesNothing(checksum: Checksum, tail: seq<Byte>, at: nat)
    requires Droppable(checksum, tail) && 1 <= at
    ensures !RecordAt(checksum, tail, at)
  {
    NothingLater(checksum, tail, 1, Budget(tail), at);
  }

  // ---- reading ----

  datatype ScanError = Refused | BadChecksum | BadBody

  /** The decoded records and the number of bytes they take. */
  datatype Scanned<T> = Scanned(records: seq<T>, length: nat)

  /** A decoder may look at the records it has returned before. */
  type Decoder<!T> = (seq<T>, seq<Byte>) -> Option<T>

  function Longer<T>(length: nat, r: Result<Scanned<T>, ScanError>): Result<Scanned<T>, ScanError> {
    match r
    case Err(e) => Err(e)
    case Ok(s) => Ok(Scanned(s.records, length + s.length))
  }

  /** What reading returns for a tail, when the records `done` came before it. */
  function Scan<T>(checksum: Checksum, decode: Decoder<T>, done: seq<T>, tail: seq<Byte>): Result<Scanned<T>, ScanError>
    decreases |tail|
  {
    if |tail| < FRAME_HEADER || AllZero(tail) then Ok(Scanned(done, 0))
    else
      var len := U32At(tail, 0);
      if FRAME_HEADER + len > |tail| then (if Droppable(checksum, tail) then Ok(Scanned(done, 0)) else Err(Refused))
      else
        var body := tail[FRAME_HEADER..FRAME_HEADER + len];
        if checksum(body) != U32At(tail, 4) then Err(BadChecksum)
        else
          match decode(done, body)
          case None => Err(BadBody)
          case Some(record) => Longer(FRAME_HEADER + len,
                                      Scan(checksum, decode, done + [record], tail[FRAME_HEADER + len..]))
  }

  lemma FrameParts(checksum: Checksum, body: seq<Byte>, rest: seq<Byte>)
    requires Writable(body)
    ensures var tail := Frame(checksum, body) + rest;
            && |tail| == FRAME_HEADER + |body| + |rest|
            && U32At(tail, 0) == |body| && U32At(tail, 4) == checksum(body)
            && tail[FRAME_HEADER..FRAME_HEADER + |body|] == body && tail[FRAME_HEADER + |body|..] == rest
            && !AllZero(tail)
  {
    var tail := Frame(checksum, body) + rest;
    var behind := Le32(checksum(body)) + (body + rest);
    assert tail == Le32(|body|) + behind;
    ReadBackWord(|body|, behind);
    ReadBackWord(checksum(body), body + rest);
    assert forall k :: 0 <= k < 4 ==> tail[4 + k] == behind[k];
    hide Le32;
    ZeroWord(tail);
  }

  lemma ZeroWord(tail: seq<Byte>)
    requires |tail| >= 4
    ensures AllZero(tail) ==> U32At(tail, 0) == 0
  {
  }

  /** A whole frame is read as its record, whatever follows it. */
  lemma ScanFrame<T>(checksum: Checksum, decode: Decoder<T>, done: seq<T>, body: seq<Byte>, record: T, rest: seq<Byte>)
    requires Writable(body) && decode(done, body) == Some(record)
    ensures Scan(checksum, decode, done, Frame(checksum, body) + rest)
         == Longer(FRAME_HEADER + |body|, Scan(checksum, decode, done + [record], rest))
  {
    FrameParts(checksum, body, rest);
    hide Frame, U32At, AllZero, Droppable;
  }

  /** The records of a list of bodies, read behind the records `done`. */
  ghost predicate Decodes<T>(decode: Decoder<T>, done: seq<T>, bodies: seq<seq<Byte>>, records: seq<T>) {
    && |records| == |bodies|
    && forall i :: 0 <= i < |bodies| ==>
        Writable(bodies[i]) && decode(done + records[..i], bodies[i]) == Some(records[i])
  }

  lemma {:induction false} ScanFrames<T>(checksum: Checksum, decode: Decoder<T>, done: seq<T>, bodies: seq<seq<Byte>>,
                                         records: seq<T>, tail: seq<Byte>)
    requires Decodes(decode, done, bodies, records)
    ensures Scan(checksum, decode, done, Frames(checksum, bodies) + tail)
         == Longer(|Frames(checksum, bodies)|, Scan(checksum, decode, done + records, tail))
    decreases |bodies|
  {
    hide *;
    if bodies == [] {
      NoFrames(checksum, decode, done, bodies, records);
      assert [] + tail == tail && done + [] == done;
      NoLonger(Scan(checksum, decode, done, tail));
    } else {
      FramesCons(checksum, decode, done, bodies, records, tail);
      var rest := Frames(checksum, bodies[1..]);
      ScanFrame(checksum, decode, done, bodies[0], records[0], rest + tail);
      ScanFrames(checksum, decode, done + [records[0]], bodies[1..], records[1..], tail);
      assert done + [records[0]] + records[1..] == done + records;
      LongerTwice(FRAME_HEADER + |bodies[0]|, |rest|, Scan(checksum, decode, done + records, tail));
    }
  }

  lemma NoFrames<T>(checksum: Checksum, decode: Decoder<T>, done: seq<T>, bodies: seq<seq<Byte>>, records: seq<T>)
    requires Decodes(decode, done, bodies, records) && bodies == []
    ensures Frames(checksum, bodies) == [] && records == []
  {
  }

  lemma FramesCons<T>(checksum: Checksum, decode: Decoder<T>, done: seq<T>, bodies: seq<seq<Byte>>, records: seq<T>,
                      tail: seq<Byte>)
    requires Decodes(decode, done, bodies, records) && bodies != []
    ensures |records| == |bodies| && Writable(bodies[0]) && decode(done, bodies[0]) == Some(records[0])
    ensures Decodes(decode, done + [records[0]], bodies[1..], records[1..])
    ensures forall i :: 0 <= i < |bodies[1..]| ==> Sized(bodies[1..][i])
    ensures Frames(checksum, bodies) + tail == Frame(checksum, bodies[0]) + (Frames(checksum, bodies[1..]) + tail)
    ensures |Frames(checksum, bodies)| == FRAME_HEADER + |bodies[0]| + |Frames(checksum, bodies[1..])|
  {
    hide Frame;
    assert done + records[..0] == done;
    forall i | 0 <= i < |bodies[1..]|
      ensures Writable(bodies[1..][i])
      ensures decode(done + [records[0]] + records[1..][..i], bodies[1..][i]) == Some(records[1..][i])
    {
      assert done + [records[0]] + records[1..][..i] == done + records[..i + 1];
      assert bodies[i + 1] == bodies[1..][i];
    }
    assert Frames(checksum, bodies) == Frame(checksum, bodies[0]) + Frames(checksum, bodies[1..]);
  }

  lemma LongerTwice<T>(a: nat, b: nat, r: Result<Scanned<T>, ScanError>)
    ensures Longer(a, Longer(b, r)) == Longer(a + b, r)
  {
  }

  lemma NoLonger<T>(r: Result<Scanned<T>, ScanError>)
    ensures Longer(0, r) == r
  {
  }

  /** What a file holds after a list of whole writes and one that may be unfinished: reading returns every
      whole record and nothing else, or refuses. It refuses exactly when the unfinished part is long enough
      to be a frame's start and looks as if it hid a complete record. */
  lemma WrittenIsRead<T>(checksum: Checksum, decode: Decoder<T>, bodies: seq<seq<Byte>>, records: seq<T>,
                         next: seq<Byte>, cut: nat)
    requires Decodes(decode, [], bodies, records) && |next| < 0x1_0000_0000 && cut < |Frame(checksum, next)|
    ensures var tail := Frame(checksum, next)[..cut];
            var r := Scan(checksum, decode, [], Frames(checksum, bodies) + tail);
            r == if cut < FRAME_HEADER || AllZero(tail) || Droppable(checksum, tail)
                 then Ok(Scanned(records, |Frames(checksum, bodies)|)) else Err(Refused)
  {
    hide Scan, Frame, Frames, Decodes, AllZero, Droppable;
    var tail := Frame(checksum, next)[..cut];
    ScanFrames(checksum, decode, [], bodies, records, tail);
    UnfinishedTail(checksum, decode, records, next, cut);
    assert [] + records == records;
  }

  /** Part of a frame is never read as a record. */
  lemma UnfinishedTail<T>(checksum: Checksum, decode: Decoder<T>, done: seq<T>, next: seq<Byte>, cut: nat)
    requires |next| < 0x1_0000_0000 && cut < |Frame(checksum, next)|
    ensures var tail := Frame(checksum, next)[..cut];
            var r := Scan(checksum, decode, done, tail);
            r == if cut < FRAME_HEADER || AllZero(tail) || Droppable(checksum, tail) then Ok(Scanned(done, 0))
                 else Err(Refused)
  {
    var frame := Frame(checksum, next);
    var tail := frame[..cut];
    if cut >= FRAME_HEADER {
      assert frame == Le32(|next|) + (Le32(checksum(next)) + next);
      ReadBackWord(|next|, Le32(checksum(next)) + next);
      assert U32At(tail, 0) == U32At(frame, 0);
      hide U32At, Le32, Droppable;
    }
  }

  /** Such cuts exist: whatever the checksum is, a body that itself contains a whole frame, cut anywhere behind
      that frame, makes the file unreadable. */
  lemma EmbeddedFrameRefused<T>(checksum: Checksum, decode: Decoder<T>, bodies: seq<seq<Byte>>, records: seq<T>,
                                front: seq<Byte>, inner: seq<Byte>, back: seq<Byte>, cut: nat)
    requires Decodes(decode, [], bodies, records) && Writable(inner) && Sized(front + Frame(checksum, inner) + back)
    requires FRAME_HEADER + |front| + |Frame(checksum, inner)| <= cut < |Frame(checksum,
               front + Frame(checksum, inner) + back)|
    ensures Scan(checksum, decode, [],
                 Frames(checksum, bodies) + Frame(checksum, front + Frame(checksum, inner) + back)[..cut]) ==
                     Err(Refused)
  {
    var next := front + Frame(checksum, inner) + back;
    var at := FRAME_HEADER + |front|;
    WrittenIsRead(checksum, decode, bodies, records, next, cut);
    EmbeddedBytes(checksum, front, inner, back, cut);
    hide Frame, Frames, Scan, Decodes, Droppable, AllZero, RecordAt;
    EmbeddedRecord(checksum, inner, Frame(checksum, next)[..cut], at);
    if Droppable(checksum, Frame(checksum, next)[..cut]) {
      DroppedHidesNothing(checksum, Frame(checksum, next)[..cut], at);
    }
  }

  lemma EmbeddedBytes(checksum: Checksum, front: seq<Byte>, inner: seq<Byte>, back: seq<Byte>, cut: nat)
    requires Writable(inner) && Sized(front + Frame(checksum, inner) + back)
    requires FRAME_HEADER + |front| + |Frame(checksum, inner)| <= cut < |Frame(checksum,
               front + Frame(checksum, inner) + back)|
    ensures var tail, at := Frame(checksum, front + Frame(checksum, inner) + back)[..cut], FRAME_HEADER + |front|;
            at + |Frame(checksum, inner)| <= |tail| && tail[at..][..|Frame(checksum, inner)|] == Frame(checksum, inner)
  {
    var whole := Frame(checksum, inner);
    var next := front + whole + back;
    assert next[|front|..][..|whole|] == whole;
    BodyBehind(checksum, next);
    hide Frame;
    var frame, at := Frame(checksum, next), FRAME_HEADER + |front|;
    assert frame[..cut][at..][..|whole|] == frame[FRAME_HEADER..][|front|..][..|whole|];
  }

  lemma BodyBehind(checksum: Checksum, body: seq<Byte>)
    requires Sized(body)
    ensures Frame(checksum, body)[FRAME_HEADER..] == body
  {
  }

  lemma EmbeddedRecord(checksum: Checksum, inner: seq<Byte>, tail: seq<Byte>, at: nat)
    requires Writable(inner) && at + FRAME_HEADER + |inner| <= |tail|
    requires tail[at..][..FRAME_HEADER + |inner|] == Frame(checksum, inner)
    ensures RecordAt(checksum, tail, at) && !AllZero(tail)
  {
    var rest := tail[at..][FRAME_HEADER + |inner|..];
    assert tail[at..] == Frame(checksum, inner) + rest;
    FrameParts(checksum, inner, rest);
    ZeroBehind(tail, at);
    WordBehind(tail, at, 0);
    WordBehind(tail, at, 4);
    hide Frame, U32At, AllZero;
    assert tail[at..][FRAME_HEADER..FRAME_HEADER + |inner|] == tail[at + FRAME_HEADER..at + FRAME_HEADER + |inner|];
  }

  lemma ZeroBehind(tail: seq<Byte>, at: nat)
    requires at <= |tail|
    ensures AllZero(tail) ==> AllZero(tail[at..])
  {
  }

  lemma WordBehind(tail: seq<Byte>, at: nat, k: nat)
    requires at + k + 4 <= |tail|
    ensures U32At(tail[at..], k) == U32At(tail, at + k)
  {
  }

  // ---- the loop ----

  method ScanRecords<T>(checksum: Checksum, decode: Decoder<T>, data: seq<Byte>, header: nat)
    returns (r: Result<Scanned<T>, ScanError>)
    requires header <= |data|
    ensures r == Scan(checksum, decode, [], data[header..])
  {
    var cursor := header;
    var records: seq<T> := [];
    hide Droppable, AllZero, U32At, Scan;
    NoLonger(Scan(checksum, decode, [], data[header..]));
    while cursor < |data|
      invariant header <= cursor <= |data|
      invariant Scan(checksum, decode, [], data[header..]) ==
                  Longer(cursor - header, Scan(checksum, decode, records, data[cursor..]))
      decreases |data| - cursor
    {
      var tail := data[cursor..];
      ScanOnce(checksum, decode, records, tail);
      if AllZero(tail) || |tail| < FRAME_HEADER {
        return Ok(Scanned(records, cursor - header));
      }
      var len := U32At(tail, 0);
      if FRAME_HEADER + len > |tail| {
        return if Droppable(checksum, tail) then Ok(Scanned(records, cursor - header)) else Err(Refused);
      }
      var body := tail[FRAME_HEADER..FRAME_HEADER + len];
      if checksum(body) != U32At(tail, 4) {
        return Err(BadChecksum);
      }
      var record := decode(records, body);
      if record.None? {
        return Err(BadBody);
      }
      assert tail[FRAME_HEADER + len..] == data[cursor + FRAME_HEADER + len..];
      records := records + [record.value];
      LongerTwice(cursor - header, FRAME_HEADER + len,
                  Scan(checksum, decode, records, data[cursor + FRAME_HEADER + len..]));
      cursor := cursor + FRAME_HEADER + len;
    }
    ScanOnce(checksum, decode, records, data[cursor..]);
    return Ok(Scanned(records, cursor - header));
  }

  /** One step of reading. */
  lemma ScanOnce<T>(checksum: Checksum, decode: Decoder<T>, done: seq<T>, tail: seq<Byte>)
    ensures |tail| < FRAME_HEADER || AllZero(tail) ==> Scan(checksum, decode, done, tail) == Ok(Scanned(done, 0))
    ensures !(|tail| < FRAME_HEADER || AllZero(tail)) && FRAME_HEADER + U32At(tail, 0) > |tail| ==>
              Scan(checksum, decode, done, tail) ==
                  if Droppable(checksum, tail) then Ok(Scanned(done, 0)) else Err(Refused)
    ensures !(|tail| < FRAME_HEADER || AllZero(tail)) && FRAME_HEADER + U32At(tail, 0) <= |tail| ==>
              var size := FRAME_HEADER + U32At(tail, 0);
              var body := tail[FRAME_HEADER..size];
              Scan(checksum, decode, done, tail) ==
                if checksum(body) != U32At(tail, 4) then Err(BadChecksum)
                else if decode(done, body) == None then Err(BadBody)
                else Longer(size, Scan(checksum, decode, done + [decode(done, body).value], tail[size..]))
  {
    hide Droppable, AllZero, U32At, Longer;
  }

  /** Cutting the file back to what was read changes nothing about what is read. */
  lemma {:induction false} RepairKeeps<T>(checksum: Checksum, decode: Decoder<T>, done: seq<T>, tail: seq<Byte>)
    requires (forall before :: decode(before, []) == None) && Scan(checksum, decode, done, tail).Ok?
    ensures Scan(checksum, decode, done, tail).value.length <= |tail|
    ensures Scan(checksum, decode, done, tail[..Scan(checksum, decode, done, tail).value.length]) ==
              Scan(checksum, decode, done, tail)
    decreases |tail|
  {
    if !(|tail| < FRAME_HEADER || AllZero(tail)) && FRAME_HEADER + U32At(tail, 0) <= |tail| {
      var size := FRAME_HEADER + U32At(tail, 0);
      var rest := tail[size..];
      var record := WholeFirst(checksum, decode, done, tail);
      hide Scan, U32At, AllZero;
      RepairKeeps(checksum, decode, done + [record], rest);
      var kept := Scan(checksum, decode, done + [record], rest).value.length;
      var cut := tail[..size + kept];
      CutFirst(tail, size, kept);
      ScanWhole(checksum, decode, done, cut, record);
    }
  }

  /** What reading a tail that starts with a complete frame says about the frame. */
  lemma WholeFirst<T>(checksum: Checksum, decode: Decoder<T>, done: seq<T>, tail: seq<Byte>) returns (record: T)
    requires decode(done, []) == None && Scan(checksum, decode, done, tail).Ok?
    requires |tail| >= FRAME_HEADER && !AllZero(tail) && FRAME_HEADER + U32At(tail, 0) <= |tail|
    ensures var size := FRAME_HEADER + U32At(tail, 0);
            && U32At(tail, 0) > 0 && checksum(tail[FRAME_HEADER..size]) == U32At(tail, 4)
            && decode(done, tail[FRAME_HEADER..size]) == Some(record)
            && Scan(checksum, decode, done, tail) == Longer(size, Scan(checksum, decode, done + [record], tail[size..]))
  {
    hide U32At, AllZero, Droppable;
    var size := FRAME_HEADER + U32At(tail, 0);
    var body := tail[FRAME_HEADER..size];
    assert body != [];
    record := decode(done, body).value;
  }

  lemma ScanWhole<T>(checksum: Checksum, decode: Decoder<T>, done: seq<T>, tail: seq<Byte>, record: T)
    requires |tail| >= FRAME_HEADER && U32At(tail, 0) > 0 && FRAME_HEADER + U32At(tail, 0) <= |tail|
    requires checksum(tail[FRAME_HEADER..FRAME_HEADER + U32At(tail, 0)]) == U32At(tail, 4)
    requires decode(done, tail[FRAME_HEADER..FRAME_HEADER + U32At(tail, 0)]) == Some(record)
    ensures var size := FRAME_HEADER + U32At(tail, 0);
            Scan(checksum, decode, done, tail) == Longer(size, Scan(checksum, decode, done + [record], tail[size..]))
  {
    ZeroWord(tail);
    hide U32At, AllZero, Droppable;
  }

  lemma CutFirst(tail: seq<Byte>, size: nat, kept: nat)
    requires FRAME_HEADER <= size && size + kept <= |tail|
    ensures var cut := tail[..size + kept];
            && U32At(cut, 0) == U32At(tail, 0) && U32At(cut, 4) == U32At(tail, 4)
            && cut[FRAME_HEADER..size] == tail[FRAME_HEADER..size] && cut[size..] == tail[size..][..kept]
  {
    SameWord(tail, tail[..size + kept], 0);
    SameWord(tail, tail[..size + kept], 4);
    hide U32At;
  }

  lemma SameWord(a: seq<Byte>, b: seq<Byte>, at: nat)
    requires at + 4 <= |b| <= |a| && b == a[..|b|]
    ensures U32At(b, at) == U32At(a, at)
  {
  }
}
