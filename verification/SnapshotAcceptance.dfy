/**
 Which byte streams a restore accepts at all, written by a node or not: never one whose reader reports an error, and
 otherwise exactly those made of a header, whole records that decompress, and one of the endings that are let through.
 */
module SnapshotAcceptance {
  import opened Bytes
  import opened Crc32
  import opened Snapshot
  import opened SnapshotTheorems

  // ---- a reader that reports an error ----

  lemma BrokenRead(data: bytes, n: nat)
    ensures
      var r := ReadFull(Source(data, Broken), n);
      r == IoError || (n <= |data| && r == Full(data[..n], Source(data[n..], Broken)))
  {
  }

  lemma {:induction false} BrokenBody(rt: Runtime, data: bytes, sum: bv32, done: seq<Record>)
    ensures !DecodeBody(rt, Source(data, Broken), sum, done).Ok?
    decreases |data|
  {
    hide ReadFull, Update, Value, FromBytes;
    BrokenRead(data, 8);
    var r := ReadFull(Source(data, Broken), 8);
    if r.Full? {
      var k := Value(r.data);
      BrokenRead(r.rest.data, k);
      var r1 := ReadFull(r.rest, k);
      if r1.Full? {
        BrokenRead(r1.rest.data, 8);
        var r2 := ReadFull(r1.rest, 8);
        if r2.Full? {
          BrokenRead(r2.rest.data, Value(r2.data));
          var r3 := ReadFull(r2.rest, Value(r2.data));
          if r3.Full? && rt.decode(r3.data).Some? {
            BrokenBody(rt, r3.rest.data, Update(sum, r.data + r1.data + r2.data + r3.data),
                       done + [Record(r1.data, rt.decode(r3.data).value)]);
          }
        }
      }
    }
  }

  /** An error of the reader, after any number of any bytes, is never taken for the end of a snapshot. */
  lemma BrokenNeverAccepted(rt: Runtime, data: bytes)
    ensures !DecodeSnapshot(rt, Source(data, Broken)).Ok?
  {
    hide DecodeBody, Value;
    var h := DecodeHeader(Source(data, Broken));
    if h.Ok? {
      BrokenBody(rt, h.value.1.data, 0, []);
    }
  }

  // ---- the records ----

  /**
   What may follow the last whole record: nothing, the trailer, or a record that stops right after its key length,
   its key or its value length.
   */
  predicate Ends(rt: Runtime, tail: bytes, sum: bv32) {
    || tail == []
    || (|tail| == 4 && FromBytes(tail) == sum)
    || (&& |tail| >= 8 && Value(tail[..8]) <= 0x4000_0000
        && (|| |tail| == 8
            || |tail| == 8 + Value(tail[..8])
            || (|tail| == 16 + Value(tail[..8]) && 0 < Value(tail[8 + Value(tail[..8])..]) <= rt.maxSlice)))
  }

  /** `data` is the bytes of `frames`, which all decompress, and an ending. */
  ghost predicate Framed(rt: Runtime, data: bytes, sum: bv32, frames: seq<Frame>, tail: bytes) {
    && data == BodyBytes(frames) + tail && Ends(rt, tail, Update(sum, BodyBytes(frames)))
    && forall i :: 0 <= i < |frames| ==> Decodable(rt, frames[i])
  }

  lemma EndsAccepted(rt: Runtime, tail: bytes, sum: bv32, done: seq<Record>)
    requires Ends(rt, tail, sum)
    ensures DecodeBody(rt, Source(tail, Eof), sum, done) == Ok(done)
  {
    hide Update, FromBytes, ReadFull, Value;
    var src := Source(tail, Eof);
    if |tail| < 8 {
      ReadFullShort(tail, 8);
    } else {
      var k := Value(tail[..8]);
      var atKey := tail[8..];
      assert tail == tail[..8] + atKey;
      ReadFullPrefix(tail[..8], atKey, Eof);
      if |tail| == 8 {
        ReadEnd(k);
        ReadEnd(8);
      } else if |tail| == 8 + k {
        assert atKey == atKey + [];
        ReadFullPrefix(atKey, [], Eof);
        ReadEnd(8);
      } else {
        var key, vsz := atKey[..k], atKey[k..];
        assert atKey == key + vsz && vsz == vsz + [] && vsz == tail[8 + k..];
        ReadFullPrefix(key, vsz, Eof);
        ReadFullPrefix(vsz, [], Eof);
        ReadEnd(Value(vsz));
      }
    }
  }

  /** At the end of the file an empty buffer is filled, any other is not. */
  lemma ReadEnd(n: nat)
    ensures ReadFull(Source([], Eof), n) == if n == 0 then Full([], Source([], Eof)) else AtEof
  {
  }

  /** What the four reads of a record took is that record's frame. */
  lemma ReadBack(ksz: bytes, key: bytes, vsz: bytes, zval: bytes)
    requires |ksz| == |vsz| == 8 && Value(ksz) == |key| && Value(vsz) == |zval|
    ensures FrameBytes(Frame(key, zval)) == ksz + key + vsz + zval
  {
    LittleEndianOfValue(ksz);
    LittleEndianOfValue(vsz);
  }

  /** The lengths at the start of `data` and what they announce are all there. */
  predicate HasFrame(data: bytes) {
    && |data| >= 16 && |data| >= 16 + Value(data[..8])
    && |data| >= 16 + Value(data[..8]) + Value(data[8 + Value(data[..8])..16 + Value(data[..8])])
  }

  lemma FirstFrame(data: bytes) returns (f: Frame, rest: bytes)
    requires HasFrame(data)
    ensures data == FrameBytes(f) + rest && |rest| < |data| && |f.key| < TWO_TO_64 && |f.zval| < TWO_TO_64
    ensures |f.key| == Value(data[..8]) && |f.zval| == Value(data[8 + |f.key|..16 + |f.key|])
  {
    hide Value, FrameBytes;
    var k := Value(data[..8]);
    var ksz, key, vsz := data[..8], data[8..8 + k], data[8 + k..16 + k];
    var zval := data[16 + k..16 + k + Value(vsz)];
    f, rest := Frame(key, zval), data[16 + k + |zval|..];
    Pow256Of8();
    ReadBack(ksz, key, vsz, zval);
    assert data == ksz + key + vsz + zval + rest;
  }

  /** The outcome at the end of the stream, when no whole record is left. */
  function AtEnd(rt: Runtime, data: bytes, e: Ending, sum: bv32, done: seq<Record>): Outcome<seq<Record>>
    requires !HasFrame(data)
  {
    if |data| < 8 then
      if e == Broken then Err(ReadFailed)
      else if data == [] then Ok(done)
      else if |data| != 4 then Err(PartialLength)
      else if FromBytes(data) != sum then Err(ChecksumMismatch)
      else Ok(done)
    else
      var k := Value(data[..8]);
      if k > 0x4000_0000 then Err(KeyTooLong)
      else if |data| >= 16 + k && Value(data[8 + k..16 + k]) > rt.maxSlice then Panic
      else if e == Broken then Err(ReadFailed)
      else if |data| in {8, 8 + k, 16 + k} then Ok(done)
      else Err(Truncated)
  }

  /** The outcome once every record in front that decompresses is consumed. */
  function Decides(rt: Runtime, tail: bytes, e: Ending, sum: bv32, done: seq<Record>): Outcome<seq<Record>> {
    if !HasFrame(tail) then AtEnd(rt, tail, e, sum, done)
    else
      var k := Value(tail[..8]);
      if k > 0x4000_0000 then Err(KeyTooLong)
      else if Value(tail[8 + k..16 + k]) > rt.maxSlice then Panic
      else Err(BadGzip)
  }

  lemma ReadShort(data: bytes, e: Ending, n: nat)
    requires |data| < n
    ensures ReadFull(Source(data, e), n) == if e == Broken then IoError else if data == [] then AtEof else Partial(data)
  {
  }

  lemma EndVerdict(rt: Runtime, data: bytes, e: Ending, sum: bv32, done: seq<Record>)
    requires !HasFrame(data)
    ensures DecodeBody(rt, Source(data, e), sum, done) == AtEnd(rt, data, e, sum, done)
  {
    hide Update, FromBytes, ReadFull, Value;
    if |data| < 8 {
      ReadShort(data, e, 8);
    } else {
      var k := Value(data[..8]);
      var atKey := data[8..];
      assert data == data[..8] + atKey;
      ReadFullPrefix(data[..8], atKey, e);
      if |atKey| < k {
        ReadShort(atKey, e, k);
      } else {
        var atLen := atKey[k..];
        assert atKey == atKey[..k] + atLen && atLen == data[8 + k..];
        ReadFullPrefix(atKey[..k], atLen, e);
        if |atLen| < 8 {
          ReadShort(atLen, e, 8);
        } else {
          var vsz, atVal := atLen[..8], atLen[8..];
          assert atLen == vsz + atVal && vsz == data[8 + k..16 + k];
          ReadFullPrefix(vsz, atVal, e);
          ReadShort(atVal, e, Value(vsz));
        }
      }
    }
  }

  /** The next whole record is consumed if it decompresses and decides the outcome otherwise. */
  lemma FrameVerdict(rt: Runtime, data: bytes, e: Ending, sum: bv32, done: seq<Record>)
    returns (f: Frame, rest: bytes)
    requires rt.maxSlice < TWO_TO_63 && HasFrame(data)
    ensures data == FrameBytes(f) + rest && |rest| < |data|
    ensures !Decodable(rt, f) ==> DecodeBody(rt, Source(data, e), sum, done) == Decides(rt, data, e, sum, done)
    ensures Decodable(rt, f) ==>
      var r := Record(f.key, rt.decode(f.zval).value);
      DecodeBody(rt, Source(data, e), sum, done)
      == DecodeBody(rt, Source(rest, e), Update(sum, FrameBytes(f)), done + [r])
  {
    hide DecodeBody, Update, Value, FrameBytes, AtEnd;
    f, rest := FirstFrame(data);
    DecodeFrame(rt, f, rest, e, sum, done);
  }

  lemma {:induction false} Parses(rt: Runtime, data: bytes, e: Ending, sum: bv32, done: seq<Record>)
    returns (frames: seq<Frame>, tail: bytes)
    requires rt.maxSlice < TWO_TO_63
    ensures data == BodyBytes(frames) + tail && forall i :: 0 <= i < |frames| ==> Decodable(rt, frames[i])
    ensures DecodeBody(rt, Source(data, e), sum, done)
         == Decides(rt, tail, e, Update(sum, BodyBytes(frames)), done + Decompress(rt, frames))
    decreases |data|
  {
    hide DecodeBody, Update, AtEnd, Decides, FrameBytes, HasFrame, Decodable;
    frames, tail := [], data;
    UpdateNothing(sum);
    assert done + Decompress(rt, []) == done;
    if !HasFrame(data) {
      EndVerdict(rt, data, e, sum, done);
      AtEndDecides(rt, data, e, sum, done);
    } else {
      var f, rest := FrameVerdict(rt, data, e, sum, done);
      if Decodable(rt, f) {
        frames, tail := ParsesOn(rt, data, e, sum, done, f, rest);
      }
    }
  }

  lemma AtEndDecides(rt: Runtime, data: bytes, e: Ending, sum: bv32, done: seq<Record>)
    requires !HasFrame(data)
    ensures Decides(rt, data, e, sum, done) == AtEnd(rt, data, e, sum, done)
  {
  }

  lemma {:induction false} ParsesOn(rt: Runtime, data: bytes, e: Ending, sum: bv32, done: seq<Record>, f: Frame,
                                    rest: bytes)
    returns (frames: seq<Frame>, tail: bytes)
    requires rt.maxSlice < TWO_TO_63 && Decodable(rt, f) && data == FrameBytes(f) + rest && |rest| < |data|
    requires DecodeBody(rt, Source(data, e), sum, done)
      == DecodeBody(rt, Source(rest, e), Update(sum, FrameBytes(f)), done + [Record(f.key, rt.decode(f.zval).value)])
    ensures data == BodyBytes(frames) + tail && forall i :: 0 <= i < |frames| ==> Decodable(rt, frames[i])
    ensures DecodeBody(rt, Source(data, e), sum, done)
         == Decides(rt, tail, e, Update(sum, BodyBytes(frames)), done + Decompress(rt, frames))
    decreases |data|, 0
  {
    hide DecodeBody, Update, AtEnd, Decides, FrameBytes, HasFrame;
    var r := Record(f.key, rt.decode(f.zval).value);
    var more;
    more, tail := Parses(rt, rest, e, Update(sum, FrameBytes(f)), done + [r]);
    frames := [f] + more;
    assert frames[1..] == more;
    assert BodyBytes(frames) + tail == FrameBytes(f) + (BodyBytes(more) + tail);
    UpdateConcat(sum, FrameBytes(f), BodyBytes(more));
    assert done + [r] + Decompress(rt, more) == done + Decompress(rt, frames);
  }

  /**
   The outcome of the record loop on any stream: some whole records that decompress come first, and what follows them
   decides, to the byte, between success, each of the errors and the panic.
   */
  lemma BodyDecided(rt: Runtime, src: Source) returns (frames: seq<Frame>, tail: bytes)
    requires rt.maxSlice < TWO_TO_63
    ensures src.data == BodyBytes(frames) + tail && forall i :: 0 <= i < |frames| ==> Decodable(rt, frames[i])
    ensures DecodeBody(rt, src, 0, [])
         == Decides(rt, tail, src.ending, Checksum(BodyBytes(frames)), Decompress(rt, frames))
  {
    hide DecodeBody, Update, Decides, BodyBytes, Decodable;
    frames, tail := Parses(rt, src.data, src.ending, 0, []);
    assert [] + Decompress(rt, frames) == Decompress(rt, frames);
  }

  lemma OkAtEnds(rt: Runtime, tail: bytes, sum: bv32, done: seq<Record>)
    requires Decides(rt, tail, Eof, sum, done).Ok?
    ensures Ends(rt, tail, sum) && Decides(rt, tail, Eof, sum, done) == Ok(done)
  {
    hide Value, FromBytes;
    if |tail| >= 8 {
      var k := Value(tail[..8]);
      if |tail| == 16 + k {
        assert tail[8 + k..] == tail[8 + k..16 + k];
      }
    }
  }

  /** The bytes after the header are those of `records`. */
  ghost predicate Holds(rt: Runtime, data: bytes, records: seq<Record>) {
    exists frames, tail :: Framed(rt, data, 0, frames, tail) && records == Decompress(rt, frames)
  }

  lemma FramedAccepted(rt: Runtime, data: bytes, frames: seq<Frame>, tail: bytes)
    requires Framed(rt, data, 0, frames, tail)
    ensures DecodeBody(rt, Source(data, Eof), 0, []) == Ok(Decompress(rt, frames))
  {
    hide DecodeBody, Update, Ends, BodyBytes, Decompress, Decodable;
    DecodeFrames(rt, frames, tail, Eof, 0, []);
    assert [] + Decompress(rt, frames) == Decompress(rt, frames);
    EndsAccepted(rt, tail, Update(0, BodyBytes(frames)), Decompress(rt, frames));
  }

  /** The record loop accepts exactly the framed streams, and yields exactly their records. */
  lemma BodyAcceptedExactly(rt: Runtime, data: bytes, records: seq<Record>)
    requires rt.maxSlice < TWO_TO_63
    ensures DecodeBody(rt, Source(data, Eof), 0, []) == Ok(records) <==> Holds(rt, data, records)
  {
    hide DecodeBody, Update, Ends, BodyBytes, Decompress, Decodable, Decides;
    if DecodeBody(rt, Source(data, Eof), 0, []) == Ok(records) {
      var frames, tail := BodyDecided(rt, Source(data, Eof));
      OkAtEnds(rt, tail, Checksum(BodyBytes(frames)), Decompress(rt, frames));
      assert Framed(rt, data, 0, frames, tail);
    } else if Holds(rt, data, records) {
      var frames, tail :| Framed(rt, data, 0, frames, tail) && records == Decompress(rt, frames);
      FramedAccepted(rt, data, frames, tail);
    }
  }

  // ---- the header ----

  /**
   The header at the start of `data`, field by field: magic, version, last index, timestamp, length of the node id,
   node id, checksum field.
   */
  ghost predicate HeaderAt(data: bytes, h: Header, n: nat) {
    && 30 + n <= |data| && n == Value(data[24..26])
    && data[..4] == [0x54, 0x46, 0x41, 0x52]
    && h.version == Value(data[4..8]) && h.version <= 1
    && h.lastIndex == Value(data[8..16])
    && -(TWO_TO_63 as int) <= h.timestamp < TWO_TO_63 && (Value(data[16..24]) - h.timestamp) % TWO_TO_64 == 0
    && h.nodeId == data[26..26 + n]
    && h.checksum == Value(data[26 + n..30 + n])
  }

  lemma Digit(n: nat, low: nat, b: byte)
    requires n % 256 == low && FromByte(b) == low
    ensures ToByte(n) == b
  {
    hide ToByte, FromByte;
    ToByteOf(n, low);
    NumberRoundTrip(b);
  }

  lemma MagicBytes()
    ensures U32(MAGIC) == [0x54, 0x46, 0x41, 0x52]
  {
    hide ToByte;
    Digit(0x52414654, 0x54, 0x54);
    Digit(0x524146, 0x46, 0x46);
    Digit(0x5241, 0x41, 0x41);
    Digit(0x52, 0x52, 0x52);
    assert LittleEndian(0x52414654, 4) == [ToByte(0x52414654)] + LittleEndian(0x524146, 3);
    assert LittleEndian(0x524146, 3) == [ToByte(0x524146)] + LittleEndian(0x5241, 2);
    assert LittleEndian(0x5241, 2) == [ToByte(0x5241)] + LittleEndian(0x52, 1);
    assert LittleEndian(0x52, 1) == [ToByte(0x52)] + LittleEndian(0, 0);
  }

  lemma IsMagic(b: bytes)
    requires |b| == 4
    ensures Value(b) == MAGIC <==> b == [0x54, 0x46, 0x41, 0x52]
  {
    hide LittleEndian, Value;
    MagicBytes();
    LittleEndianOfValue(b);
    ValueOfU32(MAGIC);
  }

  lemma Signed(n: nat, i: int)
    requires n < TWO_TO_64
    ensures ToInt64(n) == i <==> -(TWO_TO_63 as int) <= i < TWO_TO_63 && (n - i) % TWO_TO_64 == 0
  {
  }

  /** A header is accepted exactly if its fields are there, with the magic and a known version. */
  lemma HeaderAcceptedExactly(data: bytes, e: Ending, h: Header, rest: Source)
    ensures DecodeHeader(Source(data, e)) == Ok((h, rest))
            <==> exists n: nat :: HeaderAt(data, h, n) && rest == Source(data[30 + n..], e)
  {
    hide Value;
    if |data| >= FIXED_HEADER {
      IsMagic(data[..4]);
      Pow256Of8();
      Signed(Value(data[16..24]), h.timestamp);
      var n := Value(data[24..26]);
      var fixed := data[..26];
      assert fixed[..4] == data[..4] && fixed[4..8] == data[4..8] && fixed[8..16] == data[8..16];
      assert fixed[16..24] == data[16..24] && fixed[24..26] == data[24..26];
      if |data| >= 30 + n {
        assert data[26..][..n] == data[26..26 + n] && data[26..][n..] == data[26 + n..];
        assert data[26 + n..][..4] == data[26 + n..30 + n] && data[26 + n..][4..] == data[30 + n..];
        assert DecodeHeader(Source(data, e)) == Ok((h, rest)) <==>
          HeaderAt(data, h, n) && rest == Source(data[30 + n..], e);
      }
    }
  }

  /**
   What a restore accepts: the reader ends without error, the header is there, and the rest is framed; it yields that
   header and the records of those frames.
   */
  lemma AcceptedExactly(rt: Runtime, src: Source, h: Header, records: seq<Record>)
    requires rt.maxSlice < TWO_TO_63
    ensures
      DecodeSnapshot(rt, src) == Ok((h, records)) <==>
      (src.ending == Eof && exists n: nat :: HeaderAt(src.data, h, n) && Holds(rt, src.data[30 + n..], records))
  {
    hide DecodeBody, DecodeHeader, Holds;
    var out := DecodeHeader(src);
    if src.ending == Broken {
      BrokenNeverAccepted(rt, src.data);
    } else {
      if DecodeSnapshot(rt, src) == Ok((h, records)) {
        var rest := out.value.1;
        HeaderAcceptedExactly(src.data, Eof, h, rest);
        BodyAcceptedExactly(rt, rest.data, records);
      }
      if n: nat :| HeaderAt(src.data, h, n) && Holds(rt, src.data[30 + n..], records) {
        HeaderAcceptedExactly(src.data, Eof, h, Source(src.data[30 + n..], Eof));
        BodyAcceptedExactly(rt, src.data[30 + n..], records);
      }
    }
  }
}
