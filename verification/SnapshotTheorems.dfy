/** What the snapshot format promises: round trip, truncation and corruption, for every snapshot. */
module SnapshotTheorems {
  import opened Bytes
  import opened Crc32
  import opened Snapshot

  // ---- reading what was written, piece by piece ----

  lemma ReadFullPrefix(a: bytes, b: bytes, e: Ending)
    ensures ReadFull(Source(a + b, e), |a|) == Full(a, Source(b, e))
  {
    assert (a + b)[..|a|] == a && (a + b)[|a|..] == b;
  }

  predicate FrameFits(rt: Runtime, f: Frame) {
    |f.key| <= MAX_KEY && |f.zval| <= rt.maxSlice
  }

  /** Go slices never have more than 2^63 - 1 elements. */
  predicate GoFrame(f: Frame) {
    |f.key| < TWO_TO_63 && |f.zval| < TWO_TO_63
  }

  lemma FrameSplit(f: Frame, tail: bytes)
    ensures FrameBytes(f) + tail == U64(|f.key|) + (f.key + (U64(|f.zval|) + (f.zval + tail)))
    ensures |FrameBytes(f)| == 16 + |f.key| + |f.zval|
  {
    hide U64;
  }

  /** One record: accepted, rejected as not gzip, too long, or fatal, depending on the frame alone. */
  lemma DecodeFrame(rt: Runtime, f: Frame, tail: bytes, e: Ending, sum: bv32, done: seq<Record>)
    requires |f.key| < TWO_TO_64 && |f.zval| < TWO_TO_64
    ensures DecodeBody(rt, Source(FrameBytes(f) + tail, e), sum, done) ==
            if |f.key| > MAX_KEY then Err(KeyTooLong)
            else if |f.zval| > rt.maxSlice then Panic
            else match rt.decode(f.zval)
              case None => Err(BadGzip)
              case Some(val) =>
                DecodeBody(rt, Source(tail, e), Update(sum, FrameBytes(f)), done + [Record(f.key, val)])
  {
    hide U64, Value, Update, ReadFull;
    FrameSplit(f, tail);
    var atVal := f.zval + tail;
    var atLen := U64(|f.zval|) + atVal;
    var atKey := f.key + atLen;
    ReadFullPrefix(U64(|f.key|), atKey, e);
    ReadFullPrefix(f.key, atLen, e);
    ReadFullPrefix(U64(|f.zval|), atVal, e);
    ReadFullPrefix(f.zval, tail, e);
    ValueOfU64(|f.key|);
    ValueOfU64(|f.zval|);
  }

  lemma {:induction false} BodyBytesConcat(a: seq<Frame>, b: seq<Frame>)
    ensures BodyBytes(a + b) == BodyBytes(a) + BodyBytes(b)
  {
    hide FrameBytes;
    if a == [] {
      assert a + b == b;
    } else {
      assert (a + b)[0] == a[0] && (a + b)[1..] == a[1..] + b;
      BodyBytesConcat(a[1..], b);
    }
  }

  lemma BodyBytesOne(f: Frame)
    ensures BodyBytes([f]) == FrameBytes(f)
  {
    hide FrameBytes;
    assert [f][1..] == [];
    assert BodyBytes([]) == [];
  }

  lemma SplitAt(frames: seq<Frame>, j: nat)
    requires j < |frames|
    ensures frames[..j + 1] == frames[..j] + [frames[j]] && frames == frames[..j] + [frames[j]] + frames[j + 1..]
  {
  }

  lemma BodyBytesAt(frames: seq<Frame>, j: nat)
    requires j < |frames|
    ensures BodyBytes(frames) == BodyBytes(frames[..j]) + FrameBytes(frames[j]) + BodyBytes(frames[j + 1..])
    ensures BodyBytes(frames[..j + 1]) == BodyBytes(frames[..j]) + FrameBytes(frames[j])
  {
    hide FrameBytes, BodyBytes;
    var front, one, back := frames[..j], [frames[j]], frames[j + 1..];
    SplitAt(frames, j);
    BodyBytesOne(frames[j]);
    BodyBytesConcat(front, one);
    BodyBytesConcat(front + one, back);
  }

  predicate Decodable(rt: Runtime, f: Frame) {
    GoFrame(f) && FrameFits(rt, f) && rt.decode(f.zval).Some?
  }

  function Decompress(rt: Runtime, frames: seq<Frame>): (records: seq<Record>)
    requires forall i :: 0 <= i < |frames| ==> Decodable(rt, frames[i])
    ensures |records| == |frames|
  {
    seq(|frames|, i requires 0 <= i < |frames|
      && Decodable(rt, frames[i]) => Record(frames[i].key, rt.decode(frames[i].zval).value))
  }

  /** Well-formed frames in front of anything are consumed: checksum and records advance by exactly them. */
  lemma {:induction false} DecodeFrames(rt: Runtime, frames: seq<Frame>, tail: bytes, e: Ending, sum: bv32,
                                        done: seq<Record>)
    requires forall i :: 0 <= i < |frames| ==> Decodable(rt, frames[i])
    ensures DecodeBody(rt, Source(BodyBytes(frames) + tail, e), sum, done) ==
            DecodeBody(rt, Source(tail, e), Update(sum, BodyBytes(frames)), done + Decompress(rt, frames))
    decreases |frames|
  {
    hide Update, DecodeBody, FrameBytes;
    if frames == [] {
      assert BodyBytes(frames) + tail == tail;
      UpdateNothing(sum);
      assert done + Decompress(rt, frames) == done;
    } else {
      var f, fs := frames[0], frames[1..];
      var r := Record(f.key, rt.decode(f.zval).value);
      assert BodyBytes(frames) + tail == FrameBytes(f) + (BodyBytes(fs) + tail);
      DecodeFrame(rt, f, BodyBytes(fs) + tail, e, sum, done);
      DecodeFrames(rt, fs, tail, e, Update(sum, FrameBytes(f)), done + [r]);
      UpdateConcat(sum, FrameBytes(f), BodyBytes(fs));
      assert done + [r] + Decompress(rt, fs) == done + Decompress(rt, frames);
    }
  }

  /**
   Frames of any content followed by a 4-byte trailer: accepted exactly when all decompress and the trailer matches.
   */
  lemma DecodeFramed(rt: Runtime, frames: seq<Frame>, trailer: bytes, sum: bv32, done: seq<Record>)
    requires |trailer| == 4
    requires forall i :: 0 <= i < |frames| ==> GoFrame(frames[i]) && FrameFits(rt, frames[i])
    ensures
      var out := DecodeBody(rt, Source(BodyBytes(frames) + trailer, Eof), sum, done);
      if forall i :: 0 <= i < |frames| ==> Decodable(rt, frames[i]) then
        out == if FromBytes(trailer) == Update(sum, BodyBytes(frames)) then Ok(done + Decompress(rt, frames))
               else Err(ChecksumMismatch)
      else out == Err(BadGzip)
  {
    if forall i :: 0 <= i < |frames| ==> Decodable(rt, frames[i]) {
      hide Update, FrameBytes, FromBytes;
      DecodeFrames(rt, frames, trailer, Eof, sum, done);
    } else {
      hide Update, FrameBytes, DecodeBody, FromBytes;
      var j := FirstUndecodable(rt, frames);
      DecodeBad(rt, frames, j, trailer, Eof, sum, done);
    }
  }

  lemma {:induction false} FirstUndecodable(rt: Runtime, frames: seq<Frame>) returns (j: nat)
    requires exists i :: 0 <= i < |frames| && !Decodable(rt, frames[i])
    ensures j < |frames| && !Decodable(rt, frames[j])
    ensures forall i :: 0 <= i < j ==> Decodable(rt, frames[i])
  {
    j := 0;
    while Decodable(rt, frames[j])
      invariant j < |frames|
      invariant forall i :: 0 <= i < j ==> Decodable(rt, frames[i])
      decreases |frames| - j
    {
      if j + 1 == |frames| {
        assert false;
      }
      j := j + 1;
    }
  }

  /** The first frame that cannot be decoded decides the outcome, whatever follows it. */
  lemma DecodeBad(rt: Runtime, frames: seq<Frame>, j: nat, tail: bytes, e: Ending, sum: bv32, done: seq<Record>)
    requires j < |frames| && GoFrame(frames[j]) && !Decodable(rt, frames[j])
    requires forall i :: 0 <= i < j ==> Decodable(rt, frames[i])
    ensures DecodeBody(rt, Source(BodyBytes(frames) + tail, e), sum, done) ==
            if |frames[j].key| > MAX_KEY then Err(KeyTooLong)
            else if |frames[j].zval| > rt.maxSlice then Panic
            else Err(BadGzip)
  {
    hide Update, FrameBytes, DecodeBody, BodyBytes;
    var front, rest := frames[..j], BodyBytes(frames[j + 1..]) + tail;
    BodyBytesAt(frames, j);
    assert BodyBytes(frames) + tail == BodyBytes(front) + (FrameBytes(frames[j]) + rest);
    DecodeFrames(rt, front, FrameBytes(frames[j]) + rest, e, sum, done);
    DecodeFrame(rt, frames[j], rest, e, Update(sum, BodyBytes(front)), done + Decompress(rt, front));
  }

  // ---- the header ----

  function FixedBytes(idLen: nat, lastIndex: nat, timestamp: int): (b: bytes)
    requires HeaderFields(lastIndex, timestamp)
    ensures |b| == FIXED_HEADER
  {
    U32(MAGIC) + U32(VERSION) + U64(lastIndex) + U64(ToUint64(timestamp)) + U16(idLen)
  }

  lemma FixedFields(idLen: nat, lastIndex: nat, timestamp: int)
    requires HeaderFields(lastIndex, timestamp)
    ensures
      var f := FixedBytes(idLen, lastIndex, timestamp);
      && Value(f[..4]) == MAGIC && Value(f[4..8]) == VERSION && Value(f[8..16]) == lastIndex
      && Value(f[16..24]) == ToUint64(timestamp) && Value(f[24..26]) == idLen % TWO_TO_16
  {
    hide U32, U64, U16, Value;
    var f := FixedBytes(idLen, lastIndex, timestamp);
    assert f[..4] == U32(MAGIC) && f[4..8] == U32(VERSION);
    assert f[8..16] == U64(lastIndex) && f[16..24] == U64(ToUint64(timestamp)) && f[24..26] == U16(idLen);
    ValueOfU32(MAGIC);
    ValueOfU32(VERSION);
    ValueOfU64(lastIndex);
    ValueOfU64(ToUint64(timestamp));
    ValueOfU16(idLen);
  }

  /** What a 16-bit length leaves of a node id. */
  function CutId(nodeId: bytes): (id: bytes)
    ensures |id| == |nodeId| % TWO_TO_16
  {
    nodeId[..|nodeId| % TWO_TO_16]
  }

  /** The header is read back with the node id cut at its length modulo 2^16. */
  lemma DecodeHeaderBytes(nodeId: bytes, lastIndex: nat, timestamp: int, tail: bytes, e: Ending)
    requires HeaderFields(lastIndex, timestamp)
    ensures
      var out := DecodeHeader(Source(HeaderBytes(nodeId, lastIndex, timestamp) + tail, e));
      && out.Ok?
      && out.value.0.version == VERSION && out.value.0.lastIndex == lastIndex && out.value.0.timestamp == timestamp
      && out.value.0.nodeId == CutId(nodeId)
      && (|nodeId| < TWO_TO_16 ==> out.value.0.checksum == 0 && out.value.1 == Source(tail, e))
  {
    hide U32, Value, DecodeHeader, FixedBytes, HeaderBytes, AfterId;
    var f := FixedBytes(|nodeId|, lastIndex, timestamp);
    var afterId := AfterId(nodeId, tail);
    HeaderSplit(nodeId, lastIndex, timestamp, tail);
    FixedFields(|nodeId|, lastIndex, timestamp);
    assert afterId == afterId[..4] + afterId[4..];
    DecodeHeaderOf(f, CutId(nodeId), afterId[..4], afterId[4..], e);
    if |nodeId| < TWO_TO_16 {
      ShortId(nodeId, tail);
      ValueOfU32(0);
    }
  }

  lemma ShortId(nodeId: bytes, tail: bytes)
    requires |nodeId| < TWO_TO_16
    ensures AfterId(nodeId, tail)[..4] == U32(0) && AfterId(nodeId, tail)[4..] == tail
  {
    hide U32;
    assert nodeId[|nodeId| % TWO_TO_16..] == [];
  }

  lemma DecodeHeaderOf(f: bytes, id: bytes, sum: bytes, rest: bytes, e: Ending)
    requires |f| == FIXED_HEADER && |sum| == 4
    requires Value(f[..4]) == MAGIC && Value(f[4..8]) <= VERSION && Value(f[24..26]) == |id|
    requires Value(f[16..24]) < TWO_TO_64
    ensures DecodeHeader(Source(f + (id + (sum + rest)), e)) ==
            Ok((Header(Value(f[4..8]), Value(f[8..16]), ToInt64(Value(f[16..24])), id, Value(sum)), Source(rest, e)))
  {
    hide Value, ReadFull;
    ReadFullPrefix(f, id + (sum + rest), e);
    ReadFullPrefix(id, sum + rest, e);
    ReadFullPrefix(sum, rest, e);
  }

  function AfterId(nodeId: bytes, tail: bytes): (b: bytes)
    ensures |b| >= 4
  {
    nodeId[|nodeId| % TWO_TO_16..] + U32(0) + tail
  }

  lemma HeaderSplit(nodeId: bytes, lastIndex: nat, timestamp: int, tail: bytes)
    requires HeaderFields(lastIndex, timestamp)
    ensures HeaderBytes(nodeId, lastIndex, timestamp) + tail
         == FixedBytes(|nodeId|, lastIndex, timestamp) + (CutId(nodeId) + AfterId(nodeId, tail))
  {
    hide U32, U64, U16;
    assert HeaderBytes(nodeId, lastIndex, timestamp) == FixedBytes(|nodeId|, lastIndex, timestamp) + (nodeId + U32(0));
    assert nodeId + U32(0) + tail == CutId(nodeId) + AfterId(nodeId, tail);
  }

  // ---- round trip ----

  predicate GoRecords(rt: Runtime, records: seq<Record>) {
    forall i :: 0 <= i < |records| ==> |records[i].key| < TWO_TO_63 && |rt.encode(records[i].val)| < TWO_TO_63
  }

  /** What a snapshot must respect for a restore to take it back. */
  predicate Restorable(rt: Runtime, nodeId: bytes, records: seq<Record>) {
    && |nodeId| < TWO_TO_16
    && forall i :: 0 <= i < |records| ==>
         |records[i].key| <= MAX_KEY && |rt.encode(records[i].val)| <= rt.maxSlice
  }

  lemma CompressedDecodable(rt: Runtime, records: seq<Record>)
    requires Lossless(rt) && GoRecords(rt, records)
    ensures forall i :: 0 <= i < |records| ==>
      (Decodable(rt, Compress(rt, records)[i]) <==>
       |records[i].key| <= MAX_KEY && |rt.encode(records[i].val)| <= rt.maxSlice)
  {
  }

  lemma DecompressCompress(rt: Runtime, records: seq<Record>)
    requires Lossless(rt)
    requires forall i :: 0 <= i < |records| ==> Decodable(rt, Compress(rt, records)[i])
    ensures Decompress(rt, Compress(rt, records)) == records
  {
    forall i | 0 <= i < |records| ensures Decompress(rt, Compress(rt, records))[i] == records[i] {
      assert rt.decode(rt.encode(records[i].val)) == Some(records[i].val);
    }
  }

  /**
   Recovering the saved bytes yields the same header and the same records, exactly when the node id is
   shorter than 2^16 bytes, no key exceeds 2^30 bytes and every compressed value can be allocated.
   */
  lemma RoundTrip(rt: Runtime, nodeId: bytes, lastIndex: nat, timestamp: int, records: seq<Record>)
    requires Lossless(rt) && HeaderFields(lastIndex, timestamp) && GoRecords(rt, records)
    ensures DecodeSnapshot(rt, Source(SnapshotBytes(rt, nodeId, lastIndex, timestamp, records), Eof))
              == Ok((Header(VERSION, lastIndex, timestamp, nodeId, 0), records))
            <==> Restorable(rt, nodeId, records)
  {
    hide Update, BodyBytes, FrameBytes, HeaderBytes, DecodeBody, DecodeHeader, Value, ToBytes, FromBytes, Word;
    var frames := Compress(rt, records);
    var body := BodyBytes(frames);
    var tail := body + ToBytes(Checksum(body));
    assert SnapshotBytes(rt, nodeId, lastIndex, timestamp, records) == HeaderBytes(nodeId, lastIndex, timestamp) + tail;
    DecodeHeaderBytes(nodeId, lastIndex, timestamp, tail, Eof);
    CompressedDecodable(rt, records);
    if |nodeId| < TWO_TO_16 {
      assert CutId(nodeId) == nodeId;
      if Restorable(rt, nodeId, records) {
        DecodeFramed(rt, frames, ToBytes(Checksum(body)), 0, []);
        TrailerRoundTrip(Checksum(body));
        DecompressCompress(rt, records);
        assert [] + records == records;
      } else {
        var j := FirstUndecodable(rt, frames);
        DecodeBad(rt, frames, j, ToBytes(Checksum(body)), Eof, 0, []);
      }
    }
  }

  predicate HasKey(records: seq<Record>, k: bytes) {
    exists i :: 0 <= i < |records| && records[i].key == k
  }

  lemma HasKeyFront(records: seq<Record>, k: bytes)
    requires records != []
    ensures HasKey(records, k) <==> HasKey(records[..|records| - 1], k) || records[|records| - 1].key == k
  {
    var n := |records| - 1;
    var front := records[..n];
    if i :| 0 <= i < |records| && records[i].key == k {
      assert i == n || front[i].key == k;
    }
    if i :| 0 <= i < |front| && front[i].key == k {
      assert records[i].key == k;
    }
  }

  lemma {:induction false} PutAllKeys(db: Db, records: seq<Record>, k: bytes)
    ensures k in PutAll(db, records) <==> k in db || HasKey(records, k)
    decreases |records|
  {
    hide HasKey;
    if records == [] {
      assert !HasKey(records, k) by {
        NoKeys(k);
      }
    } else {
      HasKeyFront(records, k);
      PutAllKeys(db, records[..|records| - 1], k);
    }
  }

  lemma NoKeys(k: bytes)
    ensures !HasKey([], k)
  {
  }

  lemma {:induction false} PutAllValue(db: Db, records: seq<Record>, i: nat)
    requires i < |records| && forall j :: i < j < |records| ==> records[j].key != records[i].key
    ensures records[i].key in PutAll(db, records) && PutAll(db, records)[records[i].key] == records[i].val
    decreases |records|
  {
    var n := |records| - 1;
    if i == n {
    } else {
      assert records[..n][i] == records[i];
      PutAllValue(db, records[..n], i);
    }
  }

  /** Any iteration order of a database rebuilds exactly that database. */
  lemma IterationRebuilds(records: seq<Record>, db: Db)
    requires Iterates(records, db)
    ensures PutAll(map[], records) == db
  {
    var built := PutAll(map[], records);
    forall k ensures k in built <==> k in db {
      PutAllKeys(map[], records, k);
    }
    forall k | k in db ensures built[k] == db[k] {
      var i :| 0 <= i < |records| && records[i].key == k;
      PutAllValue(map[], records, i);
    }
  }

  // ---- truncation ----

  lemma ReadFullShort(a: bytes, n: nat)
    requires |a| < n
    ensures ReadFull(Source(a, Eof), n) == if a == [] then AtEof else Partial(a)
  {
  }

  /** The cuts inside a record that the reader lets through; `sum` is the checksum of what precedes it. */
  predicate CutAllowed(f: Frame, cut: nat, sum: bv32) {
    || cut == 0 || cut == 8 || cut == 8 + |f.key| || cut == 16 + |f.key|
    || (cut == 4 && FromBytes(U64(|f.key|)[..4]) == sum)
  }

  predicate Keeps(out: Outcome<seq<Record>>, done: seq<Record>, allowed: bool) {
    if allowed then out == Ok(done) else out.Err?
  }

  lemma CutInKeyLength(rt: Runtime, f: Frame, cut: nat, sum: bv32, done: seq<Record>)
    requires FrameFits(rt, f) && cut < 8
    ensures Keeps(DecodeBody(rt, Source(U64(|f.key|)[..cut], Eof), sum, done), done, CutAllowed(f, cut, sum))
  {
    hide U64, Value, Update, ReadFull, FromBytes;
    ReadFullShort(U64(|f.key|)[..cut], 8);
  }

  lemma CutInKey(rt: Runtime, f: Frame, cut: nat, sum: bv32, done: seq<Record>)
    requires FrameFits(rt, f) && cut < |f.key|
    ensures Keeps(DecodeBody(rt, Source(U64(|f.key|) + f.key[..cut], Eof), sum, done), done,
      CutAllowed(f, 8 + cut, sum))
  {
    hide U64, Value, Update, ReadFull, FromBytes;
    ReadFullPrefix(U64(|f.key|), f.key[..cut], Eof);
    ReadFullShort(f.key[..cut], |f.key|);
    ValueOfU64(|f.key|);
  }

  lemma CutInValueLength(rt: Runtime, f: Frame, cut: nat, sum: bv32, done: seq<Record>)
    requires FrameFits(rt, f) && cut < 8
    ensures Keeps(DecodeBody(rt, Source(U64(|f.key|) + (f.key + U64(|f.zval|)[..cut]), Eof), sum, done), done,
                  CutAllowed(f, 8 + |f.key| + cut, sum))
  {
    hide U64, Value, Update, ReadFull, FromBytes;
    var vsz := U64(|f.zval|)[..cut];
    ReadFullPrefix(U64(|f.key|), f.key + vsz, Eof);
    ReadFullPrefix(f.key, vsz, Eof);
    ReadFullShort(vsz, 8);
    ValueOfU64(|f.key|);
  }

  lemma CutInValue(rt: Runtime, f: Frame, cut: nat, sum: bv32, done: seq<Record>)
    requires FrameFits(rt, f) && rt.maxSlice < TWO_TO_63 && cut < |f.zval|
    ensures Keeps(DecodeBody(rt, Source(U64(|f.key|) + (f.key + (U64(|f.zval|) + f.zval[..cut])), Eof), sum, done),
      done,
                  CutAllowed(f, 16 + |f.key| + cut, sum))
  {
    hide U64, Value, Update, ReadFull, FromBytes;
    var val := f.zval[..cut];
    ReadFullPrefix(U64(|f.key|), f.key + (U64(|f.zval|) + val), Eof);
    ReadFullPrefix(f.key, U64(|f.zval|) + val, Eof);
    ReadFullPrefix(U64(|f.zval|), val, Eof);
    ReadFullShort(val, |f.zval|);
    ValueOfU64(|f.key|);
    ValueOfU64(|f.zval|);
  }

  lemma CutInFrame(rt: Runtime, f: Frame, cut: nat, sum: bv32, done: seq<Record>)
    requires FrameFits(rt, f) && rt.maxSlice < TWO_TO_63 && cut < |FrameBytes(f)|
    ensures Keeps(DecodeBody(rt, Source(FrameBytes(f)[..cut], Eof), sum, done), done, CutAllowed(f, cut, sum))
  {
    hide U64, DecodeBody, CutAllowed, Keeps;
    var k := |f.key|;
    if cut < 8 {
      assert FrameBytes(f)[..cut] == U64(k)[..cut];
      CutInKeyLength(rt, f, cut, sum, done);
    } else if cut < 8 + k {
      assert FrameBytes(f)[..cut] == U64(k) + f.key[..cut - 8];
      CutInKey(rt, f, cut - 8, sum, done);
    } else if cut < 16 + k {
      assert FrameBytes(f)[..cut] == U64(k) + (f.key + U64(|f.zval|)[..cut - 8 - k]);
      CutInValueLength(rt, f, cut - 8 - k, sum, done);
    } else {
      assert FrameBytes(f)[..cut] == U64(k) + (f.key + (U64(|f.zval|) + f.zval[..cut - 16 - k]));
      CutInValue(rt, f, cut - 16 - k, sum, done);
    }
  }

  /** How many frames lie wholly in the first `n` bytes of a body. */
  function WholeFrames(frames: seq<Frame>, n: nat): (j: nat)
    ensures j <= |frames|
  {
    if frames == [] || n < |FrameBytes(frames[0])| then 0
    else 1 + WholeFrames(frames[1..], n - |FrameBytes(frames[0])|)
  }

  function Offset(frames: seq<Frame>, j: nat): nat
    requires j <= |frames|
  {
    |BodyBytes(frames[..j])|
  }

  lemma {:induction false} WholeFramesBound(frames: seq<Frame>, n: nat)
    ensures
      var j := WholeFrames(frames, n);
      && Offset(frames, j) <= n
      && (j < |frames| ==> n < Offset(frames, j + 1))
      && (j < |frames| ==> Offset(frames, j + 1) == Offset(frames, j) + |FrameBytes(frames[j])|)
  {
    hide FrameBytes;
    var j := WholeFrames(frames, n);
    if frames == [] {
      assert frames[..0] == [];
    } else {
      if j < |frames| {
        BodyBytesAt(frames, j);
      }
      if n < |FrameBytes(frames[0])| {
        assert frames[..0] == [];
        BodyBytesAt(frames, 0);
      } else {
        var rest := frames[1..];
        WholeFramesBound(rest, n - |FrameBytes(frames[0])|);
        OffsetShift(frames, j);
        if j < |frames| {
          OffsetShift(frames, j + 1);
        }
      }
    }
  }

  lemma OffsetShift(frames: seq<Frame>, j: nat)
    requires 0 < j <= |frames|
    ensures Offset(frames, j) == |FrameBytes(frames[0])| + Offset(frames[1..], j - 1)
  {
    hide FrameBytes;
    assert frames[..j][0] == frames[0] && frames[..j][1..] == frames[1..][..j - 1];
  }

  /** A body cut `n` bytes in, together with the start of its trailer. */
  lemma CutBody(rt: Runtime, frames: seq<Frame>, trailer: bytes, n: nat)
    requires |trailer| == 4 && rt.maxSlice < TWO_TO_63 && n < |BodyBytes(frames)| + 4
    requires forall i :: 0 <= i < |frames| ==> Decodable(rt, frames[i])
    ensures
      var j := WholeFrames(frames, n);
      var cut := n - Offset(frames, j);
      && cut >= 0
      && Keeps(DecodeBody(rt, Source((BodyBytes(frames) + trailer)[..n], Eof), 0, []),
               Decompress(rt, frames)[..j],
               if j < |frames| then CutAllowed(frames[j], cut, Checksum(BodyBytes(frames[..j]))) else cut == 0)
  {
    hide FrameBytes, BodyBytes, DecodeBody, CutAllowed, Update, FromBytes;
    var j := WholeFrames(frames, n);
    WholeFramesBound(frames, n);
    var front := frames[..j];
    var cut := n - Offset(frames, j);
    var sum, done := Checksum(BodyBytes(front)), Decompress(rt, front);
    assert Decompress(rt, frames)[..j] == done;
    assert [] + done == done;
    if j < |frames| {
      BodyBytesAt(frames, j);
      assert (BodyBytes(frames) + trailer)[..n] == BodyBytes(front) + FrameBytes(frames[j])[..cut];
      DecodeFrames(rt, front, FrameBytes(frames[j])[..cut], Eof, 0, []);
      CutInFrame(rt, frames[j], cut, sum, done);
    } else {
      assert front == frames;
      assert (BodyBytes(frames) + trailer)[..n] == BodyBytes(front) + trailer[..cut];
      DecodeFrames(rt, front, trailer[..cut], Eof, 0, []);
      CutInTrailer(rt, trailer[..cut], sum, done);
    }
  }

  lemma CutInTrailer(rt: Runtime, t: bytes, sum: bv32, done: seq<Record>)
    requires |t| < 4
    ensures Keeps(DecodeBody(rt, Source(t, Eof), sum, done), done, t == [])
  {
    hide ReadFull, Update, Value;
    ReadFullShort(t, 8);
  }

  lemma CutHeader(nodeId: bytes, lastIndex: nat, timestamp: int, n: nat)
    requires HeaderFields(lastIndex, timestamp) && |nodeId| < TWO_TO_16
    requires n < |HeaderBytes(nodeId, lastIndex, timestamp)|
    ensures DecodeHeader(Source(HeaderBytes(nodeId, lastIndex, timestamp)[..n], Eof)) == Err(BadHeader)
  {
    hide U32, Value, FixedBytes, ReadFull, ToUint64, ToInt64, HeaderBytes, HeaderFields;
    var f := FixedBytes(|nodeId|, lastIndex, timestamp);
    var data := HeaderBytes(nodeId, lastIndex, timestamp)[..n];
    HeaderIs(nodeId, lastIndex, timestamp);
    if n < FIXED_HEADER {
      ReadFullShort(data, FIXED_HEADER);
    } else {
      FixedFields(|nodeId|, lastIndex, timestamp);
      var rest := (nodeId + U32(0))[..n - FIXED_HEADER];
      assert data == f + rest;
      ReadFullPrefix(f, rest, Eof);
      if |rest| < |nodeId| {
        ReadFullShort(rest, |nodeId|);
      } else {
        var sum := U32(0)[..|rest| - |nodeId|];
        assert rest == nodeId + sum;
        ReadFullPrefix(nodeId, sum, Eof);
        ReadFullShort(sum, 4);
      }
    }
  }

  lemma HeaderIs(nodeId: bytes, lastIndex: nat, timestamp: int)
    requires HeaderFields(lastIndex, timestamp)
    ensures HeaderBytes(nodeId, lastIndex, timestamp) == FixedBytes(|nodeId|, lastIndex, timestamp) + (nodeId + U32(0))
  {
    hide U32, U64, U16;
  }

  /** The cuts `n` bytes into the body and trailer that are let through. */
  predicate CutAccepted(frames: seq<Frame>, n: nat) {
    var j := WholeFrames(frames, n);
    var cut := n - Offset(frames, j);
    if j < |frames| then cut >= 0 && CutAllowed(frames[j], cut, Checksum(BodyBytes(frames[..j]))) else cut == 0
  }

  /**
   Every proper prefix of a snapshot. A cut inside the header is rejected. Any other cut is rejected or it
   recovers exactly the records lying wholly before it; which of the two is decided by CutAccepted.
   */
  lemma Truncation(rt: Runtime, nodeId: bytes, lastIndex: nat, timestamp: int, records: seq<Record>, n: nat)
    requires Lossless(rt) && HeaderFields(lastIndex, timestamp) && Restorable(rt, nodeId, records)
    requires n < |SnapshotBytes(rt, nodeId, lastIndex, timestamp, records)|
    ensures
      var out := DecodeSnapshot(rt, Source(SnapshotBytes(rt, nodeId, lastIndex, timestamp, records)[..n], Eof));
      var h := |HeaderBytes(nodeId, lastIndex, timestamp)|;
      if n < h then out.Err?
      else
        var frames := Compress(rt, records);
        if CutAccepted(frames, n - h)
        then out == Ok((Header(VERSION, lastIndex, timestamp, nodeId, 0), records[..WholeFrames(frames, n - h)]))
        else out.Err?
  {
    hide FrameBytes, BodyBytes, DecodeBody, DecodeHeader, HeaderBytes, CutAllowed, Update, FromBytes, ToBytes, Value,
      WholeFrames, Offset;
    var head := HeaderBytes(nodeId, lastIndex, timestamp);
    var frames := Compress(rt, records);
    var body := BodyBytes(frames);
    var trailer := ToBytes(Checksum(body));
    var all := SnapshotBytes(rt, nodeId, lastIndex, timestamp, records);
    assert all == head + (body + trailer);
    if n < |head| {
      assert all[..n] == head[..n];
      CutHeader(nodeId, lastIndex, timestamp, n);
    } else {
      var tail := (body + trailer)[..n - |head|];
      assert all[..n] == head + tail;
      DecodeHeaderBytes(nodeId, lastIndex, timestamp, tail, Eof);
      assert CutId(nodeId) == nodeId;
      CompressedDecodable(rt, records);
      DecompressCompress(rt, records);
      CutBody(rt, frames, trailer, n - |head|);
    }
  }

  // ---- corruption ----

  /** `s` with the bytes from `at` on overwritten by `w`. */
  function Overwrite(s: bytes, at: nat, w: bytes): (r: bytes)
    requires at + |w| <= |s|
    ensures |r| == |s|
  {
    s[..at] + w + s[at + |w|..]
  }

  lemma OverwriteInside(a: bytes, s: bytes, b: bytes, at: nat, w: bytes)
    requires at + |w| <= |s|
    ensures Overwrite(a + s + b, |a| + at, w) == a + Overwrite(s, at, w) + b
  {
  }

  /** The two fields of a record the checksum protects without moving the framing. */
  datatype Field = InKey | InValue

  function FieldBytes(f: Frame, field: Field): bytes {
    if field == InKey then f.key else f.zval
  }

  function FieldStart(f: Frame, field: Field): nat {
    if field == InKey then 8 else 16 + |f.key|
  }

  function WithField(f: Frame, field: Field, b: bytes): Frame {
    if field == InKey then f.(key := b) else f.(zval := b)
  }

  lemma OverwriteFrame(f: Frame, field: Field, at: nat, w: bytes)
    requires at + |w| <= |FieldBytes(f, field)|
    ensures FieldStart(f, field) + at + |w| <= |FrameBytes(f)|
    ensures FrameBytes(WithField(f, field, Overwrite(FieldBytes(f, field), at, w)))
         == Overwrite(FrameBytes(f), FieldStart(f, field) + at, w)
    ensures FrameBytes(f)[FieldStart(f, field) + at..][..|w|] == FieldBytes(f, field)[at..][..|w|]
  {
    hide U64, Overwrite;
    var k, v := U64(|f.key|), U64(|f.zval|);
    if field == InKey {
      assert FrameBytes(f) == k + f.key + (v + f.zval);
      OverwriteInside(k, f.key, v + f.zval, at, w);
      assert k + Overwrite(f.key, at, w) + (v + f.zval) == k + Overwrite(f.key, at, w) + v + f.zval;
    } else {
      assert FrameBytes(f) == (k + f.key + v) + f.zval + [];
      OverwriteInside(k + f.key + v, f.zval, [], at, w);
      assert (k + f.key + v) + Overwrite(f.zval, at, w) + [] == k + f.key + v + Overwrite(f.zval, at, w);
    }
  }

  lemma OverwriteBody(frames: seq<Frame>, j: nat, f': Frame, at: nat, w: bytes)
    requires j < |frames| && at + |w| <= |FrameBytes(frames[j])|
    requires FrameBytes(f') == Overwrite(FrameBytes(frames[j]), at, w)
    ensures Offset(frames, j) + at + |w| <= |BodyBytes(frames)|
    ensures BodyBytes(frames[j := f']) == Overwrite(BodyBytes(frames), Offset(frames, j) + at, w)
    ensures BodyBytes(frames)[Offset(frames, j) + at..][..|w|] == FrameBytes(frames[j])[at..][..|w|]
  {
    hide FrameBytes, BodyBytes, Overwrite;
    var frames' := frames[j := f'];
    BodyBytesAt(frames, j);
    BodyBytesAt(frames', j);
    assert frames'[..j] == frames[..j] && frames'[j + 1..] == frames[j + 1..];
    OverwriteInside(BodyBytes(frames[..j]), FrameBytes(frames[j]), BodyBytes(frames[j + 1..]), at, w);
  }

  /** A window of at most four bytes overwritten with something else changes the checksum. */
  lemma OverwriteChangesChecksum(s: bytes, at: nat, w: bytes)
    requires |w| <= 4 && at + |w| <= |s| && s[at..][..|w|] != w
    ensures Checksum(Overwrite(s, at, w)) != Checksum(s)
  {
    hide Update;
    var was := s[at..][..|w|];
    assert s == s[..at] + was + s[at + |w|..];
    BurstDetected(0, s[..at], was, w, s[at + |w|..]);
  }

  /** Frames that were tampered with, under the trailer of the originals. */
  lemma TamperedFrames(rt: Runtime, frames: seq<Frame>, trailer: bytes)
    requires |trailer| == 4 && FromBytes(trailer) != Checksum(BodyBytes(frames))
    requires forall i :: 0 <= i < |frames| ==> GoFrame(frames[i]) && FrameFits(rt, frames[i])
    ensures DecodeBody(rt, Source(BodyBytes(frames) + trailer, Eof), 0, []).Err?
  {
    hide Update, BodyBytes, DecodeBody, FromBytes;
    DecodeFramed(rt, frames, trailer, 0, []);
  }

  function WindowStart(rt: Runtime, nodeId: bytes, records: seq<Record>, j: nat, field: Field, at: nat): nat
    requires j < |records|
  {
    var frames := Compress(rt, records);
    FIXED_HEADER + |nodeId| + 4 + Offset(frames, j) + FieldStart(frames[j], field) + at
  }

  /**
   Overwriting up to four consecutive bytes of one key or of one compressed value, by anything else,
   makes the restore fail: never accepted, never a panic.
   */
  lemma CorruptionDetected(rt: Runtime, nodeId: bytes, lastIndex: nat, timestamp: int, records: seq<Record>,
                           j: nat, field: Field, at: nat, w: bytes)
    requires Lossless(rt) && HeaderFields(lastIndex, timestamp) && Restorable(rt, nodeId, records)
    requires j < |records| && |w| <= 4
    requires at + |w| <= |FieldBytes(Compress(rt, records)[j], field)|
    requires FieldBytes(Compress(rt, records)[j], field)[at..][..|w|] != w
    ensures
      var all := SnapshotBytes(rt, nodeId, lastIndex, timestamp, records);
      var start := WindowStart(rt, nodeId, records, j, field, at);
      start + |w| <= |all| && DecodeSnapshot(rt, Source(Overwrite(all, start, w), Eof)).Err?
  {
    hide Update, BodyBytes, FrameBytes, DecodeBody, DecodeHeader, HeaderBytes, FromBytes, ToBytes, Value, Overwrite,
      Offset;
    var head := HeaderBytes(nodeId, lastIndex, timestamp);
    var frames := Compress(rt, records);
    var body := BodyBytes(frames);
    var trailer := ToBytes(Checksum(body));
    var f := frames[j];
    var f' := WithField(f, field, Overwrite(FieldBytes(f, field), at, w));
    var inFrame := FieldStart(f, field) + at;
    var inBody := Offset(frames, j) + inFrame;
    OverwriteFrame(f, field, at, w);
    OverwriteBody(frames, j, f', inFrame, w);
    OverwriteChangesChecksum(body, inBody, w);
    OverwriteInside(head, body, trailer, inBody, w);
    var frames' := frames[j := f'];
    assert BodyBytes(frames') == Overwrite(body, inBody, w);
    assert head + BodyBytes(frames') + trailer == head + (BodyBytes(frames') + trailer);
    DecodeHeaderBytes(nodeId, lastIndex, timestamp, BodyBytes(frames') + trailer, Eof);
    TrailerRoundTrip(Checksum(body));
    TamperedFrames(rt, frames', trailer);
  }

  /** Any change to the trailer is detected as well. */
  lemma TrailerCorruptionDetected(rt: Runtime, nodeId: bytes, lastIndex: nat, timestamp: int, records: seq<Record>,
                                  trailer: bytes)
    requires Lossless(rt) && HeaderFields(lastIndex, timestamp) && Restorable(rt, nodeId, records)
    requires |trailer| == 4
    requires trailer != ToBytes(Checksum(BodyBytes(Compress(rt, records))))
    ensures
      var all := SnapshotBytes(rt, nodeId, lastIndex, timestamp, records);
      DecodeSnapshot(rt, Source(all[..|all| - 4] + trailer, Eof)).Err?
  {
    hide Update, BodyBytes, FrameBytes, DecodeBody, DecodeHeader, HeaderBytes, FromBytes, ToBytes, Value;
    var head := HeaderBytes(nodeId, lastIndex, timestamp);
    var frames := Compress(rt, records);
    var body := BodyBytes(frames);
    var right := ToBytes(Checksum(body));
    var all := SnapshotBytes(rt, nodeId, lastIndex, timestamp, records);
    assert all == head + body + right;
    assert all[..|all| - 4] + trailer == head + (body + trailer);
    DecodeHeaderBytes(nodeId, lastIndex, timestamp, body + trailer, Eof);
    TrailerRoundTrip(Checksum(body));
    if FromBytes(trailer) == Checksum(body) {
      TrailerInjective(trailer, right);
    }
    TamperedFrames(rt, frames, trailer);
  }

  /** A change of the saved bytes that the reader must not let through. */
  datatype Damage = Overwritten(j: nat, field: Field, at: nat, w: bytes) | Trailer(trailer: bytes) | CutOff(n: nat)

  predicate Harms(rt: Runtime, nodeId: bytes, records: seq<Record>, d: Damage) {
    var frames := Compress(rt, records);
    var h := FIXED_HEADER + |nodeId| + 4;
    match d
    case Overwritten(j, field, at, w) =>
      && j < |records| && |w| <= 4
      && at + |w| <= |FieldBytes(frames[j], field)| && FieldBytes(frames[j], field)[at..][..|w|] != w
    case Trailer(trailer) => |trailer| == 4 && trailer != ToBytes(Checksum(BodyBytes(frames)))
    case CutOff(n) => n < h + |BodyBytes(frames)| + 4 && (n < h || !CutAccepted(frames, n - h))
  }

  function Damaged(rt: Runtime, nodeId: bytes, records: seq<Record>, all: bytes, d: Damage): bytes {
    match d
    case Overwritten(j, field, at, w) =>
      if j < |records| && WindowStart(rt, nodeId, records, j, field, at) + |w| <= |all|
      then Overwrite(all, WindowStart(rt, nodeId, records, j, field, at), w) else all
    case Trailer(trailer) => if |all| >= 4 then all[..|all| - 4] + trailer else all
    case CutOff(n) => if n <= |all| then all[..n] else all
  }

  /** All damage that is claimed to be detected, at once. */
  lemma DamageDetected(rt: Runtime, nodeId: bytes, lastIndex: nat, timestamp: int, records: seq<Record>, d: Damage)
    requires Lossless(rt) && HeaderFields(lastIndex, timestamp) && Restorable(rt, nodeId, records)
    requires Harms(rt, nodeId, records, d)
    ensures
      var all := SnapshotBytes(rt, nodeId, lastIndex, timestamp, records);
      DecodeSnapshot(rt, Source(Damaged(rt, nodeId, records, all, d), Eof)).Err?
  {
    hide DecodeSnapshot, BodyBytes, HeaderBytes, Update, ToBytes, Overwrite, CutAccepted, WindowStart, Restorable;
    match d {
      case Overwritten(j, field, at, w) =>
        CorruptionDetected(rt, nodeId, lastIndex, timestamp, records, j, field, at, w);
      case Trailer(trailer) =>
        TrailerCorruptionDetected(rt, nodeId, lastIndex, timestamp, records, trailer);
      case CutOff(n) =>
        Truncation(rt, nodeId, lastIndex, timestamp, records, n);
    }
  }
}
