/** saveSnapShot: the header buffer filled at a moving offset, the record loop, the trailer. */
module Writer {
  import opened Bytes
  import opened Crc32
  import opened Snapshot
  import opened SnapshotTheorems
  import opened Pebble

  /** binary.LittleEndian.PutUint16/32/64 into `buf` at `offset`. */
  method PutUint(buf: array<byte>, offset: nat, n: nat, width: nat)
    requires offset + width <= buf.Length
    modifies buf
    ensures buf[..offset + width] == old(buf[..offset]) + LittleEndian(n, width)
    ensures buf[offset + width..] == old(buf[offset + width..])
  {
    var rest, i := n, 0;
    while i < width
      invariant 0 <= i <= width
      invariant buf[..offset + i] + LittleEndian(rest, width - i) == old(buf[..offset]) + LittleEndian(n, width)
      invariant buf[offset + i..] == old(buf[offset + i..])
    {
      ghost var was := buf[..offset + i];
      buf[offset + i] := ToByte(rest);
      assert buf[..offset + i + 1] == was + [ToByte(rest)];
      assert LittleEndian(rest, width - i) == [ToByte(rest)] + LittleEndian(rest / 256, width - i - 1);
      rest, i := rest / 256, i + 1;
    }
  }

  /** The next integer of a buffer that is still zero from `offset` on. */
  method PutNext(buf: array<byte>, offset: nat, n: nat, width: nat, ghost zeros: bytes) returns (next: nat)
    requires offset + width <= buf.Length == |zeros| && buf[offset..] == zeros[offset..]
    modifies buf
    ensures next == offset + width
    ensures buf[..next] == old(buf[..offset]) + LittleEndian(n, width) && buf[next..] == zeros[next..]
  {
    assert zeros[offset + width..] == zeros[offset..][width..] == buf[offset..][width..] == buf[offset + width..];
    PutUint(buf, offset, n, width);
    next := offset + width;
  }

  /** copy(buf[offset:], data) */
  method CopyNext(buf: array<byte>, offset: nat, data: bytes, ghost zeros: bytes) returns (next: nat)
    requires offset + |data| <= buf.Length == |zeros| && buf[offset..] == zeros[offset..]
    modifies buf
    ensures next == offset + |data|
    ensures buf[..next] == old(buf[..offset]) + data && buf[next..] == zeros[next..]
  {
    assert zeros[offset + |data|..] == zeros[offset..][|data|..] == buf[offset..][|data|..] == buf[offset + |data|..];
    forall i | 0 <= i < |data| {
      buf[offset + i] := data[i];
    }
    next := offset + |data|;
  }

  method HeaderBuffer(nodeId: bytes, lastIndex: nat, timestamp: int) returns (buf: array<byte>)
    requires HeaderFields(lastIndex, timestamp)
    ensures fresh(buf) && buf[..] == HeaderBytes(nodeId, lastIndex, timestamp)
  {
    hide LittleEndian, ToByte, ToUint64;
    buf := new byte[FIXED_HEADER + |nodeId| + 4](_ => 0);
    ghost var zeros := buf[..];
    var offset := PutNext(buf, 0, MAGIC, 4, zeros);
    offset := PutNext(buf, offset, VERSION, 4, zeros);
    offset := PutNext(buf, offset, lastIndex, 8, zeros);
    offset := PutNext(buf, offset, ToUint64(timestamp), 8, zeros);
    offset := PutNext(buf, offset, |nodeId|, 2, zeros);
    offset := CopyNext(buf, offset, nodeId, zeros);
    assert zeros[offset..] == [0, 0, 0, 0];
    ZeroBytes();
    assert buf[..] == buf[..offset] + buf[offset..];
  }

  lemma ZeroBytes()
    ensures U32(0) == [0, 0, 0, 0]
  {
    assert LittleEndian(0, 4) == [0] + LittleEndian(0, 3);
    assert LittleEndian(0, 3) == [0] + LittleEndian(0, 2);
    assert LittleEndian(0, 2) == [0] + LittleEndian(0, 1);
    assert LittleEndian(0, 1) == [0] + LittleEndian(0, 0);
  }

  datatype SnapshotResult = SnapshotResult(size: nat, records: nat, checksum: bv32)

  /** One turn of the loop: the four writes of a record advance the body, the digest and the size together. */
  lemma RecordWritten(rt: Runtime, records: seq<Record>, n: nat, body: bytes, sum: bv32)
    requires n < |records| && body == BodyBytes(Compress(rt, records)[..n]) && sum == Checksum(body)
    ensures
      var f := Compress(rt, records)[n];
      && BodyBytes(Compress(rt, records)[..n + 1]) == body + U64(|f.key|) + f.key + U64(|f.zval|) + f.zval
      && Checksum(BodyBytes(Compress(rt, records)[..n + 1]))
         == Update(Update(Update(Update(sum, U64(|f.key|)), f.key), U64(|f.zval|)), f.zval)
  {
    hide Update, BodyBytes, U64;
    var f := Compress(rt, records)[n];
    BodyBytesAt(Compress(rt, records), n);
    assert body + FrameBytes(f) == body + U64(|f.key|) + f.key + U64(|f.zval|) + f.zval;
    UpdateConcat(0, body, U64(|f.key|));
    UpdateConcat(0, body + U64(|f.key|), f.key);
    UpdateConcat(0, body + U64(|f.key|) + f.key, U64(|f.zval|));
    UpdateConcat(0, body + U64(|f.key|) + f.key + U64(|f.zval|), f.zval);
  }

  /**
   What can go wrong while iterating: opening the iterator, compressing record `gzipFails`, the iterator's own error.
   */
  datatype Iteration = Iteration(opens: bool, gzipFails: Option<nat>, ends: bool)

  predicate Sound(it: Iteration, n: nat) {
    it.opens && it.ends && (it.gzipFails.Some? ==> it.gzipFails.value >= n)
  }

  /**
   saveSnapShot. It succeeds exactly when the sink takes all 2 + 4n writes and closes, the iterator opens and ends
   without error and every value is compressed; then the sink holds the snapshot of the records and the reported
   size, count and checksum are those of what was written. Otherwise the sink holds a prefix of it: it was closed if
   everything had been written and only the closing failed, and cancelled in every other case; only if the iterator
   cannot be opened is it left alone.
   */
  method SaveSnapShot(rt: Runtime, nodeId: bytes, lastIndex: nat, timestamp: int, records: seq<Record>, it: Iteration,
                      sink: Sink)
    returns (r: Option<SnapshotResult>)
    requires HeaderFields(lastIndex, timestamp)
    requires sink.data == [] && !sink.cancelled && !sink.closed
    modifies sink
    ensures r.Some? <==> old(sink.writesLeft) >= 2 + 4 * |records| && Sound(it, |records|) && sink.closes
    ensures r.Some? ==>
      && sink.data == SnapshotBytes(rt, nodeId, lastIndex, timestamp, records) && sink.closed && !sink.cancelled
      && r.value == SnapshotResult(|sink.data|, |records|, Checksum(BodyBytes(Compress(rt, records))))
    ensures r.None? && it.opens ==>
      && sink.closed == (old(sink.writesLeft) >= 2 + 4 * |records| && Sound(it, |records|))
      && sink.cancelled == !sink.closed
    ensures !it.opens ==> sink.data == [] && !sink.cancelled && !sink.closed
    ensures sink.data <= SnapshotBytes(rt, nodeId, lastIndex, timestamp, records)
  {
    hide Update, BodyBytes, FrameBytes, HeaderBytes, U64, ToBytes;
    if !it.opens {
      return None;
    }
    ghost var head := HeaderBytes(nodeId, lastIndex, timestamp);
    ghost var frames := Compress(rt, records);
    ghost var all := SnapshotBytes(rt, nodeId, lastIndex, timestamp, records);
    assert all == head + BodyBytes(frames) + ToBytes(Checksum(BodyBytes(frames)));
    var totalSize := 0;
    var buf := HeaderBuffer(nodeId, lastIndex, timestamp);
    var ok := sink.Write(buf[..]);
    if !ok {
      sink.Cancel();
      return None;
    }
    totalSize := totalSize + buf.Length;
    var count, sum := 0, 0 as bv32;
    EmptyBody(frames);
    while count < |records|
      invariant 0 <= count <= |records|
      invariant it.gzipFails.Some? ==> it.gzipFails.value >= count
      invariant sink.data == head + BodyBytes(frames[..count])
      invariant sum == Checksum(BodyBytes(frames[..count]))
      invariant totalSize == |sink.data|
      invariant sink.writesLeft + 1 + 4 * count == old(sink.writesLeft)
      invariant !sink.cancelled && !sink.closed
    {
      PrefixAt(frames, count, head, ToBytes(Checksum(BodyBytes(frames))));
      ghost var body := BodyBytes(frames[..count]);
      RecordWritten(rt, records, count, body, sum);
      ok := WriteRecord(rt, records[count], it.gzipFails != Some(count), sink);
      if !ok {
        sink.Cancel();
        return None;
      }
      var f := Frame(records[count].key, rt.encode(records[count].val));
      totalSize := totalSize + 16 + |f.key| + |f.zval|;
      sum := Update(Update(Update(Update(sum, U64(|f.key|)), f.key), U64(|f.zval|)), f.zval);
      count := count + 1;
    }
    assert frames[..count] == frames;
    if !it.ends {
      sink.Cancel();
      return None;
    }
    ok := sink.Write(ToBytes(sum));
    if !ok {
      sink.Cancel();
      return None;
    }
    totalSize := totalSize + 4;
    ok := sink.Close();
    if !ok {
      return None;
    }
    r := Some(SnapshotResult(totalSize, count, sum));
  }

  /** The four writes of one record; the value is compressed after the key is out. */
  method WriteRecord(rt: Runtime, record: Record, compresses: bool, sink: Sink) returns (ok: bool)
    modifies sink`data, sink`writesLeft
    ensures ok == (compresses && old(sink.writesLeft) >= 4)
    ensures
      var f := Frame(record.key, rt.encode(record.val));
      var whole := old(sink.data) + U64(|f.key|) + f.key + U64(|f.zval|) + f.zval;
      if ok then sink.data == whole && sink.writesLeft == old(sink.writesLeft) - 4
      else old(sink.data) <= sink.data <= whole
  {
    hide U64;
    ok := sink.Write(U64(|record.key|));
    if ok {
      ok := sink.Write(record.key);
    }
    if !compresses {
      return false;
    }
    var zval := rt.encode(record.val);
    if ok {
      ok := sink.Write(U64(|zval|));
    }
    if ok {
      ok := sink.Write(zval);
    }
  }

  lemma EmptyBody(frames: seq<Frame>)
    ensures BodyBytes(frames[..0]) == [] && Checksum([]) == 0
  {
    UpdateNothing(0);
  }

  lemma PrefixAt(frames: seq<Frame>, n: nat, head: bytes, tail: bytes)
    requires n < |frames|
    ensures
      var f := frames[n];
      head + BodyBytes(frames[..n]) + U64(|f.key|) + f.key + U64(|f.zval|) + f.zval <= head + BodyBytes(frames) + tail
  {
    hide BodyBytes, U64;
    BodyBytesAt(frames, n);
    var f := frames[n];
    var rest := BodyBytes(frames[n + 1..]);
    assert head + BodyBytes(frames) + tail ==
      head + BodyBytes(frames[..n]) + U64(|f.key|) + f.key + U64(|f.zval|) + f.zval + rest + tail;
  }
}
