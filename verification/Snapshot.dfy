/**
 The snapshot file format: what saveSnapShot puts on the sink and how recoverSnapShot and
 readSnapshotHeader take it apart again, as functions on byte strings.

 header:  magic(4) version(4) lastIndex(8) timestamp(8) nodeIdLen(2) nodeId checksum(4, zero)
 record:  keyLen(8) key valLen(8) gzip(val)
 trailer: CRC-32 of all record bytes (4)
 */
module Snapshot {
  import opened Bytes
  import opened Crc32

  const MAGIC: nat := 0x52414654
  const VERSION: nat := 1
  const MAX_KEY: nat := 0x4000_0000
  const FIXED_HEADER: nat := 26

  /** gzip as a pair of functions, and the largest slice the Go runtime can allocate. */
  datatype Runtime = Runtime(encode: bytes -> bytes, decode: bytes -> Option<bytes>, maxSlice: nat)

  ghost predicate Lossless(rt: Runtime) {
    && rt.maxSlice < TWO_TO_63
    && forall v :: rt.decode(rt.encode(v)) == Some(v)
  }

  datatype Record = Record(key: bytes, val: bytes)

  /** A record as it travels: the value is compressed. */
  datatype Frame = Frame(key: bytes, zval: bytes)

  datatype Header = Header(version: nat, lastIndex: nat, timestamp: int, nodeId: bytes, checksum: nat)

  // ---- writing ----

  function FrameBytes(f: Frame): bytes {
    U64(|f.key|) + f.key + U64(|f.zval|) + f.zval
  }

  function BodyBytes(frames: seq<Frame>): bytes {
    if frames == [] then [] else FrameBytes(frames[0]) + BodyBytes(frames[1..])
  }

  function Compress(rt: Runtime, records: seq<Record>): (frames: seq<Frame>)
    ensures |frames| == |records|
    ensures forall i :: 0 <= i < |records| ==> frames[i] == Frame(records[i].key, rt.encode(records[i].val))
  {
    seq(|records|, i requires 0 <= i < |records| => Frame(records[i].key, rt.encode(records[i].val)))
  }

  predicate HeaderFields(lastIndex: nat, timestamp: int) {
    lastIndex < TWO_TO_64 && -(TWO_TO_63 as int) <= timestamp < TWO_TO_63
  }

  function HeaderBytes(nodeId: bytes, lastIndex: nat, timestamp: int): (b: bytes)
    requires HeaderFields(lastIndex, timestamp)
    ensures |b| == FIXED_HEADER + |nodeId| + 4
  {
    U32(MAGIC) + U32(VERSION) + U64(lastIndex) + U64(ToUint64(timestamp)) + U16(|nodeId|) + nodeId + U32(0)
  }

  function SnapshotBytes(rt: Runtime, nodeId: bytes, lastIndex: nat, timestamp: int, records: seq<Record>): bytes
    requires HeaderFields(lastIndex, timestamp)
  {
    var body := BodyBytes(Compress(rt, records));
    HeaderBytes(nodeId, lastIndex, timestamp) + body + ToBytes(Checksum(body))
  }

  // ---- reading ----

  /** A reader delivers its bytes and then either the end of the file or an I/O error. */
  datatype Ending = Eof | Broken
  datatype Source = Source(data: bytes, ending: Ending)

  datatype Read = Full(data: bytes, rest: Source) | AtEof | Partial(got: bytes) | IoError

  /** io.ReadFull: an empty buffer is always filled, also at the end of the file. */
  function ReadFull(src: Source, n: nat): (r: Read)
    ensures r.Full? ==> |r.data| == n && src.data == r.data + r.rest.data && r.rest.ending == src.ending
    ensures r.Partial? ==> 0 < |r.got| < n
  {
    if n <= |src.data| then Full(src.data[..n], Source(src.data[n..], src.ending))
    else if src.ending == Broken then IoError
    else if src.data == [] then AtEof
    else Partial(src.data)
  }

  datatype Error = BadHeader | BadMagic | BadVersion | ChecksumMismatch | PartialLength | KeyTooLong | Truncated
                 | BadGzip | ReadFailed | OpenFailed | PublishFailed | Closed | Cleanup

  /** Panic is the process dying: make([]byte, n) with an n the runtime cannot allocate. */
  datatype Outcome<+T> = Ok(value: T) | Err(error: Error) | Panic

  function DecodeHeader(src: Source): Outcome<(Header, Source)> {
    var fixed := ReadFull(src, FIXED_HEADER);
    if !fixed.Full? then Err(BadHeader)
    else if Value(fixed.data[..4]) != MAGIC then Err(BadMagic)
    else if Value(fixed.data[4..8]) > VERSION then Err(BadVersion)
    else
      var id := ReadFull(fixed.rest, Value(fixed.data[24..26]));
      if !id.Full? then Err(BadHeader)
      else
        var sum := ReadFull(id.rest, 4);
        if !sum.Full? then Err(BadHeader)
        else
          Pow256Of8();
          Ok((Header(Value(fixed.data[4..8]), Value(fixed.data[8..16]), ToInt64(Value(fixed.data[16..24])),
                     id.data, Value(sum.data)), sum.rest))
  }

  /** The record loop, from a state in which `sum` is the checksum so far and `done` the records so far. */
  function DecodeBody(rt: Runtime, src: Source, sum: bv32, done: seq<Record>): Outcome<seq<Record>>
    decreases |src.data|
  {
    match ReadFull(src, 8)
    case AtEof => Ok(done)
    case IoError => Err(ReadFailed)
    case Partial(got) =>
      if |got| != 4 then Err(PartialLength)
      else if FromBytes(got) != sum then Err(ChecksumMismatch)
      else Ok(done)
    case Full(ksz, atKey) =>
      if Value(ksz) > MAX_KEY then Err(KeyTooLong) else
      match ReadFull(atKey, Value(ksz))
      case AtEof => Ok(done)
      case IoError => Err(ReadFailed)
      case Partial(_) => Err(Truncated)
      case Full(key, atLen) =>
        match ReadFull(atLen, 8)
        case AtEof => Ok(done)
        case IoError => Err(ReadFailed)
        case Partial(_) => Err(Truncated)
        case Full(vsz, atVal) =>
          if Value(vsz) > rt.maxSlice then Panic else
          match ReadFull(atVal, Value(vsz))
          case AtEof => Ok(done)
          case IoError => Err(ReadFailed)
          case Partial(_) => Err(Truncated)
          case Full(zval, rest) =>
            match rt.decode(zval)
            case None => Err(BadGzip)
            case Some(val) =>
              DecodeBody(rt, rest, Update(sum, ksz + key + vsz + zval), done + [Record(key, val)])
  }

  function DecodeSnapshot(rt: Runtime, src: Source): Outcome<(Header, seq<Record>)> {
    match DecodeHeader(src)
    case Err(e) => Err(e)
    case Panic => Panic
    case Ok((header, rest)) =>
      match DecodeBody(rt, rest, 0, [])
      case Err(e) => Err(e)
      case Panic => Panic
      case Ok(records) => Ok((header, records))
  }

  // ---- the database the records describe ----

  type Db = map<bytes, bytes>

  function PutAll(db: Db, records: seq<Record>): Db {
    if records == [] then db
    else PutAll(db, records[..|records| - 1])[records[|records| - 1].key := records[|records| - 1].val]
  }

  /** `records` is some iteration of `db`: every entry once, in any order. */
  ghost predicate Iterates(records: seq<Record>, db: Db) {
    && (forall i :: 0 <= i < |records| ==> records[i].key in db && db[records[i].key] == records[i].val)
    && (forall i, j :: 0 <= i < j < |records| ==> records[i].key != records[j].key)
    && (forall k :: k in db ==> exists i :: 0 <= i < |records| && records[i].key == k)
  }
}
