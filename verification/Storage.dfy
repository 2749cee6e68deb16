/** The store as the code runs it, system call by system call. */
module Storage {
  import opened Bytes
  import opened Crc32
  import opened Snapshot
  import opened SnapshotTheorems
  import opened SnapshotAcceptance
  import opened Disk
  import opened DataDir
  import opened CrashSafety
  import opened CrashRuns
  import opened CrashLimits
  import opened SyncFailure
  import opened Pebble
  import opened Directory

  /** The system call of a restore that reports an error, if any; `dies` is the panic of saveCurrentDBDirName. */
  datatype Fault = NoFault | OpenFails | SaveFails(step: nat, dies: bool) | RenameFails | SyncFails
    | RemoveFails(step: nat)

  /** What recoverSnapShot returns. A failure to clean up is reported although the switch has happened. */
  function Verdict(rt: Runtime, src: Source, fault: Fault): Outcome<Header> {
    match DecodeHeader(src)
    case Err(e) => Err(e)
    case Panic => Panic
    case Ok((header, rest)) =>
      if fault == OpenFails then Err(OpenFailed) else
      match DecodeBody(rt, rest, 0, [])
      case Err(e) => Err(e)
      case Panic => Panic
      case Ok(_) =>
        match PublishVerdict(fault)
        case Err(e) => Err(e)
        case Panic => Panic
        case Ok(_) => Ok(header)
  }

  function PublishVerdict(fault: Fault): Outcome<()> {
    if fault.SaveFails? then SaveVerdict(fault.step, fault.dies)
    else if fault == RenameFails || fault == SyncFails then Err(PublishFailed)
    else if fault.RemoveFails? && fault.step < 3 then Err(Cleanup)
    else Ok(())
  }

  /** The restore gets past the rename and its directory sync. */
  predicate Passes(fault: Fault) {
    fault != OpenFails && (PublishVerdict(fault).Ok? || PublishVerdict(fault) == Err(Cleanup))
  }

  predicate Switches(rt: Runtime, src: Source, fault: Fault) {
    DecodeSnapshot(rt, src).Ok? && Passes(fault)
  }

  /** No system call reports an error; the saving has four, the removal of the old directory three. */
  predicate Uneventful(fault: Fault) {
    match fault
    case NoFault => true
    case SaveFails(step, dies) => step > 3 && !dies
    case RemoveFails(step) => step > 2
    case _ => false
  }

  /**
   A restore reports success, with the snapshot's header, exactly if the snapshot is accepted and no system call
   reports an error. It switches exactly if the snapshot is accepted and nothing fails up to the rename and its sync.
   A snapshot that is not accepted is reported with its own error, unless the header was good and the new database
   cannot be opened.
   */
  lemma VerdictExactly(rt: Runtime, src: Source, fault: Fault)
    ensures
      var read, out := DecodeSnapshot(rt, src), Verdict(rt, src, fault);
      && (out.Ok? <==> read.Ok? && Uneventful(fault))
      && (out.Ok? ==> out.value == read.value.0)
      && (Switches(rt, src, fault) <==> read.Ok? && (fault.RemoveFails? || Uneventful(fault)))
      && (read.Err? && fault != OpenFails ==> out == Err(read.error))
      && (read.Panic? && fault != OpenFails ==> out == Panic)
      && (fault == OpenFails ==> out.Err?)
      && (read.Ok? && fault == OpenFails ==> out == Err(OpenFailed))
      && (read.Ok? && fault.RemoveFails? && fault.step <= 2 ==> out == Err(Cleanup))
      && (read.Ok? && (fault == RenameFails || fault == SyncFails) ==> out == Err(PublishFailed))
      && (read.Ok? && fault.SaveFails? && fault.dies && fault.step > 0 ==> out == Panic)
  {
    hide DecodeBody, DecodeHeader;
    HeaderNeverDies(src);
  }

  lemma HeaderNeverDies(src: Source)
    ensures !DecodeHeader(src).Panic?
  {
    hide Value;
  }

  /** The rename goes through but its directory sync reports an error. */
  predicate Breaks(rt: Runtime, src: Source, fault: Fault) {
    DecodeSnapshot(rt, src).Ok? && fault == SyncFails
  }

  /** The database a complete snapshot describes. */
  function Restored(rt: Runtime, src: Source): Db {
    match DecodeSnapshot(rt, src)
    case Ok((_, records)) => PutAll(map[], records)
    case _ => map[]
  }

  /** How many of the three system calls after the swap go through. */
  function Swept(fault: Fault): (n: nat)
    ensures n <= 3
  {
    if fault.RemoveFails? then AtMost(fault.step, 3) else 3
  }

  /** The system calls of a restore from the saving of the new name on. */
  ghost function PublishHistory(cfg: Config, fs: Fs, id: bytes, stages: seq<Db>, db: Db, oldId: bytes): (h: seq<Fs>)
    requires Workable(fs)
    ensures |h| == 10
  {
    BeforePublish(cfg, fs, id, stages, db)[|stages| + 3..] + [Published(cfg, fs, id, stages, db)]
    + AfterPublish(cfg, fs, id, stages, db, oldId)
  }

  /** The part of it from the rename on, as far as it comes; after a failing directory sync, the removal. */
  ghost function ReplaceHistory(cfg: Config, fs: Fs, id: bytes, stages: seq<Db>, db: Db, oldId: bytes, fault: Fault,
                                sweep: nat): seq<Fs> {
    if !Workable(fs) then []
    else
      var published := Published(cfg, fs, id, stages, db);
      [published] + (if fault == SyncFails then RemoveTrace(published, id)[..AtMost(sweep, 2)]
                     else AfterPublish(cfg, fs, id, stages, db, oldId)[..1 + Swept(fault)])
  }

  /** All system calls of a restore, in order, as far as `fault` lets it come once it has switched. */
  ghost function RestoreHistory(cfg: Config, fs: Fs, id: bytes, stages: seq<Db>, db: Db, oldId: bytes,
                                fault: Fault): seq<Fs> {
    if !Workable(fs) then []
    else BuildTrace(fs, id, stages, db) + PublishHistory(cfg, fs, id, stages, db, oldId)[..7 + Swept(fault)]
  }

  /**
   All system calls of a restore whose directory sync fails: up to the rename, and then as much of the removal of
   the directory just published as goes through.
   */
  ghost function BrokenHistory(cfg: Config, fs: Fs, id: bytes, stages: seq<Db>, db: Db, oldId: bytes,
                               sweep: nat): seq<Fs> {
    if !Workable(fs) then []
    else BuildTrace(fs, id, stages, db) + PublishHistory(cfg, fs, id, stages, db, oldId)[..6]
         + RemoveTrace(Published(cfg, fs, id, stages, db), id)[..AtMost(sweep, 2)]
  }

  /** A whole restore passes through the states proved crash-safe, in their order. */
  lemma RestoreHistoryIs(cfg: Config, fs: Fs, id: bytes, stages: seq<Db>, db: Db, oldId: bytes)
    requires Workable(fs)
    ensures RestoreHistory(cfg, fs, id, stages, db, oldId, NoFault)
         == BeforePublish(cfg, fs, id, stages, db)[1..] + [Published(cfg, fs, id, stages, db)]
            + AfterPublish(cfg, fs, id, stages, db, oldId)
  {
    hide BuildTrace, AfterPublish, Published;
    BeforePublishIs(cfg, fs, id, stages, db);
    var h := PublishHistory(cfg, fs, id, stages, db, oldId);
    assert h[..10] == h;
    assert BeforePublish(cfg, fs, id, stages, db)[1..]
      == BuildTrace(fs, id, stages, db) + BeforePublish(cfg, fs, id, stages, db)[|stages| + 3..];
  }

  /** Where such a restore ends. */
  ghost function BrokenState(cfg: Config, fs: Fs, id: bytes, stages: seq<Db>, db: Db, sweep: nat): Fs {
    if !Workable(fs) then fs else FailureStates(cfg, fs, id, stages, db)[AtMost(sweep, 2)]
  }

  lemma BrokenEnds(cfg: Config, fs: Fs, id: bytes, stages: seq<Db>, db: Db, oldId: bytes, sweep: nat)
    requires Workable(fs)
    ensures BrokenHistory(cfg, fs, id, stages, db, oldId, sweep) != []
    ensures Final(BrokenHistory(cfg, fs, id, stages, db, oldId, sweep)) == BrokenState(cfg, fs, id, stages, db, sweep)
  {
    hide BuildTrace, BeforePublish, AfterPublish, Published, RemoveTrace;
    var removed := RemoveTrace(Published(cfg, fs, id, stages, db), id);
    assert AtMost(sweep, 2) > 0 ==> removed[..AtMost(sweep, 2)][AtMost(sweep, 2) - 1] == removed[AtMost(sweep, 2) - 1];
    assert PublishHistory(cfg, fs, id, stages, db, oldId)[..6][5] == Published(cfg, fs, id, stages, db);
  }

  /** The live database stays whole while the new directory is removed. */
  lemma SweepKeeps(cfg: Config, fs: Fs, p: Ino, id: bytes, t: Ino, db: Db, q: Ino, id': bytes, u: Ino, db': Db, n: nat)
    requires Either(cfg, fs, p, id, t, db, q, id', u, db') && id != id' && n <= 2
    ensures Kept(([fs] + RemoveTrace(fs, id'))[n], id, t, db)
  {
    assert Has(fs, Dir(id'), u) && Has(fs, Dir(id), t);
  }

  /** From position `from` on, every state of the history has the database `db` published in all crash images. */
  ghost predicate Serves(h: seq<Fs>, from: nat, cfg: Config, p: Ino, id: bytes, t: Ino, db: Db) {
    from <= |h| && forall i :: from <= i < |h| ==> UpOk(cfg, h[i], p, id, t, db)
  }

  lemma ServesNone(h: seq<Fs>, cfg: Config, p: Ino, id: bytes, t: Ino, db: Db)
    ensures Serves(h, |h|, cfg, p, id, t, db)
  {
  }

  lemma ServesMore(h: seq<Fs>, more: seq<Fs>, from: nat, cfg: Config, p: Ino, id: bytes, t: Ino, db: Db)
    requires Serves(h, from, cfg, p, id, t, db) && forall s :: s in more ==> UpOk(cfg, s, p, id, t, db)
    ensures Serves(h + more, from, cfg, p, id, t, db)
  {
    hide UpOk;
  }

  lemma FillTwice(fs: Fs, id: bytes, a: Db, b: Db, intact: bool)
    requires IsTree(fs, Dir(id))
    ensures IsTree(Fill(fs, id, a, false), Dir(id))
    ensures Fill(Fill(fs, id, a, false), id, b, intact) == Fill(fs, id, b, intact)
  {
  }

  /** What one turn of the record loop finds. */
  datatype Turn = End | Fail(error: Error) | Die | Got(key: bytes, val: bytes, rest: Source, sum: bv32)

  /** The reads of one turn of the loop, with the digest written piece by piece. */
  method ReadRecord(rt: Runtime, src: Source, sum: bv32, ghost done: seq<Record>) returns (turn: Turn)
    ensures match turn
            case End => DecodeBody(rt, src, sum, done) == Ok(done)
            case Fail(e) => DecodeBody(rt, src, sum, done) == Err(e)
            case Die => DecodeBody(rt, src, sum, done) == Panic
            case Got(key, val, rest, sum') =>
              && |rest.data| < |src.data|
              && DecodeBody(rt, src, sum, done) == DecodeBody(rt, rest, sum', done + [Record(key, val)])
  {
    hide Update, Value, FromBytes;
    var r := ReadFull(src, 8);
    if r.AtEof? {
      return End;
    }
    if r.Partial? {
      if |r.got| == 4 {
        return if FromBytes(r.got) != sum then Fail(ChecksumMismatch) else End;
      }
      return Fail(PartialLength);
    }
    if r.IoError? {
      return Fail(ReadFailed);
    }
    var ksz := r.data;
    if Value(ksz) > MAX_KEY {
      return Fail(KeyTooLong);
    }
    var sum' := Update(sum, ksz);
    r := ReadFull(r.rest, Value(ksz));
    if !r.Full? {
      return if r.AtEof? then End else Fail(if r.IoError? then ReadFailed else Truncated);
    }
    var key := r.data;
    sum' := Update(sum', key);
    r := ReadFull(r.rest, 8);
    if !r.Full? {
      return if r.AtEof? then End else Fail(if r.IoError? then ReadFailed else Truncated);
    }
    var vsz := r.data;
    sum' := Update(sum', vsz);
    if Value(vsz) > rt.maxSlice {
      return Die;
    }
    r := ReadFull(r.rest, Value(vsz));
    if !r.Full? {
      return if r.AtEof? then End else Fail(if r.IoError? then ReadFailed else Truncated);
    }
    var zval := r.data;
    sum' := Update(sum', zval);
    var val := rt.decode(zval);
    if val == None {
      return Fail(BadGzip);
    }
    FourUpdates(sum, ksz, key, vsz, zval);
    turn := Got(key, val.value, r.rest, sum');
  }

  lemma PutAllOne(done: seq<Record>, r: Record)
    ensures PutAll(map[], done + [r]) == PutAll(map[], done)[r.key := r.val]
  {
    assert (done + [r])[..|done|] == done;
  }

  lemma PutAllNone()
    ensures PutAll(map[], []) == map[]
  {
  }

  /** fsm/store.go. The live database is the tree behind `handle`. */
  class Store {
    const rt: Runtime
    const dir: DataDirectory
    var id: bytes
    var handle: Ino
    var closed: bool
    ghost var pointer: Ino

    ghost predicate Valid()
      reads this, dir
    {
      && Digests(dir.cfg) && handle in dir.fs.nodes && dir.fs.nodes[handle].Tree?
      && UpOk(dir.cfg, dir.fs, pointer, id, handle, dir.fs.nodes[handle].db)
    }

    ghost function Contents(): Db
      reads this, dir
      requires Valid()
    {
      dir.fs.nodes[handle].db
    }

    /** A store on the database directory `id`; it is valid if that is what the data directory safely publishes. */
    constructor (rt: Runtime, dir: DataDirectory, id: bytes, ghost p: Ino, ghost db: Db)
      requires IsTree(dir.fs, Dir(id))
      ensures this.id == id && this.dir == dir && this.rt == rt && !closed && handle == dir.fs.live[Dir(id)]
      ensures Digests(dir.cfg) && UpOk(dir.cfg, dir.fs, p, id, dir.fs.live[Dir(id)], db) ==> Valid() && Contents() == db
    {
      this.rt, this.dir, this.id, handle, closed := rt, dir, id, dir.fs.live[Dir(id)], false;
      pointer := p;
    }

    /** insert: one record, committed with sync. */
    method Write(key: bytes, val: bytes)
      requires Valid()
      modifies dir
      ensures Valid() && Contents() == old(Contents())[key := val]
      ensures dir.history == old(dir.history) + [dir.fs]
    {
      ghost var fs := dir.fs;
      ghost var db := Contents();
      assert Has(fs, Dir(id), handle) && Has(fs, Running, pointer);
      SetNodeWellFormed(fs, handle, Tree(db[key := val], true));
      var t := dir.fs.nodes[handle];
      dir.Enter(dir.fs.(nodes := dir.fs.nodes[handle := Tree(t.db[key := val], true)]));
      assert forall n, w :: Possible(dir.fs, n, w) <==> Possible(fs, n, w);
    }

    /** getBytes: a missing key reads as the empty value. */
    method GetBytes(key: bytes) returns (r: Outcome<bytes>)
      requires Valid()
      ensures closed ==> r == Err(Closed)
      ensures !closed ==> r == Ok(if key in Contents() then Contents()[key] else [])
    {
      if closed {
        return Err(Closed);
      }
      var db := dir.fs.nodes[handle].db;
      r := Ok(if key in db then db[key] else []);
    }

    /**
     The record loop of recoverSnapShot with its write batch: commit every hundred records, and once more if
     something is pending at the end. The outcome is that of the format, and on success the new database holds
     exactly the records, none of them left in the batch that is destroyed. `stages` are the commits on the way: one
     for every hundred records and one for what remains.
     */
    method LoadRecords(src0: Source, newId: bytes, wb: WriteBatch) returns (out: Outcome<()>, ghost stages: seq<Db>)
      requires IsTree(dir.fs, Dir(newId)) && dir.fs.nodes[dir.fs.live[Dir(newId)]] == Tree(map[], false)
      requires wb.db.contents == map[] && wb.pending == []
      modifies dir, wb, wb.db
      ensures match DecodeBody(rt, src0, 0, [])
              case Ok(records) =>
                && out == Ok(()) && wb.db.contents == PutAll(map[], records) && wb.pending == []
                && |stages| == (|records| + 99) / 100
              case Err(e) => out == Err(e)
              case Panic => out == Panic
      ensures dir.fs == Fill(old(dir.fs), newId, wb.db.contents, false)
      ensures |dir.history| == |old(dir.history)| + |stages| && dir.history[..|old(dir.history)|] == old(dir.history)
      ensures forall i :: 0 <= i < |stages| ==>
        dir.history[|old(dir.history)| + i] == Fill(old(dir.fs), newId, stages[i], false)
      ensures stages == [] ==> wb.db.contents == map[]
      ensures stages != [] ==> stages[|stages| - 1] == wb.db.contents
    {
      hide DecodeBody, Fill, PutAll;
      assert PutAll(map[], []) == map[] by {
        PutAllNone();
      }
      ghost var made := dir.fs;
      MadeIsEmpty(made, newId);
      stages := [];
      var src, sum, k := src0, 0 as bv32, 0;
      ghost var done: seq<Record> := [];
      while true
        invariant DecodeBody(rt, src, sum, done) == DecodeBody(rt, src0, 0, [])
        invariant wb.Outlook() == PutAll(map[], done)
        invariant k == |wb.pending| < 100 && |done| == 100 * |stages| + k
        invariant dir.fs == Fill(made, newId, wb.db.contents, false)
        invariant |dir.history| == |old(dir.history)| + |stages|
          && dir.history[..|old(dir.history)|] == old(dir.history)
        invariant forall i :: 0 <= i < |stages| ==>
          dir.history[|old(dir.history)| + i] == Fill(made, newId, stages[i], false)
        invariant stages == [] ==> wb.db.contents == map[]
        invariant stages != [] ==> stages[|stages| - 1] == wb.db.contents
        decreases |src.data|
      {
        var turn := ReadRecord(rt, src, sum, done);
        match turn {
          case End => break;
          case Fail(e) => return Err(e), stages;
          case Die => return Panic, stages;
          case Got(key, val, rest, sum') =>
            PutAllOne(done, Record(key, val));
            done := done + [Record(key, val)];
            src, sum := rest, sum';
            wb.Put(key, val);
        }
        k := k + 1;
        if k >= 100 {
          k := 0;
          stages := CommitBatch(made, newId, wb, stages);
        }
      }
      if k > 0 {
        stages := CommitBatch(made, newId, wb, stages);
      }
      wb.Destroy();
      out := Ok(());
    }

    /** wb.Commit: the batch reaches the new database directory. */
    method CommitBatch(ghost made: Fs, newId: bytes, wb: WriteBatch, ghost stages: seq<Db>)
      returns (ghost stages': seq<Db>)
      requires IsTree(made, Dir(newId)) && dir.fs == Fill(made, newId, wb.db.contents, false)
      modifies dir, wb, wb.db
      ensures wb.pending == [] && wb.db.contents == old(wb.Outlook()) == wb.Outlook()
      ensures dir.fs == Fill(made, newId, wb.db.contents, false)
      ensures dir.history == old(dir.history) + [dir.fs] && stages' == stages + [wb.db.contents]
    {
      FillTwice(made, newId, wb.db.contents, wb.Outlook(), false);
      wb.Commit();
      dir.Enter(Fill(dir.fs, newId, wb.db.contents, false));
      stages' := stages + [wb.db.contents];
    }

    /** Opening the new directory, loading the records, flushing. */
    method BuildNew(rest: Source, newId: bytes) returns (out: Outcome<Db>, ghost stages: seq<Db>)
      requires Workable(dir.fs)
      modifies dir
      ensures match DecodeBody(rt, rest, 0, [])
              case Ok(records) => out == Ok(PutAll(map[], records))
              case Err(e) => out == Err(e)
              case Panic => out == Panic
      ensures out.Ok? ==>
        && dir.history == old(dir.history) + BuildTrace(old(dir.fs), newId, stages, out.value)
        && dir.fs == Final(BuildTrace(old(dir.fs), newId, stages, out.value))
      ensures !out.Ok? ==>
        && dir.history == old(dir.history) + BuildTrace(old(dir.fs), newId, stages, map[])[..|stages| + 1]
        && dir.fs == BuildTrace(old(dir.fs), newId, stages, map[])[|stages|]
    {
      hide DecodeBody, PutAll;
      dir.Enter(Mkdir(dir.fs, newId));
      ghost var made := dir.fs;
      var db := new Database();
      var wb := new WriteBatch(db);
      var loaded;
      loaded, stages := LoadRecords(rest, newId, wb);
      ghost var trace := BuildTrace(old(dir.fs), newId, stages, wb.db.contents);
      assert dir.history == old(dir.history) + trace[..|stages| + 1];
      if !loaded.Ok? {
        MadeIsEmpty(made, newId);
        assert trace[..|stages| + 1] == BuildTrace(old(dir.fs), newId, stages, map[])[..|stages| + 1];
        out := if loaded.Err? then Err(loaded.error) else Panic;
        return;
      }
      FillTwice(made, newId, wb.db.contents, wb.db.contents, true);
      dir.Enter(Fill(dir.fs, newId, wb.db.contents, true));
      out := Ok(wb.db.contents);
    }

    /**
     recoverSnapShot, with the first failing system call given by `fault`; of the removal by cleanupNewDB, whose
     error is ignored, `sweep` system calls go through.

     It is all or nothing up to the rename: unless the rename goes through, the live database, the pointer and the
     old directory are as before in every state on the way, whatever a crash makes of it, and after an error the new
     directory is gone if its removal went through. When it switches, also if the old directory then cannot be
     removed, the live database is exactly what the snapshot describes. When the directory sync fails the pointer
     has changed, but the live database is still the old one, whole. Every system call is accounted for. A reader
     that reports an error never makes it switch.
     */
    method RecoverSnapShot(src: Source, newId: bytes, fault: Fault, sweep: nat)
      returns (out: Outcome<Header>, ghost stages: seq<Db>)
      requires Valid() && Fresh(dir.fs, newId)
      modifies this`id, this`handle, this`pointer, dir
      ensures out == Verdict(rt, src, fault)
      ensures |old(dir.history)| <= |dir.history| && dir.history[..|old(dir.history)|] == old(dir.history)
      ensures !Switches(rt, src, fault) && !Breaks(rt, src, fault) ==>
        && Valid() && id == old(id) && handle == old(handle) && pointer == old(pointer)
        && Contents() == old(Contents()) && (out.Err? && sweep >= 2 ==> Dir(newId) !in dir.fs.live)
        && Serves(dir.history, |old(dir.history)|, dir.cfg, pointer, id, handle, Contents())
      ensures src.ending == Broken ==>
        && !out.Ok? && Valid() && id == old(id) && handle == old(handle) && pointer == old(pointer)
        && Contents() == old(Contents())
      ensures Switches(rt, src, fault) ==>
        && Valid() && id == newId && Contents() == Restored(rt, src)
        && dir.history == old(dir.history)
           + RestoreHistory(dir.cfg, old(dir.fs), newId, stages, Restored(rt, src), old(id), fault)
      ensures Breaks(rt, src, fault) ==>
        && id == old(id) && handle == old(handle) && Kept(dir.fs, id, handle, old(Contents()))
        && dir.fs == BrokenState(dir.cfg, old(dir.fs), newId, stages, Restored(rt, src), sweep)
        && dir.history == old(dir.history)
           + BrokenHistory(dir.cfg, old(dir.fs), newId, stages, Restored(rt, src), old(id), sweep)
    {
      hide UpOk, DecodeBody, DecodeHeader, PutAll, RestoreHistory, BrokenHistory, BrokenState, CurrentId, Kept;
      stages := [];
      if src.ending == Broken {
        BrokenVerdict(rt, src, fault);
      }
      ValidFacts(newId);
      var header := DecodeHeader(src);
      if !header.Ok? {
        return if header.Err? then Err(header.error) else Panic, stages;
      }
      if fault == OpenFails {
        return Err(OpenFailed), stages;
      }
      var done;
      done, stages := Rebuild(header.value.1, newId, CurrentId(dir.cfg, dir.fs), fault, sweep);
      out := if done.Ok? then Ok(header.value.0) else if done.Err? then Err(done.error) else Panic;
    }

    lemma ValidFacts(newId: bytes)
      requires Valid() && Fresh(dir.fs, newId)
      ensures CurrentId(dir.cfg, dir.fs) == id && Dir(newId) !in dir.fs.live && id != newId && Workable(dir.fs)
    {
      SettledPath(dir.cfg, dir.fs, pointer, id, handle, Contents());
      SettledWorkable(dir.cfg, dir.fs, pointer, id, handle, Contents());
    }

    /** recoverSnapShot from the opening of the new database on. */
    method Rebuild(rest: Source, newId: bytes, oldId: bytes, fault: Fault, sweep: nat)
      returns (out: Outcome<()>, ghost stages: seq<Db>)
      requires Valid() && Fresh(dir.fs, newId) && Workable(dir.fs) && oldId == id && id != newId && fault != OpenFails
      modifies this`id, this`handle, this`pointer, dir
      ensures match DecodeBody(rt, rest, 0, [])
              case Err(e) => out == Err(e)
              case Panic => out == Panic
              case Ok(_) => out == PublishVerdict(fault)
      ensures |old(dir.history)| <= |dir.history| && dir.history[..|old(dir.history)|] == old(dir.history)
      ensures !DecodeBody(rt, rest, 0, []).Ok? || (!Passes(fault) && fault != SyncFails) ==>
        && Valid() && id == old(id) && handle == old(handle) && pointer == old(pointer)
        && Contents() == old(Contents()) && (out.Err? && sweep >= 2 ==> Dir(newId) !in dir.fs.live)
        && Serves(dir.history, |old(dir.history)|, dir.cfg, pointer, id, handle, Contents())
      ensures DecodeBody(rt, rest, 0, []).Ok? ==>
        var db' := PutAll(map[], DecodeBody(rt, rest, 0, []).value);
        && (Passes(fault) ==>
              && Valid() && id == newId && Contents() == db'
              && dir.history == old(dir.history)
                + RestoreHistory(dir.cfg, old(dir.fs), newId, stages, db', old(id), fault))
        && (fault == SyncFails ==>
              && id == old(id) && handle == old(handle) && Kept(dir.fs, id, handle, old(Contents()))
              && dir.fs == BrokenState(dir.cfg, old(dir.fs), newId, stages, db', sweep)
              && dir.history == old(dir.history)
                 + BrokenHistory(dir.cfg, old(dir.fs), newId, stages, db', old(id), sweep))
    {
      hide UpOk, DecodeBody, PutAll, BuildTrace, BeforePublish, RemoveTrace, PublishHistory, Published, FailureStates,
           Kept, Serves, FailedTrace, Fresh, Digests, Passes, PublishVerdict;
      ghost var fs, p, t, db := dir.fs, pointer, handle, Contents();
      ghost var start := |dir.history|;
      ServesNone(dir.history, dir.cfg, p, id, t, db);
      OkDb(dir.cfg, fs, p, id, t, db);
      var u := dir.fs.next;
      var built;
      built, stages := BuildNew(rest, newId);
      ghost var db' := if built.Ok? then built.value else map[];
      BuildServes(dir.cfg, fs, newId, stages, db', p, id, t, db);
      if !built.Ok? {
        ServesMore(old(dir.history), BuildTrace(fs, newId, stages, db')[..|stages| + 1], start, dir.cfg, p, id, t, db);
        OkDb(dir.cfg, dir.fs, p, id, t, db);
        if built.Panic? {
          return Panic, stages;
        }
        GiveUp(fs, newId, stages, db', |stages| + 1, false, sweep, start, p, t, db);
        return Err(built.error), stages;
      }
      ServesMore(old(dir.history), BuildTrace(fs, newId, stages, db'), start, dir.cfg, p, id, t, db);
      out := Publish(newId, oldId, u, fault, sweep, fs, stages, db', start, p, t, db);
    }

    /**
     The end of recoverSnapShot: save the name, rename, sync, swap, remove the old directory. The restore started
     from the file system `fs` when the history had length `start`.
     */
    method Publish(newId: bytes, oldId: bytes, u: Ino, fault: Fault, sweep: nat, ghost fs: Fs, ghost stages: seq<Db>,
                   ghost db': Db, ghost start: nat, ghost p: Ino, ghost t: Ino, ghost db: Db) returns (out: Outcome<()>)
      requires Workable(fs) && Fresh(fs, newId) && UpOk(dir.cfg, fs, p, id, t, db) && Digests(dir.cfg)
      requires handle == t && pointer == p && u == fs.next && oldId == id && id != newId && fault != OpenFails
      requires dir.fs == Final(BuildTrace(fs, newId, stages, db')) && Serves(dir.history, start, dir.cfg, p, id, t, db)
      modifies this`id, this`handle, this`pointer, dir
      ensures out == PublishVerdict(fault)
      ensures |old(dir.history)| <= |dir.history| && dir.history[..|old(dir.history)|] == old(dir.history)
      ensures !Passes(fault) && fault != SyncFails ==>
        && Valid() && id == old(id) && handle == t && pointer == p && Contents() == db
        && (out.Err? && sweep >= 2 ==> Dir(newId) !in dir.fs.live)
        && Serves(dir.history, start, dir.cfg, p, id, t, db)
      ensures Passes(fault) ==>
        && Valid() && id == newId && Contents() == db'
        && dir.history == old(dir.history)
          + PublishHistory(dir.cfg, fs, newId, stages, db', old(id))[..7 + Swept(fault)]
      ensures fault == SyncFails ==>
        && id == old(id) && handle == t && Kept(dir.fs, id, t, db)
        && dir.fs == BrokenState(dir.cfg, fs, newId, stages, db', sweep)
        && dir.history == old(dir.history) + PublishHistory(dir.cfg, fs, newId, stages, db', old(id))[..6]
           + RemoveTrace(Published(dir.cfg, fs, newId, stages, db'), newId)[..AtMost(sweep, 2)]
    {
      hide UpOk, BuildTrace, BeforePublish, RemoveTrace, Rename, Published, AfterPublish, Fresh, PublishHistory,
        Either, Serves, ReadyToRename, ReplaceHistory, Swept, FailedTrace, Workable, Digests, BrokenState, Kept,
        Passes, PublishVerdict, SaveVerdict, Final;
      PublishCases(fault);
      out := SaveName(newId, fault, sweep, fs, stages, db', start, p, t, db);
      if !out.Ok? {
        return;
      }
      if fault == RenameFails {
        GiveUp(fs, newId, stages, db', |stages| + 7, false, sweep, start, p, t, db);
        return Err(PublishFailed);
      }
      RenameParts(dir.cfg, fs, newId, stages, db', p, id, t, db);
      HistoryParts(dir.cfg, fs, newId, stages, db', id, fault, sweep);
      ghost var q := dir.fs.live[Updating];
      ghost var saves := BeforePublish(dir.cfg, fs, newId, stages, db')[|stages| + 3..];
      ghost var replaced := ReplaceHistory(dir.cfg, fs, newId, stages, db', id, fault, sweep);
      out := Replace(newId, oldId, u, fault, sweep, fs, stages, db', p, t, db, q);
      Regroup(old(dir.history), saves, replaced);
      Regroup(old(dir.history), PublishHistory(dir.cfg, fs, newId, stages, db', old(id))[..6],
              RemoveTrace(Published(dir.cfg, fs, newId, stages, db'), newId)[..AtMost(sweep, 2)]);
    }

    /** saveCurrentDBDirName, and cleanupNewDB if it fails. */
    method SaveName(newId: bytes, fault: Fault, sweep: nat, ghost fs: Fs, ghost stages: seq<Db>,
                    ghost db': Db, ghost start: nat, ghost p: Ino, ghost t: Ino, ghost db: Db)
                      returns (out: Outcome<()>)
      requires Workable(fs) && Fresh(fs, newId) && UpOk(dir.cfg, fs, p, id, t, db) && Digests(dir.cfg)
      requires handle == t && pointer == p && id != newId
      requires dir.fs == Final(BuildTrace(fs, newId, stages, db')) && Serves(dir.history, start, dir.cfg, p, id, t, db)
      modifies dir
      ensures out == if fault.SaveFails? then SaveVerdict(fault.step, fault.dies) else Ok(())
      ensures |old(dir.history)| <= |dir.history| && dir.history[..|old(dir.history)|] == old(dir.history)
      ensures Serves(dir.history, start, dir.cfg, p, id, t, db)
      ensures Valid() && Contents() == db && (out.Err? && sweep >= 2 ==> Dir(newId) !in dir.fs.live)
      ensures out.Ok? ==>
        var before := BeforePublish(dir.cfg, fs, newId, stages, db');
        dir.history == old(dir.history) + before[|stages| + 3..] && dir.fs == Final(before) == before[|stages| + 7]
    {
      hide UpOk, BuildTrace, BeforePublish, SaveTrace, RemoveTrace, Rename, Published, AfterPublish, Fresh,
        PublishHistory, Either, FailedTrace;
      ghost var before := BeforePublish(dir.cfg, fs, newId, stages, db');
      SaveParts(dir.cfg, fs, newId, stages, db', p, id, t, db);
      var step := if fault.SaveFails? then fault.step else 4;
      out := dir.SaveCurrentDBDirName(Join(dir.cfg.base, newId), step, fault.SaveFails? && fault.dies);
      ghost var made := if out.Ok? then 5 else AtMost(step, 4);
      SaveServes(old(dir.history), start, dir.cfg, fs, newId, stages, db', made, p, id, t, db);
      if out.Err? {
        if step > 0 {
          DeferredServes(dir.cfg, before, |stages| + 2 + step, p, id, t, db);
          ServesMore(old(dir.history) + before[|stages| + 3..][..made], [dir.fs], start, dir.cfg, p, id, t, db);
        }
        GiveUp(fs, newId, stages, db', |stages| + 2 + step, step > 0, sweep, start, p, t, db);
        return;
      }
      assert before[|stages| + 2 + made] in before;
      OkDb(dir.cfg, dir.fs, p, id, t, db);
    }

    /** replaceCurrentDBFile once the rename goes through, and what follows. */
    method Replace(newId: bytes, oldId: bytes, u: Ino, fault: Fault, sweep: nat, ghost fs: Fs, ghost stages: seq<Db>,
                   ghost db': Db, ghost p: Ino, ghost t: Ino, ghost db: Db, ghost q: Ino) returns (out: Outcome<()>)
      requires Workable(fs) && Digests(dir.cfg) && oldId == id != newId && u == fs.next
      requires fault == SyncFails || Passes(fault)
      requires ReadyToRename(dir.cfg, dir.fs, fs, newId, stages, db', p, id, t, db, q)
      modifies this`id, this`handle, this`pointer, dir
      ensures out == PublishVerdict(fault)
      ensures dir.history == old(dir.history) + ReplaceHistory(dir.cfg, fs, newId, stages, db', old(id), fault, sweep)
      ensures
        if fault == SyncFails then
          && id == old(id) && handle == old(handle) && Kept(dir.fs, id, t, db)
          && dir.fs == BrokenState(dir.cfg, fs, newId, stages, db', sweep)
        else Valid() && id == newId && Contents() == db'
    {
      hide UpOk, Either, RemoveTrace, Rename, Published, Kept;
      ghost var after := AfterPublish(dir.cfg, fs, newId, stages, db', id);
      AfterPublishSafe(dir.cfg, fs, newId, stages, db', p, id, t, db, q);
      assert forall s :: s in after ==> UpOk(dir.cfg, s, q, newId, u, db') by {
        AfterServes(dir.cfg, after, q, newId, u, db');
      }
      dir.Enter(Rename(dir.fs));
      if fault == SyncFails {
        SweepKeeps(dir.cfg, dir.fs, p, id, t, db, q, newId, u, db', AtMost(sweep, 2));
        var _ := dir.RemoveAll(newId, sweep);
        return Err(PublishFailed);
      }
      out := SwitchOver(newId, oldId, u, if fault.RemoveFails? then fault.step else 3, after, q, db');
    }

    /** After the rename: sync, swap, remove the old directory, sync; step `fault` of the removal fails. */
    method SwitchOver(newId: bytes, oldId: bytes, u: Ino, fault: nat, ghost after: seq<Fs>, ghost q: Ino, ghost db': Db)
      returns (out: Outcome<()>)
      requires Digests(dir.cfg)
      requires
        var synced := SyncDir(dir.fs);
        after == [synced] + RemoveTrace(synced, oldId) + [SyncDir(RemoveTrace(synced, oldId)[1])]
      requires forall s :: s in after ==> UpOk(dir.cfg, s, q, newId, u, db')
      modifies this`id, this`handle, this`pointer, dir
      ensures out == if fault < 3 then Err(Cleanup) else Ok(())
      ensures Valid() && id == newId && handle == u && pointer == q && Contents() == db'
      ensures dir.history == old(dir.history) + after[..1 + AtMost(fault, 3)]
    {
      hide UpOk, RemoveTrace;
      dir.Enter(SyncDir(dir.fs));
      id, handle, pointer := newId, u, q;
      ghost var removed := RemoveTrace(dir.fs, oldId);
      var gone := dir.RemoveAll(oldId, fault);
      ghost var n := AtMost(fault, 2);
      assert after[..1 + n] == [after[0]] + removed[..n];
      assert dir.fs == after[n];
      Served(dir.cfg, after, n, dir.fs, q, newId, u, db');
      if !gone || fault == 2 {
        return Err(Cleanup);
      }
      dir.Enter(SyncDir(dir.fs));
      assert after[..4] == [after[0]] + removed[..2] + [after[3]];
      Served(dir.cfg, after, 3, dir.fs, q, newId, u, db');
      out := Ok(());
    }

    /** cleanupNewDB on a path that gives up before the rename; `sweep` system calls of the removal go through. */
    method GiveUp(ghost fs: Fs, newId: bytes, ghost stages: seq<Db>, ghost db': Db, ghost k: nat, ghost deferred: bool,
                  sweep: nat, ghost start: nat, ghost p: Ino, ghost t: Ino, ghost db: Db)
      requires Workable(fs) && Fresh(fs, newId) && UpOk(dir.cfg, fs, p, id, t, db) && k < |stages| + 8
        && Digests(dir.cfg)
      requires handle == t && pointer == p && Serves(dir.history, start, dir.cfg, p, id, t, db)
      requires
        var stop := BeforePublish(dir.cfg, fs, newId, stages, db')[k];
        dir.fs == if deferred then SyncDir(stop) else stop
      modifies dir
      ensures Valid() && Contents() == db && (sweep >= 2 ==> Dir(newId) !in dir.fs.live)
      ensures dir.history ==
        old(dir.history) + FailedTrace(dir.cfg, fs, newId, stages, db', k, deferred)[1..][..AtMost(sweep, 2)]
      ensures Serves(dir.history, start, dir.cfg, p, id, t, db)
    {
      hide UpOk, BeforePublish, RemoveTrace;
      ghost var failed := FailedTrace(dir.cfg, fs, newId, stages, db', k, deferred);
      FailedServes(dir.cfg, fs, newId, stages, db', k, deferred, p, id, t, db);
      ghost var n := AtMost(sweep, 2);
      assert failed[1..] == RemoveTrace(dir.fs, newId);
      var _ := dir.RemoveAll(newId, sweep);
      ServesMore(old(dir.history), failed[1..][..n], start, dir.cfg, p, id, t, db);
      assert dir.fs == failed[n];
      OkDb(dir.cfg, dir.fs, p, id, t, db);
    }

    /**
     Damage is harmless: a snapshot cut short where that is not accepted, with up to four bytes of a key or a
     compressed value overwritten, or with another trailer, is refused with an error whatever else fails, and the
     live database, the pointer and the directories are as before.
     */
    method RefuseDamaged(nodeId: bytes, lastIndex: nat, timestamp: int, records: seq<Record>, d: Damage,
                         newId: bytes, fault: Fault, sweep: nat) returns (out: Outcome<Header>)
      requires Valid() && Fresh(dir.fs, newId)
      requires Lossless(rt) && HeaderFields(lastIndex, timestamp) && Restorable(rt, nodeId, records)
      requires Harms(rt, nodeId, records, d)
      modifies this`id, this`handle, this`pointer, dir
      ensures out.Err? && Valid() && id == old(id) && pointer == old(pointer) && Contents() == old(Contents())
      ensures sweep >= 2 ==> Dir(newId) !in dir.fs.live
      ensures |old(dir.history)| <= |dir.history| && dir.history[..|old(dir.history)|] == old(dir.history)
      ensures Serves(dir.history, |old(dir.history)|, dir.cfg, pointer, id, handle, Contents())
    {
      hide UpOk, DecodeSnapshot, SnapshotBytes, Damaged, Harms, Restorable, Serves, Lossless, Passes, PublishVerdict;
      var all := SnapshotBytes(rt, nodeId, lastIndex, timestamp, records);
      var src := Source(Damaged(rt, nodeId, records, all, d), Eof);
      DamageDetected(rt, nodeId, lastIndex, timestamp, records, d);
      RefusedVerdict(rt, src, fault);
      ghost var stages;
      out, stages := RecoverSnapShot(src, newId, fault, sweep);
    }
  }

  /** What newStore comes back with: a store on this data directory, one on a path outside it, an error, or a panic. */
  datatype Opening = Serving(store: Store) | ServingElsewhere(path: bytes) | Refused | Died

  /** Everything the environment decides about a start: directory entries, errors, and the name a first run draws. */
  datatype Starting = Starting(order: seq<bytes>, elsewhere: bytes -> bool, lists: bool, budget: nat, opens: bool,
                               newId: bytes, saveFault: nat, dies: bool, replaceFault: nat)

  /** No error is reported on the way. */
  predicate Smooth(env: Starting, cfg: Config, fs: Fs) {
    && env.opens
    && if Running in fs.live then env.lists && env.budget >= |StartTrace(cfg, fs, env.order)| - 2
       else env.saveFault > 3 && !env.dies && env.replaceFault >= 2
  }

  /**
   newStore. Without a pointer file a first run makes an empty, safe store; with one, startup decides, and on a
   safely published database the store holds exactly that. An error on the way never yields a store.
   */
  method NewStore(rt: Runtime, dir: DataDirectory, env: Starting, ghost p: Ino, ghost id: bytes, ghost t: Ino,
                  ghost db: Db)
    returns (r: Opening)
    requires Digests(dir.cfg) && WellFormed(dir.fs) && NoSlash(env.newId) && Dir(env.newId) !in dir.fs.live
    modifies dir
    ensures !Smooth(env, dir.cfg, old(dir.fs)) ==> !r.Serving? && !r.ServingElsewhere?
    ensures Smooth(env, dir.cfg, old(dir.fs)) && Running !in old(dir.fs).live ==>
      && r.Serving? && r.store.dir == dir && r.store.id == env.newId && r.store.Valid() && r.store.Contents() == map[]
      && Workable(old(dir.fs)) && dir.history == old(dir.history) + FirstRunTrace(dir.cfg, old(dir.fs), env.newId)
    ensures Smooth(env, dir.cfg, old(dir.fs)) && Running in old(dir.fs).live ==>
      match Startup(dir.cfg, old(dir.fs), env.order, env.elsewhere)
      case Opened(_, found) => r.Serving? && r.store.dir == dir && r.store.id == found
      case OpenedElsewhere(_, path) => r == ServingElsewhere(path)
      case StartFailed(_, _) => r == Refused
    ensures (&& Smooth(env, dir.cfg, old(dir.fs))
             && Settled(dir.cfg, old(dir.fs), p, id, t, db) && Lists(env.order, old(dir.fs))) ==>
      r.Serving? && r.store.Valid() && r.store.id == id && r.store.Contents() == db
  {
    hide Settled, UpOk, StartTrace, FirstRunTrace, WellFormed, CurrentPath;
    ghost var fs := dir.fs;
    WellFormedWorkable(fs);
    if Running !in dir.fs.live {
      var out := dir.NewPebbleDBDir(env.newId, env.saveFault, env.dies, env.replaceFault);
      NotSettled(dir.cfg, fs, p, id, t, db);
      if !out.Ok? {
        return if out.Panic? then Died else Refused;
      }
      if !env.opens {
        return Refused;
      }
      FirstRunSteps(dir.cfg, fs, env.newId);
      dir.Enter(Fill(Mkdir(dir.fs, env.newId), env.newId, map[], true));
      dir.Enter(SyncDir(dir.fs));
      var q := FirstRunSettles(dir.cfg, fs, env.newId);
      var made := new Store(rt, dir, env.newId, q, map[]);
      r := Serving(made);
      return;
    }
    var start := dir.GetPebbleDBDir(env.order, env.elsewhere, env.lists, env.budget);
    if Digests(dir.cfg) && Settled(dir.cfg, fs, p, id, t, db) && Lists(env.order, fs) {
      SettledStart(dir.cfg, fs, env.order, env.elsewhere, p, id, t, db);
    }
    if CurrentPath(dir.cfg, Unlink(fs, Updating)).None? {
      NoPointerFails(dir.cfg, fs, env.order, env.elsewhere);
    }
    if start.StartFailed? || !env.opens {
      return Refused;
    }
    if start.OpenedElsewhere? {
      return ServingElsewhere(start.path);
    }
    OpenedIsTree(dir.cfg, fs, env.order, env.elsewhere);
    var store := new Store(rt, dir, start.id, p, db);
    r := Serving(store);
  }

  lemma NotSettled(cfg: Config, fs: Fs, p: Ino, id: bytes, t: Ino, db: Db)
    requires Running !in fs.live
    ensures !Settled(cfg, fs, p, id, t, db)
  {
  }

  lemma FirstRunSteps(cfg: Config, fs: Fs, id: bytes)
    requires WellFormed(fs) && Workable(fs) && NoSlash(id) && Dir(id) !in fs.live
    ensures
      var trace := FirstRunTrace(cfg, fs, id);
      var made := Mkdir(trace[6], id);
      && IsTree(made, Dir(id)) && trace[7] == Fill(made, id, map[], true) && trace[8] == SyncDir(trace[7])
      && trace == trace[..7] + [trace[7], trace[8]]
  {
    hide SaveTrace, Rename;
  }

  lemma FirstRunSettles(cfg: Config, fs: Fs, id: bytes) returns (q: Ino)
    requires WellFormed(fs) && Workable(fs) && NoSlash(id) && Dir(id) !in fs.live
    ensures
      var end := FirstRunTrace(cfg, fs, id)[8];
      Dir(id) in end.live && UpOk(cfg, end, q, id, end.live[Dir(id)], map[])
  {
    hide FirstRunTrace;
    FirstRunOpens(cfg, fs, id);
    var end := FirstRunTrace(cfg, fs, id)[8];
    assert end == Final(FirstRunTrace(cfg, fs, id));
    var p, t :| UpOk(cfg, end, p, id, t, map[]);
    q := p;
  }

  lemma SettledStart(cfg: Config, fs: Fs, order: seq<bytes>, elsewhere: bytes -> bool, p: Ino, id: bytes, t: Ino,
                     db: Db)
    requires Digests(cfg) && Settled(cfg, fs, p, id, t, db) && Lists(order, fs)
    ensures
      var r := Startup(cfg, fs, order, elsewhere);
      && r == Opened(r.fs, id) && Dir(id) in r.fs.live && UpOk(cfg, r.fs, p, id, r.fs.live[Dir(id)], db)
  {
    hide Startup, StartTrace;
    StartupOpens(cfg, fs, order, elsewhere, p, id, t, db);
  }

  lemma OpenedIsTree(cfg: Config, fs: Fs, order: seq<bytes>, elsewhere: bytes -> bool)
    requires Startup(cfg, fs, order, elsewhere).Opened?
    ensures
      var r := Startup(cfg, fs, order, elsewhere);
      IsTree(r.fs, Dir(r.id))
  {
    hide StartTrace, CurrentPath;
  }

  /** Without a readable pointer startup fails whatever the directory listing. */
  lemma NoPointerFails(cfg: Config, fs: Fs, order: seq<bytes>, elsewhere: bytes -> bool)
    requires CurrentPath(cfg, Unlink(fs, Updating)).None?
    ensures Startup(cfg, fs, order, elsewhere).StartFailed?
  {
    hide CurrentPath, Unlink;
  }

  lemma RefusedVerdict(rt: Runtime, src: Source, fault: Fault)
    requires DecodeSnapshot(rt, src).Err?
    ensures Verdict(rt, src, fault).Err? && !Switches(rt, src, fault) && !Breaks(rt, src, fault)
  {
  }

  lemma BrokenVerdict(rt: Runtime, src: Source, fault: Fault)
    requires src.ending == Broken
    ensures !Verdict(rt, src, fault).Ok? && !Switches(rt, src, fault) && !Breaks(rt, src, fault)
  {
    hide DecodeSnapshot, Verdict;
    BrokenNeverAccepted(rt, src.data);
    VerdictExactly(rt, src, fault);
  }

  lemma Regroup(a: seq<Fs>, b: seq<Fs>, c: seq<Fs>)
    ensures a + b + c == a + (b + c)
  {
  }

  /** Which of the steps of Publish decides its outcome. */
  lemma PublishCases(fault: Fault)
    ensures
      var saved := if fault.SaveFails? then SaveVerdict(fault.step, fault.dies) else Ok(());
      && (!saved.Ok? ==> PublishVerdict(fault) == saved && !Passes(fault))
      && (fault == RenameFails ==> PublishVerdict(fault) == Err(PublishFailed) && !Passes(fault))
      && (fault == SyncFails ==> !Passes(fault))
      && (saved.Ok? && fault != RenameFails && fault != SyncFails && fault != OpenFails ==> Passes(fault))
  {
  }

  lemma OkDb(cfg: Config, fs: Fs, p: Ino, id: bytes, t: Ino, db: Db)
    requires UpOk(cfg, fs, p, id, t, db)
    ensures t in fs.nodes && fs.nodes[t] == Tree(db, true)
  {
    LiveDb(cfg, fs, p, id, t, db);
  }

  lemma BuildServes(cfg: Config, fs: Fs, id': bytes, stages: seq<Db>, db': Db, p: Ino, id: bytes, t: Ino, db: Db)
    requires UpOk(cfg, fs, p, id, t, db) && Fresh(fs, id') && Workable(fs)
    ensures forall s :: s in BuildTrace(fs, id', stages, db') ==> UpOk(cfg, s, p, id, t, db)
    ensures
      var before := BeforePublish(cfg, fs, id', stages, db');
      && before[1..|stages| + 3] == BuildTrace(fs, id', stages, db')
      && before[|stages| + 1] == BuildTrace(fs, id', stages, db')[|stages|]
  {
    hide Settled, BuildTrace;
    BuildQuiet(cfg, fs, id', stages, db', p, id, t, db);
    BeforePublishIs(cfg, fs, id', stages, db');
  }

  lemma FailedServes(cfg: Config, fs: Fs, id': bytes, stages: seq<Db>, db': Db, k: nat, deferred: bool,
                     p: Ino, id: bytes, t: Ino, db: Db)
    requires UpOk(cfg, fs, p, id, t, db) && Fresh(fs, id') && Workable(fs) && k < |stages| + 8
    ensures
      var failed := FailedTrace(cfg, fs, id', stages, db', k, deferred);
      (forall s :: s in failed ==> UpOk(cfg, s, p, id, t, db)) && Dir(id') !in failed[2].live
  {
    hide Settled, FailedTrace;
    FailedSafe(cfg, fs, id', stages, db', k, deferred, p, id, t, db);
  }

  /** The saving of the name continues the restore where the building ended. */
  lemma SaveParts(cfg: Config, fs: Fs, id': bytes, stages: seq<Db>, db': Db, p: Ino, id: bytes, t: Ino, db: Db)
    requires UpOk(cfg, fs, p, id, t, db) && Fresh(fs, id') && Workable(fs)
    ensures Workable(Final(BuildTrace(fs, id', stages, db')))
    ensures
      var before := BeforePublish(cfg, fs, id', stages, db');
      && before[|stages| + 2] == Final(BuildTrace(fs, id', stages, db'))
      && before[|stages| + 3..] == SaveTrace(cfg, Final(BuildTrace(fs, id', stages, db')), Join(cfg.base, id'))
      && (forall s :: s in before ==> UpOk(cfg, s, p, id, t, db))
      && Final(before) == before[|stages| + 7]
  {
    hide Settled, Leads, BuildTrace, SaveTrace, Fresh, Workable;
    BeforePublishSafe(cfg, fs, id', stages, db', p, id, t, db);
    BuiltWorkable(fs, id', stages, db');
  }

  /** The next rename publishes the new database, and a crash right after it finds one of the two. */
  ghost predicate ReadyToRename(cfg: Config, now: Fs, fs: Fs, id': bytes, stages: seq<Db>, db': Db,
                                p: Ino, id: bytes, t: Ino, db: Db, q: Ino) {
    && Workable(fs) && Updating in now.live && Rename(now) == Published(cfg, fs, id', stages, db')
    && Either(cfg, Rename(now), p, id, t, db, q, id', fs.next, db')
  }

  lemma RenameParts(cfg: Config, fs: Fs, id': bytes, stages: seq<Db>, db': Db, p: Ino, id: bytes, t: Ino, db: Db)
    requires UpOk(cfg, fs, p, id, t, db) && Fresh(fs, id') && Workable(fs)
    ensures
      var end := BeforePublish(cfg, fs, id', stages, db')[|stages| + 7];
      Updating in end.live && ReadyToRename(cfg, end, fs, id', stages, db', p, id, t, db, end.live[Updating])
  {
    hide Settled, Leads, Either, BuildTrace, SaveTrace, Rename, Fresh, Workable;
    BeforePublishSafe(cfg, fs, id', stages, db', p, id, t, db);
    var before := BeforePublish(cfg, fs, id', stages, db');
    assert Final(before) in before;
    RenameSafe(cfg, Final(before), p, id, t, db, id', fs.next, db');
  }

  lemma HistoryParts(cfg: Config, fs: Fs, id': bytes, stages: seq<Db>, db': Db, id: bytes, fault: Fault, sweep: nat)
    requires Workable(fs)
    ensures
      var h := PublishHistory(cfg, fs, id', stages, db', id);
      var saves := BeforePublish(cfg, fs, id', stages, db')[|stages| + 3..];
      saves + ReplaceHistory(cfg, fs, id', stages, db', id, fault, sweep)
      == if fault == SyncFails then h[..6] + RemoveTrace(Published(cfg, fs, id', stages, db'), id')[..AtMost(sweep, 2)]
         else h[..7 + Swept(fault)]
  {
    hide BeforePublish, AfterPublish, Published, RemoveTrace, Swept;
    var h := PublishHistory(cfg, fs, id', stages, db', id);
    var saves := BeforePublish(cfg, fs, id', stages, db')[|stages| + 3..];
    assert h[..6] == saves + [Published(cfg, fs, id', stages, db')];
  }

  /** The first `n` steps of the saving keep the database published; at most five are made. */
  lemma SaveServes(h: seq<Fs>, start: nat, cfg: Config, fs: Fs, id': bytes, stages: seq<Db>, db': Db, n: nat,
                   p: Ino, id: bytes, t: Ino, db: Db)
    requires Workable(fs) && Serves(h, start, cfg, p, id, t, db)
    requires forall s :: s in BeforePublish(cfg, fs, id', stages, db') ==> UpOk(cfg, s, p, id, t, db)
    ensures
      var before := BeforePublish(cfg, fs, id', stages, db');
      var k := AtMost(n, 5);
      && Serves(h + before[|stages| + 3..][..k], start, cfg, p, id, t, db)
      && before[|stages| + 3..][..k] == before[|stages| + 3..|stages| + 3 + k]
      && (k > 0 ==> before[|stages| + 2 + k] in before)
  {
    hide UpOk, BeforePublish;
    var before := BeforePublish(cfg, fs, id', stages, db');
    ServesMore(h, before[|stages| + 3..][..AtMost(n, 5)], start, cfg, p, id, t, db);
  }

  lemma DeferredServes(cfg: Config, before: seq<Fs>, k: nat, p: Ino, id: bytes, t: Ino, db: Db)
    requires k < |before| && forall s :: s in before ==> UpOk(cfg, s, p, id, t, db)
    ensures UpOk(cfg, SyncDir(before[k]), p, id, t, db)
  {
    hide Settled;
    assert before[k] in before;
    SyncQuiet(cfg, before[k], p, id, t, db);
  }

  lemma AfterServes(cfg: Config, after: seq<Fs>, q: Ino, id: bytes, t: Ino, db: Db)
    requires forall s :: s in after ==> Settled(cfg, s, q, id, t, db) && Guarded(s, q)
    ensures forall s :: s in after ==> UpOk(cfg, s, q, id, t, db)
  {
    hide Settled;
  }

  lemma Served(cfg: Config, after: seq<Fs>, k: nat, fs: Fs, q: Ino, id: bytes, u: Ino, db: Db)
    requires k < |after| && fs == after[k] && forall s :: s in after ==> UpOk(cfg, s, q, id, u, db)
    ensures fs in after && UpOk(cfg, fs, q, id, u, db) && u in fs.nodes && fs.nodes[u] == Tree(db, true)
  {
    assert after[k] in after;
    LiveDb(cfg, fs, q, id, u, db);
  }

  lemma LiveDb(cfg: Config, fs: Fs, p: Ino, id: bytes, t: Ino, db: Db)
    requires Settled(cfg, fs, p, id, t, db)
    ensures t in fs.nodes && fs.nodes[t] == Tree(db, true)
  {
  }

  lemma SettledWorkable(cfg: Config, fs: Fs, p: Ino, id: bytes, t: Ino, db: Db)
    requires Settled(cfg, fs, p, id, t, db)
    ensures Workable(fs)
  {
    WellFormedWorkable(fs);
  }

  lemma MadeIsEmpty(fs: Fs, id: bytes)
    requires IsTree(fs, Dir(id)) && fs.nodes[fs.live[Dir(id)]] == Tree(map[], false)
    ensures Fill(fs, id, map[], false) == fs
  {
  }

  /** The reader's four digest writes amount to one over the whole record. */
  lemma FourUpdates(sum: bv32, a: bytes, b: bytes, c: bytes, d: bytes)
    ensures Update(Update(Update(Update(sum, a), b), c), d) == Update(sum, a + b + c + d)
  {
    hide Update;
    UpdateConcat(sum, a, b);
    UpdateConcat(sum, a + b, c);
    UpdateConcat(sum, a + b + c, d);
  }
}
