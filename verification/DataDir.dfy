/**
 The protocol that switches a node from one database directory to another: a pointer file names the
 current directory, a restore builds a new directory and republishes the pointer, startup follows the
 pointer and removes everything else. Each operation is given by the sequence of file-system states it
 passes through, so that a crash can be placed between any two of its system calls.
 */
module DataDir {
  import opened Bytes
  import opened Snapshot
  import opened Disk

  const SLASH: byte := 0x2F

  /** The data directory as the process spells it, and MD5. */
  datatype Config = Config(base: bytes, md5: bytes -> bytes)

  ghost predicate Digests(cfg: Config) {
    forall b :: |cfg.md5(b)| == 16
  }

  predicate NoSlash(id: bytes) {
    SLASH !in id
  }

  function Join(base: bytes, id: bytes): bytes {
    base + [SLASH] + id
  }

  function BaseName(path: bytes): bytes {
    if path == [] || path[|path| - 1] == SLASH then []
    else BaseName(path[..|path| - 1]) + [path[|path| - 1]]
  }

  lemma {:induction false} BaseNameOfJoin(base: bytes, id: bytes)
    requires NoSlash(id)
    ensures BaseName(Join(base, id)) == id
    decreases |id|
  {
    var path := Join(base, id);
    if id == [] {
    } else {
      var n := |id| - 1;
      assert path[..|path| - 1] == Join(base, id[..n]);
      BaseNameOfJoin(base, id[..n]);
      assert id[n] in id && id == id[..n] + [id[n]];
    }
  }

  lemma JoinInjective(base: bytes, a: bytes, base': bytes, b: bytes)
    requires NoSlash(a) && NoSlash(b) && Join(base, a) == Join(base', b)
    ensures base == base' && a == b
  {
    BaseNameOfJoin(base, a);
    BaseNameOfJoin(base', b);
    assert Join(base, a)[..|base|] == base && Join(base', b)[..|base'|] == base';
  }

  // ---- the pointer file ----

  function Digest(cfg: Config, path: bytes): bytes {
    if |cfg.md5(path)| < 8 then cfg.md5(path) else cfg.md5(path)[..8]
  }

  function PointerBytes(cfg: Config, path: bytes): bytes {
    Digest(cfg, path) + path
  }

  /** getCurrentDBDirName on the content of the file. */
  function ReadPointer(cfg: Config, content: bytes): Option<bytes> {
    if |content| <= 8 then None
    else if content[..8] != Digest(cfg, content[8..]) then None
    else Some(content[8..])
  }

  /** A written pointer reads back as the path it was written for, unless that path is empty. */
  lemma PointerRoundTrip(cfg: Config, path: bytes)
    requires Digests(cfg)
    ensures ReadPointer(cfg, PointerBytes(cfg, path)) == if path == [] then None else Some(path)
  {
    var content := PointerBytes(cfg, path);
    assert content[..8] == Digest(cfg, path) && content[8..] == path;
  }

  /**
   A pointer file reads as `path` exactly if it is the one written for `path`: nothing else passes the digest test.
   */
  lemma ReadPointerExact(cfg: Config, content: bytes, path: bytes)
    requires Digests(cfg)
    ensures ReadPointer(cfg, content) == Some(path) <==> path != [] && content == PointerBytes(cfg, path)
  {
    if path != [] && content == PointerBytes(cfg, path) {
      PointerRoundTrip(cfg, path);
    }
    if ReadPointer(cfg, content) == Some(path) {
      assert content == content[..8] + content[8..];
    }
  }

  /** getCurrentDBDirName: the path the pointer file names now. */
  function CurrentPath(cfg: Config, fs: Fs): Option<bytes> {
    if IsFile(fs, Running) then ReadPointer(cfg, fs.nodes[fs.live[Running]].content) else None
  }

  // ---- what each operation does, state by state ----

  predicate Workable(fs: Fs) {
    (forall i :: i in fs.nodes ==> i < fs.next) && (Updating in fs.live ==> IsFile(fs, Updating))
  }

  /** saveCurrentDBDirName: create, write the digest, write the path, sync the file, sync the directory. */
  function SaveTrace(cfg: Config, fs: Fs, path: bytes): (t: seq<Fs>)
    requires Workable(fs)
    ensures |t| == 5 && IsFile(t[4], Updating)
  {
    var created := Create(fs);
    var digested := Append(created, Digest(cfg, path));
    var written := Append(digested, path);
    var synced := SyncFile(written);
    [created, digested, written, synced, SyncDir(synced)]
  }

  /** replaceCurrentDBFile: rename, sync the directory. */
  function ReplaceTrace(fs: Fs): (t: seq<Fs>)
    requires Updating in fs.live
    ensures |t| == 2
  {
    [Rename(fs), SyncDir(Rename(fs))]
  }

  /** OpenPebbleDB on a new name, the batches committed to it, and the final flush. */
  function BuildTrace(fs: Fs, id: bytes, stages: seq<Db>, db: Db): (t: seq<Fs>)
    ensures |t| == |stages| + 2
    ensures t[|stages| + 1] == Fill(Mkdir(fs, id), id, db, true)
  {
    var made := Mkdir(fs, id);
    [made] + seq(|stages|, k requires 0 <= k < |stages| => Fill(made, id, stages[k], false))
      + [Fill(made, id, db, true)]
  }

  /** os.RemoveAll on a database directory. */
  function RemoveTrace(fs: Fs, id: bytes): (t: seq<Fs>)
    ensures |t| == 2
  {
    [Tear(fs, id), Unlink(Tear(fs, id), Dir(id))]
  }

  function Final(t: seq<Fs>): Fs
    requires t != []
  {
    t[|t| - 1]
  }

  /** The states of a restore up to the rename. */
  function BeforePublish(cfg: Config, fs: Fs, id: bytes, stages: seq<Db>, db: Db): (t: seq<Fs>)
    requires Workable(fs)
    ensures |t| == |stages| + 8 && t[0] == fs && Updating in Final(t).live
  {
    var built := BuildTrace(fs, id, stages, db);
    [fs] + built + SaveTrace(cfg, Final(built), Join(cfg.base, id))
  }

  function Published(cfg: Config, fs: Fs, id: bytes, stages: seq<Db>, db: Db): Fs
    requires Workable(fs)
  {
    Rename(Final(BeforePublish(cfg, fs, id, stages, db)))
  }

  /** The states after the rename: synced, old directory torn and removed, directory synced again. */
  function AfterPublish(cfg: Config, fs: Fs, id: bytes, stages: seq<Db>, db: Db, oldId: bytes): (t: seq<Fs>)
    requires Workable(fs)
    ensures |t| == 4
  {
    var synced := SyncDir(Published(cfg, fs, id, stages, db));
    var removed := RemoveTrace(synced, oldId);
    [synced] + removed + [SyncDir(removed[1])]
  }

  /** A restore that gives up before the rename: after `k` steps, perhaps the deferred directory sync, then cleanup. */
  function FailedTrace(cfg: Config, fs: Fs, id: bytes, stages: seq<Db>, db: Db, k: nat, deferred: bool): (t: seq<Fs>)
    requires Workable(fs) && k < |stages| + 8
    ensures |t| == 3
  {
    var stop := BeforePublish(cfg, fs, id, stages, db)[k];
    var closed := if deferred then SyncDir(stop) else stop;
    [closed] + RemoveTrace(closed, id)
  }

  /** cleanupNodeDataDir: removes, in the order listed, every database directory not spelled like `path`. */
  function CleanupTrace(cfg: Config, fs: Fs, path: bytes, order: seq<bytes>): seq<Fs>
    decreases |order|
  {
    if order == [] then []
    else if Join(cfg.base, order[0]) == path then CleanupTrace(cfg, fs, path, order[1..])
    else
      var removed := RemoveTrace(fs, order[0]);
      removed + CleanupTrace(cfg, removed[1], path, order[1..])
  }

  /** Startup on an existing data directory, up to opening the database. */
  function StartTrace(cfg: Config, fs: Fs, order: seq<bytes>): (t: seq<Fs>)
    ensures |t| >= 2 && t[0] == fs
  {
    var cleaned := Unlink(fs, Updating);
    [fs, cleaned] +
    match CurrentPath(cfg, cleaned)
    case None => []
    case Some(path) => CleanupTrace(cfg, cleaned, path, order)
  }

  datatype StartError = CorruptPointer | DirMissing | IoFailed

  /** A database of this data directory, one at a recorded path outside it, or none. */
  datatype Start = Opened(fs: Fs, id: bytes) | OpenedElsewhere(fs: Fs, path: bytes)
    | StartFailed(fs: Fs, error: StartError)

  /** The recorded path lies in this data directory, spelled as the process spells it. */
  predicate Local(cfg: Config, path: bytes) {
    path == Join(cfg.base, BaseName(path))
  }

  /**
   getPebbleDBDir on an existing data directory. It looks for the path the pointer records, wherever that is:
   `elsewhere` says which paths outside this data directory exist.
   */
  function Startup(cfg: Config, fs: Fs, order: seq<bytes>, elsewhere: bytes -> bool): Start {
    var end := Final(StartTrace(cfg, fs, order));
    match CurrentPath(cfg, end)
    case None => StartFailed(end, CorruptPointer)
    case Some(path) =>
      if Local(cfg, path) then
        if IsTree(end, Dir(BaseName(path))) then Opened(end, BaseName(path)) else StartFailed(end, DirMissing)
      else if elsewhere(path) then OpenedElsewhere(end, path)
      else StartFailed(end, DirMissing)
  }

  /** getPebbleDBDir and OpenPebbleDB on a data directory without a pointer: publish first, then create. */
  function FirstRunTrace(cfg: Config, fs: Fs, id: bytes): (t: seq<Fs>)
    requires Workable(fs)
    ensures |t| == 9
  {
    var saved := SaveTrace(cfg, fs, Join(cfg.base, id));
    var replaced := ReplaceTrace(saved[4]);
    var made := Fill(Mkdir(replaced[1], id), id, map[], true);
    saved + replaced + [made, SyncDir(made)]
  }

  // ---- the data directory of a running node ----

  /** Pointer inode `p` is durable and leads to tree `t`, which durably holds `db` under the name `id`. */
  ghost predicate Leads(cfg: Config, fs: Fs, p: Ino, id: bytes, t: Ino, db: Db) {
    && p in fs.nodes && fs.nodes[p] == Pointer(PointerBytes(cfg, Join(cfg.base, id)), true)
    && NoSlash(id)
    && At(fs.live, Dir(id)) == Some(t) && Only(fs, Dir(id), Some(t))
    && t in fs.nodes && fs.nodes[t] == Tree(db, true)
  }

  /** Whatever a crash keeps or loses, the pointer file is `p` and leads to `db`. */
  ghost predicate Settled(cfg: Config, fs: Fs, p: Ino, id: bytes, t: Ino, db: Db) {
    && WellFormed(fs)
    && At(fs.live, Running) == Some(p) && Only(fs, Running, Some(p))
    && Leads(cfg, fs, p, id, t, db)
  }

  /** The published pointer is not the file the next save would truncate. */
  predicate Guarded(fs: Fs, p: Ino) {
    At(fs.live, Updating) != Some(p)
  }

  ghost predicate Fresh(fs: Fs, id: bytes) {
    NoSlash(id) && Dir(id) !in fs.live && Only(fs, Dir(id), None)
  }

  ghost predicate Lists(order: seq<bytes>, fs: Fs) {
    && (forall x :: x in order ==> NoSlash(x))
    && (forall x :: Dir(x) in fs.live ==> x in order)
  }

  lemma WellFormedWorkable(fs: Fs)
    requires WellFormed(fs)
    ensures Workable(fs)
  {
    if Updating in fs.live {
      assert Has(fs, Updating, fs.live[Updating]);
    }
  }
}
