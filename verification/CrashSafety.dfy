/** No crash loses the database: every state of every operation and every surviving image. */
module CrashSafety {
  import opened Bytes
  import opened Snapshot
  import opened Disk
  import opened DataDir

  // ---- changes that do not touch the published database ----

  /** From `fs` to `fs'` nothing a crash could leave under the pointer or the published directory is new. */
  ghost predicate Quiet(fs: Fs, fs': Fs, p: Ino, id: bytes, t: Ino) {
    && WellFormed(fs')
    && At(fs'.live, Running) == At(fs.live, Running) && At(fs'.live, Dir(id)) == At(fs.live, Dir(id))
    && (forall v :: Possible(fs', Running, v) ==> Possible(fs, Running, v))
    && (forall v :: Possible(fs', Dir(id), v) ==> Possible(fs, Dir(id), v))
    && (p in fs.nodes ==> p in fs'.nodes && fs'.nodes[p] == fs.nodes[p])
    && (t in fs.nodes ==> t in fs'.nodes && fs'.nodes[t] == fs.nodes[t])
  }

  lemma QuietKeepsSettled(cfg: Config, fs: Fs, fs': Fs, p: Ino, id: bytes, t: Ino, db: Db)
    requires Settled(cfg, fs, p, id, t, db) && Quiet(fs, fs', p, id, t)
    ensures Settled(cfg, fs', p, id, t, db)
  {
  }

  lemma EntryQuiet(cfg: Config, fs: Fs, n: Name, p: Ino, id: bytes, t: Ino, db: Db)
    requires Settled(cfg, fs, p, id, t, db) && n != Running && n != Dir(id)
    ensures Settled(cfg, Unlink(fs, n), p, id, t, db)
    ensures Guarded(fs, p) ==> Guarded(Unlink(fs, n), p)
  {
    if n in fs.live {
      SetEntryWellFormed(fs, n, None);
      QuietKeepsSettled(cfg, fs, SetEntry(fs, n, None), p, id, t, db);
    }
  }

  lemma NodeQuiet(cfg: Config, fs: Fs, i: Ino, node: Node, p: Ino, id: bytes, t: Ino, db: Db)
    requires Settled(cfg, fs, p, id, t, db) && i in fs.nodes && i != p && i != t && (fs.nodes[i].Tree? <==> node.Tree?)
    ensures Settled(cfg, fs.(nodes := fs.nodes[i := node]), p, id, t, db)
  {
    SetNodeWellFormed(fs, i, node);
    QuietKeepsSettled(cfg, fs, fs.(nodes := fs.nodes[i := node]), p, id, t, db);
  }

  lemma AddQuiet(cfg: Config, fs: Fs, n: Name, node: Node, p: Ino, id: bytes, t: Ino, db: Db)
    requires Settled(cfg, fs, p, id, t, db) && n != Running && n != Dir(id) && (n.Dir? <==> node.Tree?)
    ensures Settled(cfg, AddNode(fs, n, node), p, id, t, db)
  {
    AddNodeWellFormed(fs, n, node);
    QuietKeepsSettled(cfg, fs, AddNode(fs, n, node), p, id, t, db);
  }

  lemma SyncQuiet(cfg: Config, fs: Fs, p: Ino, id: bytes, t: Ino, db: Db)
    requires Settled(cfg, fs, p, id, t, db)
    ensures Settled(cfg, SyncDir(fs), p, id, t, db)
  {
    SyncDirWellFormed(fs);
  }

  lemma RemoveQuiet(cfg: Config, fs: Fs, x: bytes, p: Ino, id: bytes, t: Ino, db: Db)
    requires Settled(cfg, fs, p, id, t, db) && x != id
    ensures forall s :: s in RemoveTrace(fs, x) ==>
      Settled(cfg, s, p, id, t, db) && At(s.live, Updating) == At(fs.live, Updating)
    ensures Dir(x) !in RemoveTrace(fs, x)[1].live
  {
    if IsTree(fs, Dir(x)) {
      var i := fs.live[Dir(x)];
      assert Has(fs, Dir(x), i) && Has(fs, Dir(id), t) && Has(fs, Running, p);
      NodeQuiet(cfg, fs, i, Tree(map[], false), p, id, t, db);
    }
    EntryQuiet(cfg, Tear(fs, x), Dir(x), p, id, t, db);
  }

  // ---- crashes ----

  /** A crash of a settled data directory leaves a settled data directory with the same database. */
  lemma SettledCrash(cfg: Config, fs: Fs, image: Fs, p: Ino, id: bytes, t: Ino, db: Db)
    requires Settled(cfg, fs, p, id, t, db) && CrashImage(fs, image)
    ensures Settled(cfg, image, p, id, t, db)
  {
    CrashWellFormed(fs, image);
    assert Possible(fs, Running, At(image.live, Running));
    assert Possible(fs, Dir(id), At(image.live, Dir(id)));
    assert Survives(fs.nodes[p], image.nodes[p]) && Survives(fs.nodes[t], image.nodes[t]);
  }

  // ---- building and saving ----

  /** Tree `u` under the new name `id'` holds `db'`; its directory entry need not be synced yet. */
  ghost predicate Built(fs: Fs, id': bytes, u: Ino, db': Db) {
    At(fs.live, Dir(id')) == Some(u) && u in fs.nodes && fs.nodes[u] == Tree(db', true)
  }

  lemma BuildQuiet(cfg: Config, fs: Fs, id': bytes, stages: seq<Db>, db': Db, p: Ino, id: bytes, t: Ino, db: Db)
    requires Settled(cfg, fs, p, id, t, db) && Guarded(fs, p) && Fresh(fs, id')
    ensures forall s :: s in BuildTrace(fs, id', stages, db') ==> Settled(cfg, s, p, id, t, db) && Guarded(s, p)
    ensures Built(Final(BuildTrace(fs, id', stages, db')), id', fs.next, db')
  {
    var made := Mkdir(fs, id');
    AddQuiet(cfg, fs, Dir(id'), Tree(map[], false), p, id, t, db);
    var trace := BuildTrace(fs, id', stages, db');
    forall s | s in trace ensures Settled(cfg, s, p, id, t, db) && Guarded(s, p) {
      var k :| 0 <= k < |trace| && trace[k] == s;
      if k > 0 {
        var content := if k <= |stages| then Tree(stages[k - 1], false) else Tree(db', true);
        NodeQuiet(cfg, made, fs.next, content, p, id, t, db);
        assert s == made.(nodes := made.nodes[fs.next := content]);
      }
    }
  }

  lemma CreateQuiet(cfg: Config, fs: Fs, p: Ino, id: bytes, t: Ino, db: Db)
    requires Settled(cfg, fs, p, id, t, db) && Guarded(fs, p)
    ensures Settled(cfg, Create(fs), p, id, t, db) && Guarded(Create(fs), p)
    ensures IsFile(Create(fs), Updating) && Create(fs).nodes[Create(fs).live[Updating]] == Pointer([], false)
    ensures forall id', u, db' :: Built(fs, id', u, db') ==> Built(Create(fs), id', u, db')
  {
    if Updating in fs.live {
      var i := fs.live[Updating];
      assert Has(fs, Updating, i) && Has(fs, Dir(id), t);
      NodeQuiet(cfg, fs, i, Pointer([], false), p, id, t, db);
    } else {
      AddQuiet(cfg, fs, Updating, Pointer([], false), p, id, t, db);
    }
    forall id', u, db' | Built(fs, id', u, db') ensures Built(Create(fs), id', u, db') {
      assert Has(fs, Dir(id'), u);
    }
  }

  lemma PointerQuiet(cfg: Config, fs: Fs, node: Node, p: Ino, id: bytes, t: Ino, db: Db)
    requires Settled(cfg, fs, p, id, t, db) && Guarded(fs, p) && IsFile(fs, Updating) && node.Pointer?
    ensures
      var fs' := fs.(nodes := fs.nodes[fs.live[Updating] := node]);
      && Settled(cfg, fs', p, id, t, db) && Guarded(fs', p) && IsFile(fs', Updating)
      && forall id', u, db' :: Built(fs, id', u, db') ==> Built(fs', id', u, db')
  {
    var i := fs.live[Updating];
    assert Has(fs, Updating, i) && Has(fs, Dir(id), t);
    NodeQuiet(cfg, fs, i, node, p, id, t, db);
    var fs' := fs.(nodes := fs.nodes[i := node]);
    forall id', u, db' | Built(fs, id', u, db') ensures Built(fs', id', u, db') {
      assert Has(fs, Dir(id'), u);
    }
  }

  lemma SaveQuiet(cfg: Config, fs: Fs, path: bytes, p: Ino, id: bytes, t: Ino, db: Db)
    requires Settled(cfg, fs, p, id, t, db) && Guarded(fs, p) && Workable(fs)
    ensures forall s :: s in SaveTrace(cfg, fs, path) ==> Settled(cfg, s, p, id, t, db) && Guarded(s, p)
    ensures
      var end := Final(SaveTrace(cfg, fs, path));
      && end.disk == end.live && end.pending == {}
      && IsFile(end, Updating) && end.nodes[end.live[Updating]] == Pointer(PointerBytes(cfg, path), true)
    ensures forall id', u, db' :: Built(fs, id', u, db') ==> Built(Final(SaveTrace(cfg, fs, path)), id', u, db')
  {
    var created := Create(fs);
    CreateQuiet(cfg, fs, p, id, t, db);
    var digested := Append(created, Digest(cfg, path));
    PointerQuiet(cfg, created, Pointer([] + Digest(cfg, path), false), p, id, t, db);
    var written := Append(digested, path);
    PointerQuiet(cfg, digested, Pointer([] + Digest(cfg, path) + path, false), p, id, t, db);
    var synced := SyncFile(written);
    PointerQuiet(cfg, written, Pointer([] + Digest(cfg, path) + path, true), p, id, t, db);
    SyncQuiet(cfg, synced, p, id, t, db);
    assert [] + Digest(cfg, path) + path == PointerBytes(cfg, path);
    forall id', u, db' | Built(fs, id', u, db') ensures Built(SyncDir(synced), id', u, db') {
      assert Built(created, id', u, db') && Built(digested, id', u, db') && Built(written, id', u, db');
    }
  }

  // ---- a restore ----

  /** Everything before the rename leaves the old database published, and the new one is ready to be. */
  lemma BeforePublishSafe(cfg: Config, fs: Fs, id': bytes, stages: seq<Db>, db': Db, p: Ino, id: bytes, t: Ino, db: Db)
    requires Settled(cfg, fs, p, id, t, db) && Guarded(fs, p) && Fresh(fs, id') && Workable(fs)
    ensures forall s :: s in BeforePublish(cfg, fs, id', stages, db') ==> Settled(cfg, s, p, id, t, db) && Guarded(s, p)
    ensures
      var end := Final(BeforePublish(cfg, fs, id', stages, db'));
      && end.disk == end.live && end.pending == {}
      && IsFile(end, Updating) && Leads(cfg, end, end.live[Updating], id', fs.next, db')
  {
    var built := BuildTrace(fs, id', stages, db');
    var saved := SaveTrace(cfg, Final(built), Join(cfg.base, id'));
    BuildQuiet(cfg, fs, id', stages, db', p, id, t, db);
    assert Final(built) in built;
    SaveQuiet(cfg, Final(built), Join(cfg.base, id'), p, id, t, db);
    assert Final(BeforePublish(cfg, fs, id', stages, db')) == Final(saved);
    assert Built(Final(saved), id', fs.next, db');
  }

  /**
   Between the rename and the directory sync a crash may keep either pointer. Each of the two leads to its
   own complete database.
   */
  ghost predicate Either(cfg: Config, fs: Fs, p: Ino, id: bytes, t: Ino, db: Db, q: Ino, id': bytes, u: Ino, db': Db) {
    && WellFormed(fs) && p != q
    && At(fs.live, Running) == Some(q)
    && (forall v :: Possible(fs, Running, v) ==> v == Some(p) || v == Some(q))
    && Leads(cfg, fs, p, id, t, db) && Leads(cfg, fs, q, id', u, db')
    && At(fs.live, Updating) == None
  }

  lemma RenameSafe(cfg: Config, fs: Fs, p: Ino, id: bytes, t: Ino, db: Db, id': bytes, u: Ino, db': Db)
    requires Settled(cfg, fs, p, id, t, db) && Guarded(fs, p) && IsFile(fs, Updating)
    requires Leads(cfg, fs, fs.live[Updating], id', u, db')
    ensures Either(cfg, Rename(fs), p, id, t, db, fs.live[Updating], id', u, db')
  {
    var q := fs.live[Updating];
    assert Has(fs, Updating, q);
    SetEntryWellFormed(fs, Running, Some(q));
    var moved := SetEntry(fs, Running, Some(q));
    SetEntryWellFormed(moved, Updating, None);
    SetEntryPossible(fs, Running, Some(q));
    SetEntryPossible(moved, Updating, None);
    forall v | Possible(Rename(fs), Running, v) ensures v == Some(p) || v == Some(q) {
      assert Possible(moved, Running, v);
    }
    forall x, v | Possible(Rename(fs), Dir(x), v) ensures Possible(fs, Dir(x), v) {
      assert Possible(moved, Dir(x), v);
    }
  }

  lemma EitherCrash(cfg: Config, fs: Fs, image: Fs, p: Ino, id: bytes, t: Ino, db: Db, q: Ino, id': bytes, u: Ino,
                    db': Db)
    requires Either(cfg, fs, p, id, t, db, q, id', u, db') && CrashImage(fs, image)
    ensures At(image.live, Running) == Some(p) ==> Settled(cfg, image, p, id, t, db)
    ensures At(image.live, Running) != Some(p) ==>
              At(image.live, Running) == Some(q) && Settled(cfg, image, q, id', u, db')
  {
    CrashWellFormed(fs, image);
    assert Possible(fs, Running, At(image.live, Running));
    assert Possible(fs, Dir(id), At(image.live, Dir(id)));
    assert Possible(fs, Dir(id'), At(image.live, Dir(id')));
    assert Survives(fs.nodes[p], image.nodes[p]) && Survives(fs.nodes[t], image.nodes[t]);
    assert Survives(fs.nodes[q], image.nodes[q]) && Survives(fs.nodes[u], image.nodes[u]);
  }

  lemma AfterRenameSafe(cfg: Config, renamed: Fs, p: Ino, id: bytes, t: Ino, db: Db, q: Ino, id': bytes, u: Ino,
                        db': Db)
    requires Either(cfg, renamed, p, id, t, db, q, id', u, db') && id != id'
    ensures
      var synced := SyncDir(renamed);
      var removed := RemoveTrace(synced, id);
      forall s :: s in [synced] + removed + [SyncDir(removed[1])] ==> Settled(cfg, s, q, id', u, db') && Guarded(s, q)
  {
    hide PointerBytes, Join, RemoveTrace;
    var synced := SyncDir(renamed);
    SyncDirWellFormed(renamed);
    assert Settled(cfg, synced, q, id', u, db');
    RemoveQuiet(cfg, synced, id, q, id', u, db');
    var removed := RemoveTrace(synced, id);
    assert removed[1] in removed;
    SyncQuiet(cfg, removed[1], q, id', u, db');
  }

  lemma AfterPublishSafe(cfg: Config, fs: Fs, id': bytes, stages: seq<Db>, db': Db, p: Ino, id: bytes, t: Ino, db: Db,
                         q: Ino)
    requires Workable(fs) && id != id'
    requires Either(cfg, Published(cfg, fs, id', stages, db'), p, id, t, db, q, id', fs.next, db')
    ensures forall s :: s in AfterPublish(cfg, fs, id', stages, db', id) ==>
      Settled(cfg, s, q, id', fs.next, db') && Guarded(s, q)
  {
    hide Published, Settled, Either, RemoveTrace;
    AfterRenameSafe(cfg, Published(cfg, fs, id', stages, db'), p, id, t, db, q, id', fs.next, db');
  }

  /**
   The last directory sync makes the removal durable: no crash after it brings the old directory or a saved name back.
   */
  lemma RemovalIsDurable(cfg: Config, fs: Fs, id': bytes, stages: seq<Db>, db': Db, id: bytes, image: Fs)
    requires Workable(fs) && id != id' && CrashImage(AfterPublish(cfg, fs, id', stages, db', id)[3], image)
    ensures Dir(id) !in image.live && Updating !in image.live
    ensures image.live == Published(cfg, fs, id', stages, db').live - {Dir(id)}
  {
    var published := Published(cfg, fs, id', stages, db');
    assert Updating !in published.live;
    hide Published;
    var end := AfterPublish(cfg, fs, id', stages, db', id)[3];
    assert end.live == published.live - {Dir(id)} && end.disk == end.live && end.pending == {};
    forall n ensures At(image.live, n) == At(end.live, n) {
      assert Possible(end, n, At(image.live, n));
    }
    SameMap(image.live, end.live);
  }

  lemma SameMap(a: map<Name, Ino>, b: map<Name, Ino>)
    requires forall n :: At(a, n) == At(b, n)
    ensures a == b
  {
    forall n ensures n in a <==> n in b {
      assert At(a, n) == At(b, n);
    }
    forall n | n in a ensures a[n] == b[n] {
      assert At(a, n) == At(b, n);
    }
  }

  lemma FreshDiffers(cfg: Config, fs: Fs, id': bytes, p: Ino, id: bytes, t: Ino, db: Db)
    requires Settled(cfg, fs, p, id, t, db) && Fresh(fs, id')
    ensures id != id'
  {
  }

  lemma FailedSafe(cfg: Config, fs: Fs, id': bytes, stages: seq<Db>, db': Db, k: nat, deferred: bool,
                   p: Ino, id: bytes, t: Ino, db: Db)
    requires Settled(cfg, fs, p, id, t, db) && Guarded(fs, p) && Fresh(fs, id') && Workable(fs) && k < |stages| + 8
    ensures forall s :: s in FailedTrace(cfg, fs, id', stages, db', k, deferred) ==>
      Settled(cfg, s, p, id, t, db) && Guarded(s, p)
    ensures Dir(id') !in Final(FailedTrace(cfg, fs, id', stages, db', k, deferred)).live
  {
    hide BeforePublish, Settled, RemoveTrace, Fresh, Workable;
    FreshDiffers(cfg, fs, id', p, id, t, db);
    BeforePublishSafe(cfg, fs, id', stages, db', p, id, t, db);
    var stop := BeforePublish(cfg, fs, id', stages, db')[k];
    assert stop in BeforePublish(cfg, fs, id', stages, db');
    SyncQuiet(cfg, stop, p, id, t, db);
    var closed := if deferred then SyncDir(stop) else stop;
    RemoveQuiet(cfg, closed, id', p, id, t, db);
  }

  // ---- startup ----

  lemma SettledPath(cfg: Config, fs: Fs, p: Ino, id: bytes, t: Ino, db: Db)
    requires Digests(cfg) && Settled(cfg, fs, p, id, t, db)
    ensures CurrentPath(cfg, fs) == Some(Join(cfg.base, id))
    ensures BaseName(Join(cfg.base, id)) == id
  {
    PointerRoundTrip(cfg, Join(cfg.base, id));
    BaseNameOfJoin(cfg.base, id);
  }

  lemma {:induction false} CleanupQuiet(cfg: Config, fs: Fs, order: seq<bytes>, p: Ino, id: bytes, t: Ino, db: Db)
    requires Settled(cfg, fs, p, id, t, db) && Guarded(fs, p)
    requires forall x :: x in order ==> NoSlash(x)
    ensures
      var trace := [fs] + CleanupTrace(cfg, fs, Join(cfg.base, id), order);
      && (forall s :: s in trace ==> Settled(cfg, s, p, id, t, db) && Guarded(s, p))
      && (forall x :: Dir(x) in Final(trace).live ==> Dir(x) in fs.live && (x == id || x !in order))
      && At(Final(trace).live, Updating) == At(fs.live, Updating)
    decreases |order|
  {
    if order == [] {
    } else {
      var x, rest := order[0], order[1..];
      if Join(cfg.base, x) == Join(cfg.base, id) {
        JoinInjective(cfg.base, x, cfg.base, id);
        CleanupQuiet(cfg, fs, rest, p, id, t, db);
      } else {
        RemoveQuiet(cfg, fs, x, p, id, t, db);
        var removed := RemoveTrace(fs, x);
        assert removed[1] in removed;
        CleanupQuiet(cfg, removed[1], rest, p, id, t, db);
        var tail := [removed[1]] + CleanupTrace(cfg, removed[1], Join(cfg.base, id), rest);
        var trace := [fs] + CleanupTrace(cfg, fs, Join(cfg.base, id), order);
        assert trace == [fs, removed[0]] + tail;
        assert Final(trace) == Final(tail);
      }
    }
  }

  /**
   Startup on a settled data directory passes only through settled states, opens exactly the published
   database, and leaves no other database directory and no half-written pointer behind.
   */
  lemma StartupOpens(cfg: Config, fs: Fs, order: seq<bytes>, elsewhere: bytes -> bool, p: Ino, id: bytes, t: Ino,
                     db: Db)
    requires Digests(cfg) && Settled(cfg, fs, p, id, t, db) && Lists(order, fs)
    ensures forall s :: s in StartTrace(cfg, fs, order) ==> Settled(cfg, s, p, id, t, db)
    ensures
      var r := Startup(cfg, fs, order, elsewhere);
      && r.Opened? && r.id == id && Settled(cfg, r.fs, p, id, t, db) && Guarded(r.fs, p)
      && Updating !in r.fs.live && forall x :: Dir(x) in r.fs.live ==> x == id
  {
    hide CleanupTrace, WellFormed, PointerBytes;
    var cleaned := Unlink(fs, Updating);
    EntryQuiet(cfg, fs, Updating, p, id, t, db);
    SettledPath(cfg, cleaned, p, id, t, db);
    CleanupQuiet(cfg, cleaned, order, p, id, t, db);
    var trace := [cleaned] + CleanupTrace(cfg, cleaned, Join(cfg.base, id), order);
    assert StartTrace(cfg, fs, order) == [fs] + trace;
    assert Final(trace) in trace;
    SettledPath(cfg, Final(trace), p, id, t, db);
  }

  /** The first states of a restore are those of the building. */
  lemma BeforePublishIs(cfg: Config, fs: Fs, id': bytes, stages: seq<Db>, db': Db)
    requires Workable(fs)
    ensures
      var built := BuildTrace(fs, id', stages, db');
      var before := BeforePublish(cfg, fs, id', stages, db');
      && before[1..|stages| + 3] == built
      && before[|stages| + 1] == built[|stages|] && before[|stages| + 2] == Final(built)
      && before[1..] == built + before[|stages| + 3..]
  {
    hide BuildTrace, SaveTrace;
  }

  lemma BuiltWorkable(fs: Fs, id: bytes, stages: seq<Db>, db: Db)
    requires Workable(fs)
    ensures Workable(Final(BuildTrace(fs, id, stages, db)))
  {
  }

  // ---- startup sees only the live file system ----

  predicate SameLive(a: Fs, b: Fs) {
    a.nodes == b.nodes && a.next == b.next && a.live == b.live
  }

  lemma {:induction false} CleanupSameLive(cfg: Config, a: Fs, b: Fs, path: bytes, order: seq<bytes>)
    requires SameLive(a, b)
    ensures SameLive(Final([a] + CleanupTrace(cfg, a, path, order)), Final([b] + CleanupTrace(cfg, b, path, order)))
    ensures Final([a] + CleanupTrace(cfg, a, path, order)).disk == a.disk
    decreases |order|
  {
    if order == [] {
    } else if Join(cfg.base, order[0]) == path {
      CleanupSameLive(cfg, a, b, path, order[1..]);
    } else {
      var ra, rb := RemoveTrace(a, order[0]), RemoveTrace(b, order[0]);
      CleanupSameLive(cfg, ra[1], rb[1], path, order[1..]);
      RestIsFinal(a, ra, CleanupTrace(cfg, ra[1], path, order[1..]));
      RestIsFinal(b, rb, CleanupTrace(cfg, rb[1], path, order[1..]));
    }
  }

  lemma RestIsFinal(fs: Fs, removed: seq<Fs>, rest: seq<Fs>)
    requires |removed| == 2
    ensures Final([fs] + (removed + rest)) == Final([removed[1]] + rest)
  {
  }

  lemma StartSameLive(cfg: Config, a: Fs, b: Fs, order: seq<bytes>)
    requires SameLive(a, b)
    ensures SameLive(Final(StartTrace(cfg, a, order)), Final(StartTrace(cfg, b, order)))
    ensures Final(StartTrace(cfg, a, order)).disk == a.disk
  {
    var ca, cb := Unlink(a, Updating), Unlink(b, Updating);
    assert SameLive(ca, cb) && ca.disk == a.disk && CurrentPath(cfg, ca) == CurrentPath(cfg, cb);
    hide CleanupTrace, Unlink, CurrentPath, SameLive;
    match CurrentPath(cfg, ca) {
      case None =>
      case Some(path) =>
        CleanupSameLive(cfg, ca, cb, path, order);
        assert StartTrace(cfg, a, order) == [a] + ([ca] + CleanupTrace(cfg, ca, path, order));
        assert StartTrace(cfg, b, order) == [b] + ([cb] + CleanupTrace(cfg, cb, path, order));
    }
  }

  /** On the same live file system startup comes to the same result; it syncs nothing. */
  lemma StartupSameLive(cfg: Config, a: Fs, b: Fs, order: seq<bytes>, elsewhere: bytes -> bool)
    requires SameLive(a, b)
    ensures
      var ra, rb := Startup(cfg, a, order, elsewhere), Startup(cfg, b, order, elsewhere);
      SameLive(ra.fs, rb.fs) && ra == rb.(fs := ra.fs) && ra.fs.disk == a.disk
  {
    hide StartTrace, ReadPointer, DataDir.Join, BaseName;
    StartSameLive(cfg, a, b, order);
  }
}
