/** Where the directory protocol stops being safe, and exactly when. */
module CrashLimits {
  import opened Bytes
  import opened Snapshot
  import opened Disk
  import opened DataDir
  import opened CrashSafety
  import opened CrashRuns

  // ---- the first run publishes the pointer before the directory exists ----

  lemma SaveFresh(cfg: Config, fs: Fs, path: bytes)
    requires WellFormed(fs) && Workable(fs)
    ensures
      var end := SaveTrace(cfg, fs, path)[4];
      && WellFormed(end) && end.disk == end.live && end.pending == {}
      && IsFile(end, Updating) && end.nodes[end.live[Updating]] == Pointer(PointerBytes(cfg, path), true)
      && (forall n :: n != Updating ==> At(end.live, n) == At(fs.live, n))
      && (forall i :: i in fs.nodes && At(fs.live, Updating) != Some(i) ==>
        i in end.nodes && end.nodes[i] == fs.nodes[i])
      && (forall i :: i in fs.nodes && At(fs.live, Updating) != Some(i) ==> end.live[Updating] != i)
  {
    var created := Create(fs);
    if Updating in fs.live {
      SetNodeWellFormed(fs, fs.live[Updating], Pointer([], false));
    } else {
      AddNodeWellFormed(fs, Updating, Pointer([], false));
    }
    var i := created.live[Updating];
    SetNodeWellFormed(created, i, Pointer([] + Digest(cfg, path), false));
    var digested := Append(created, Digest(cfg, path));
    SetNodeWellFormed(digested, i, Pointer([] + Digest(cfg, path) + path, false));
    var written := Append(digested, path);
    SetNodeWellFormed(written, i, Pointer([] + Digest(cfg, path) + path, true));
    SyncDirWellFormed(SyncFile(written));
    assert [] + Digest(cfg, path) + path == PointerBytes(cfg, path);
  }

  /**
   The end of a restore before its rename, on any data directory: everything is synced, the new name leads to the
   new database, and nothing else has changed.
   */
  lemma ReadyEnd(cfg: Config, fs: Fs, id: bytes, stages: seq<Db>, db: Db)
    requires WellFormed(fs) && Workable(fs) && Dir(id) !in fs.live
    ensures
      var end := Final(BeforePublish(cfg, fs, id, stages, db));
      && WellFormed(end) && end.disk == end.live && end.pending == {}
      && IsFile(end, Updating) && end.nodes[end.live[Updating]] == Pointer(PointerBytes(cfg, Join(cfg.base, id)), true)
      && At(end.live, Dir(id)) == Some(fs.next) && fs.next in end.nodes && end.nodes[fs.next] == Tree(db, true)
      && (forall n :: n != Updating && n != Dir(id) ==> At(end.live, n) == At(fs.live, n))
      && (forall i :: i in fs.nodes && At(fs.live, Updating) != Some(i) ==>
            i in end.nodes && end.nodes[i] == fs.nodes[i] && end.live[Updating] != i)
  {
    hide SaveTrace, PointerBytes, DataDir.Join;
    var made := Mkdir(fs, id);
    AddNodeWellFormed(fs, Dir(id), Tree(map[], false));
    var built := Fill(made, id, db, true);
    SetNodeWellFormed(made, fs.next, Tree(db, true));
    assert built == Final(BuildTrace(fs, id, stages, db));
    WellFormedWorkable(built);
    assert Has(built, Dir(id), fs.next);
    assert forall i :: At(built.live, Updating) == Some(i) ==> Has(built, Updating, i);
    SaveFresh(cfg, built, Join(cfg.base, id));
  }

  /** A restore that gets past its directory sync makes any data directory safe, whatever it published before. */
  lemma RestoreHeals(cfg: Config, fs: Fs, id: bytes, stages: seq<Db>, db: Db, oldId: bytes)
    requires WellFormed(fs) && Workable(fs) && Fresh(fs, id) && oldId != id
    ensures
      var q := Final(BeforePublish(cfg, fs, id, stages, db)).live[Updating];
      forall s :: s in AfterPublish(cfg, fs, id, stages, db, oldId) ==>
        Settled(cfg, s, q, id, fs.next, db) && Guarded(s, q)
  {
    hide BeforePublish, RemoveTrace, PointerBytes, DataDir.Join;
    ReadyEnd(cfg, fs, id, stages, db);
    var end := Final(BeforePublish(cfg, fs, id, stages, db));
    var q := end.live[Updating];
    assert Has(end, Updating, q);
    SetEntryWellFormed(end, Running, Some(q));
    SetEntryWellFormed(SetEntry(end, Running, Some(q)), Updating, None);
    SyncDirWellFormed(Rename(end));
    var synced := SyncDir(Rename(end));
    assert Settled(cfg, synced, q, id, fs.next, db) && At(synced.live, Updating) == None;
    hide Settled, Rename, SyncDir;
    RemoveQuiet(cfg, synced, oldId, q, id, fs.next, db);
    var removed := RemoveTrace(synced, oldId);
    assert removed[1] in removed;
    SyncQuiet(cfg, removed[1], q, id, fs.next, db);
    SyncKeepsLive(removed[1]);
  }

  lemma SyncKeepsLive(fs: Fs)
    ensures SyncDir(fs).live == fs.live
  {
  }

  /** The pointer is published and durable, the directory it names does not exist. */
  ghost predicate Dangling(cfg: Config, fs: Fs, p: Ino, id: bytes) {
    && WellFormed(fs) && NoSlash(id)
    && At(fs.live, Running) == Some(p) && Only(fs, Running, Some(p))
    && p in fs.nodes && fs.nodes[p] == Pointer(PointerBytes(cfg, Join(cfg.base, id)), true)
    && At(fs.live, Dir(id)) == None && Only(fs, Dir(id), None)
  }

  lemma PublishFresh(cfg: Config, fs: Fs, id: bytes)
    requires WellFormed(fs) && Workable(fs) && NoSlash(id) && Dir(id) !in fs.live
    ensures
      var saved := SaveTrace(cfg, fs, Join(cfg.base, id))[4];
      var done := ReplaceTrace(saved)[1];
      Dangling(cfg, done, saved.live[Updating], id) && done.disk == done.live && done.pending == {}
  {
    var saved := SaveTrace(cfg, fs, Join(cfg.base, id))[4];
    SaveFresh(cfg, fs, Join(cfg.base, id));
    var q := saved.live[Updating];
    assert Has(saved, Updating, q);
    SetEntryWellFormed(saved, Running, Some(q));
    SetEntryWellFormed(SetEntry(saved, Running, Some(q)), Updating, None);
    SyncDirWellFormed(Rename(saved));
  }

  /** A first run that is not interrupted ends with a settled, empty database. */
  lemma FirstRunOpens(cfg: Config, fs: Fs, id: bytes)
    requires WellFormed(fs) && Workable(fs) && NoSlash(id) && Dir(id) !in fs.live
    ensures Inv(cfg, Up(Final(FirstRunTrace(cfg, fs, id)), id, map[]))
  {
    hide SaveTrace;
    PublishFresh(cfg, fs, id);
    var saved := SaveTrace(cfg, fs, Join(cfg.base, id))[4];
    var published := ReplaceTrace(saved)[1];
    var p, t := saved.live[Updating], published.next;
    AddNodeWellFormed(published, Dir(id), Tree(map[], false));
    var made := Fill(Mkdir(published, id), id, map[], true);
    SetNodeWellFormed(Mkdir(published, id), t, Tree(map[], true));
    SyncDirWellFormed(made);
    assert Final(FirstRunTrace(cfg, fs, id)) == SyncDir(made);
    assert UpOk(cfg, SyncDir(made), p, id, t, map[]);
  }

  /** Neither a pointer nor the directory `id` can be found after a crash. */
  ghost predicate Blank(fs: Fs, id: bytes) {
    WellFormed(fs) && Only(fs, Running, None) && Only(fs, Dir(id), None)
  }

  lemma SaveBlank(cfg: Config, fs: Fs, path: bytes, id: bytes)
    requires Blank(fs, id) && Workable(fs) && Running !in fs.live && Dir(id) !in fs.live
    ensures forall s :: s in SaveTrace(cfg, fs, path) ==> Blank(s, id)
  {
    var created := Create(fs);
    if Updating in fs.live {
      assert Has(fs, Updating, fs.live[Updating]);
      FileBlank(fs, fs.live[Updating], Pointer([], false), id);
    } else {
      AddNodeWellFormed(fs, Updating, Pointer([], false));
      AddNodePossible(fs, Updating, Pointer([], false));
    }
    assert Blank(created, id);
    var i := created.live[Updating];
    FileBlank(created, i, Pointer([] + Digest(cfg, path), false), id);
    FileBlank(Append(created, Digest(cfg, path)), i, Pointer([] + Digest(cfg, path) + path, false), id);
    FileBlank(Append(Append(created, Digest(cfg, path)), path), i, Pointer([] + Digest(cfg, path) + path, true), id);
    SyncDirWellFormed(SaveTrace(cfg, fs, path)[3]);
  }

  lemma FileBlank(fs: Fs, i: Ino, node: Node, id: bytes)
    requires Blank(fs, id) && i in fs.nodes && fs.nodes[i].Pointer? && node.Pointer?
    ensures Blank(fs.(nodes := fs.nodes[i := node]), id)
  {
    SetNodeWellFormed(fs, i, node);
    SameEntries(fs, fs.(nodes := fs.nodes[i := node]));
  }

  lemma SameEntries(fs: Fs, fs': Fs)
    requires fs'.disk == fs.disk && fs'.pending == fs.pending
    ensures forall n, w :: Possible(fs', n, w) <==> Possible(fs, n, w)
  {
  }

  lemma AddNodePossible(fs: Fs, n: Name, node: Node)
    ensures forall m, w :: Possible(AddNode(fs, n, node), m, w) <==>
      Possible(fs, m, w) || (m == n && w == Some(fs.next))
  {
    var fs1 := fs.(nodes := fs.nodes[fs.next := node], next := fs.next + 1);
    SameEntries(fs, fs1);
    SetEntryPossible(fs1, n, Some(fs.next));
  }

  /** What a crash can find of the pointer leads to `id`; what it can find of the directory is an empty database. */
  ghost predicate Beginning(cfg: Config, fs: Fs, id: bytes) {
    && WellFormed(fs)
    && (forall q :: Possible(fs, Running, Some(q)) ==>
          q in fs.nodes && fs.nodes[q] == Pointer(PointerBytes(cfg, Join(cfg.base, id)), true))
    && (forall t :: Possible(fs, Dir(id), Some(t)) ==> t in fs.nodes && fs.nodes[t] == Tree(map[], true))
  }

  lemma BlankBeginning(cfg: Config, fs: Fs, id: bytes)
    requires Blank(fs, id)
    ensures Beginning(cfg, fs, id)
  {
  }

  lemma FirstRunBeginning(cfg: Config, fs: Fs, id: bytes, k: nat)
    requires Blank(fs, id) && Workable(fs) && NoSlash(id) && Running !in fs.live && Dir(id) !in fs.live && k < 9
    ensures Beginning(cfg, FirstRunTrace(cfg, fs, id)[k], id)
    ensures k < 5 ==> Blank(FirstRunTrace(cfg, fs, id)[k], id)
  {
    hide SaveTrace, PointerBytes;
    var path := Join(cfg.base, id);
    SaveBlank(cfg, fs, path, id);
    var saves := SaveTrace(cfg, fs, path);
    var s := FirstRunTrace(cfg, fs, id)[k];
    if k < 5 {
      assert s == saves[k] && s in saves;
      BlankBeginning(cfg, s, id);
    } else {
      SaveFresh(cfg, fs, path);
      PublishFresh(cfg, fs, id);
      var published := ReplaceTrace(saves[4])[1];
      if k == 5 {
        RenameBeginning(cfg, saves[4], id);
      } else if k > 6 {
        CreateBeginning(cfg, published, saves[4].live[Updating], id);
      }
    }
  }

  lemma RenameBeginning(cfg: Config, fs: Fs, id: bytes)
    requires Blank(fs, id) && IsFile(fs, Updating)
    requires fs.nodes[fs.live[Updating]] == Pointer(PointerBytes(cfg, Join(cfg.base, id)), true)
    ensures Beginning(cfg, Rename(fs), id)
  {
    hide PointerBytes;
    var q := fs.live[Updating];
    assert Has(fs, Updating, q);
    SetEntryWellFormed(fs, Running, Some(q));
    var moved := SetEntry(fs, Running, Some(q));
    SetEntryWellFormed(moved, Updating, None);
    SetEntryPossible(fs, Running, Some(q));
    SetEntryPossible(moved, Updating, None);
  }

  lemma CreateBeginning(cfg: Config, fs: Fs, p: Ino, id: bytes)
    requires Dangling(cfg, fs, p, id)
    ensures
      var made := Fill(Mkdir(fs, id), id, map[], true);
      Beginning(cfg, made, id) && Beginning(cfg, SyncDir(made), id)
  {
    hide PointerBytes;
    assert Has(fs, Running, p);
    AddNodeWellFormed(fs, Dir(id), Tree(map[], false));
    AddNodePossible(fs, Dir(id), Tree(map[], false));
    var made := Fill(Mkdir(fs, id), id, map[], true);
    SetNodeWellFormed(Mkdir(fs, id), fs.next, Tree(map[], true));
    SameEntries(Mkdir(fs, id), made);
    SyncDirWellFormed(made);
  }

  /**
   A crash at any point of a first run. If it finds no pointer, the next start is a first run again. If it finds
   the directory too, the node has its empty database. Otherwise the pointer dangles: that is certain once the
   pointer is synced and the directory not yet created, and impossible before the rename.
   */
  lemma FirstRunCrash(cfg: Config, fs: Fs, id: bytes, k: nat, image: Fs)
    requires Blank(fs, id) && Workable(fs) && NoSlash(id) && Running !in fs.live && Dir(id) !in fs.live && k < 9
    requires CrashImage(FirstRunTrace(cfg, fs, id)[k], image)
    ensures WellFormed(image)
    ensures
      if Running !in image.live then true
      else if Dir(id) in image.live then exists p, t :: Settled(cfg, image, p, id, t, map[])
      else exists p :: Dangling(cfg, image, p, id)
    ensures k < 5 ==> Running !in image.live
    ensures k >= 6 ==> Running in image.live
    ensures k == 6 ==> Dir(id) !in image.live
    ensures k == 8 ==> Dir(id) in image.live
  {
    hide SaveTrace, FirstRunTrace, PointerBytes;
    var s := FirstRunTrace(cfg, fs, id)[k];
    FirstRunBeginning(cfg, fs, id, k);
    CrashWellFormed(s, image);
    assert Possible(s, Running, At(image.live, Running)) && Possible(s, Dir(id), At(image.live, Dir(id)));
    if Running in image.live {
      var p := image.live[Running];
      assert Survives(s.nodes[p], image.nodes[p]);
      if Dir(id) in image.live {
        var t := image.live[Dir(id)];
        assert Survives(s.nodes[t], image.nodes[t]);
        assert Settled(cfg, image, p, id, t, map[]);
      } else {
        assert Dangling(cfg, image, p, id);
      }
    }
    if k >= 6 {
      PublishedEntries(cfg, fs, id, k);
    }
  }

  /**
   From the synced rename on the pointer is on disk; the directory is not before it is created, and is once synced.
   */
  lemma PublishedEntries(cfg: Config, fs: Fs, id: bytes, k: nat)
    requires WellFormed(fs) && Workable(fs) && NoSlash(id) && Dir(id) !in fs.live && 6 <= k < 9
    ensures
      var s := FirstRunTrace(cfg, fs, id)[k];
      && !Possible(s, Running, None)
      && (k == 6 ==> Only(s, Dir(id), None)) && (k == 8 ==> !Possible(s, Dir(id), None))
  {
    hide SaveTrace;
    PublishFresh(cfg, fs, id);
    var saved := SaveTrace(cfg, fs, Join(cfg.base, id))[4];
    var published := ReplaceTrace(saved)[1];
    AddNodePossible(published, Dir(id), Tree(map[], false));
    SameEntries(Mkdir(published, id), Fill(Mkdir(published, id), id, map[], true));
  }

  /** The gap is real: from every blank data directory a crash there leaves a node that never starts. */
  lemma FirstRunGap(cfg: Config, fs: Fs, id: bytes) returns (image: Fs)
    requires Blank(fs, id) && Workable(fs) && NoSlash(id) && Running !in fs.live && Dir(id) !in fs.live
    ensures CrashImage(FirstRunTrace(cfg, fs, id)[6], image)
    ensures forall db :: Bricked(cfg, Down(image, db))
  {
    hide SaveTrace, FirstRunTrace, Blank, CrashImage, Dangling;
    var s := FirstRunTrace(cfg, fs, id)[6];
    image := Image(s, s.disk);
    CrashImageExists(s);
    FirstRunCrash(cfg, fs, id, 6, image);
  }

  lemma DanglingCrash(cfg: Config, fs: Fs, image: Fs, p: Ino, id: bytes)
    requires Dangling(cfg, fs, p, id) && CrashImage(fs, image)
    ensures Dangling(cfg, image, p, id)
  {
    CrashWellFormed(fs, image);
    assert Possible(fs, Running, At(image.live, Running));
    assert Possible(fs, Dir(id), At(image.live, Dir(id)));
    assert Survives(fs.nodes[p], image.nodes[p]);
  }

  lemma DanglingRemove(cfg: Config, fs: Fs, x: bytes, p: Ino, id: bytes)
    requires Dangling(cfg, fs, p, id)
    ensures forall s :: s in RemoveTrace(fs, x) ==> Dangling(cfg, s, p, id)
  {
    assert Has(fs, Running, p);
    if IsTree(fs, Dir(x)) {
      var i := fs.live[Dir(x)];
      assert Has(fs, Dir(x), i);
      SetNodeWellFormed(fs, i, Tree(map[], false));
    }
    assert forall n, w :: Possible(Tear(fs, x), n, w) <==> Possible(fs, n, w);
    DanglingUnlink(cfg, Tear(fs, x), Dir(x), p, id);
  }

  lemma DanglingUnlink(cfg: Config, fs: Fs, n: Name, p: Ino, id: bytes)
    requires Dangling(cfg, fs, p, id) && n != Running
    ensures Dangling(cfg, Unlink(fs, n), p, id)
  {
    if n in fs.live {
      SetEntryWellFormed(fs, n, None);
      SetEntryPossible(fs, n, None);
    }
  }

  lemma {:induction false} DanglingCleanup(cfg: Config, fs: Fs, path: bytes, order: seq<bytes>, p: Ino, id: bytes)
    requires Dangling(cfg, fs, p, id)
    ensures forall s :: s in CleanupTrace(cfg, fs, path, order) ==> Dangling(cfg, s, p, id)
    decreases |order|
  {
    if order == [] {
    } else {
      if Join(cfg.base, order[0]) == path {
        DanglingCleanup(cfg, fs, path, order[1..], p, id);
      } else {
        DanglingRemove(cfg, fs, order[0], p, id);
        var removed := RemoveTrace(fs, order[0]);
        assert removed[1] in removed;
        DanglingCleanup(cfg, removed[1], path, order[1..], p, id);
      }
    }
  }

  /** With a dangling pointer no startup succeeds, and no startup repairs it. */
  lemma DanglingStartup(cfg: Config, fs: Fs, order: seq<bytes>, elsewhere: bytes -> bool, p: Ino, id: bytes)
    requires Digests(cfg) && Dangling(cfg, fs, p, id)
    ensures Startup(cfg, fs, order, elsewhere).StartFailed? && Startup(cfg, fs, order, elsewhere).error == DirMissing
    ensures forall s :: s in StartTrace(cfg, fs, order) ==> Dangling(cfg, s, p, id)
  {
    var cleaned := Unlink(fs, Updating);
    DanglingUnlink(cfg, fs, Updating, p, id);
    var path := Join(cfg.base, id);
    PointerRoundTrip(cfg, path);
    BaseNameOfJoin(cfg.base, id);
    assert CurrentPath(cfg, cleaned) == Some(path);
    DanglingCleanup(cfg, cleaned, path, order, p, id);
    var trace := StartTrace(cfg, fs, order);
    assert Final(trace) in trace;
    assert CurrentPath(cfg, Final(trace)) == Some(path);
  }

  ghost predicate Bricked(cfg: Config, s: NodeState) {
    s.Down? && exists p, id :: Dangling(cfg, s.fs, p, id)
  }

  /** Once the pointer dangles the node never comes up again, whatever restarts and crashes follow. */
  lemma {:induction false} BrickedForever(cfg: Config, states: seq<NodeState>, events: seq<Event>)
    requires Digests(cfg) && Run(cfg, states, events) && Bricked(cfg, states[0])
    ensures forall i :: 0 <= i <= |events| ==> Bricked(cfg, states[i])
    decreases |events|
  {
    hide Step, Bricked;
    if events == [] {
    } else {
      var n := |events| - 1;
      RunFront(cfg, states, events);
      BrickedForever(cfg, states[..n + 1], events[..n]);
      assert Bricked(cfg, states[..n + 1][n]);
      BrickedStep(cfg, states[n], events[n], states[n + 1]);
      forall i | 0 <= i <= |events| ensures Bricked(cfg, states[i]) {
        assert i == n + 1 || states[i] == states[..n + 1][i];
      }
    }
  }

  lemma BrickedStep(cfg: Config, s: NodeState, e: Event, s': NodeState)
    requires Digests(cfg) && Bricked(cfg, s) && Step(cfg, s, e, s')
    ensures Bricked(cfg, s')
  {
    hide Startup, StartTrace, Dangling, CrashImage;
    var p, id :| Dangling(cfg, s.fs, p, id);
    match e {
      case Restart(order, elsewhere) =>
        DanglingStartup(cfg, s.fs, order, elsewhere, p, id);
        StartupEnd(cfg, s.fs, order, elsewhere);
        assert Dangling(cfg, s'.fs, p, id);
      case FailRestart(order, at) =>
        DanglingStartup(cfg, s.fs, order, _ => false, p, id);
        var trace := StartTrace(cfg, s.fs, order);
        assert trace[at] in trace;
      case CrashInRestart(order, at, image) =>
        DanglingStartup(cfg, s.fs, order, _ => false, p, id);
        var trace := StartTrace(cfg, s.fs, order);
        assert trace[at] in trace;
        DanglingCrash(cfg, trace[at], image, p, id);
      case CrashIdle(image) =>
        DanglingCrash(cfg, s.fs, image, p, id);
      case _ => assert false;
    }
  }

  lemma StartupEnd(cfg: Config, fs: Fs, order: seq<bytes>, elsewhere: bytes -> bool)
    ensures Startup(cfg, fs, order, elsewhere).fs in StartTrace(cfg, fs, order)
  {
    var trace := StartTrace(cfg, fs, order);
    assert Final(trace) in trace;
  }

  lemma {:induction false} CleanupKeepsPointer(cfg: Config, fs: Fs, path: bytes, order: seq<bytes>, q: Ino)
    requires WellFormed(fs) && At(fs.live, Running) == Some(q)
    ensures
      var end := Final([fs] + CleanupTrace(cfg, fs, path, order));
      && WellFormed(end) && At(end.live, Running) == Some(q)
      && q in fs.nodes && q in end.nodes && end.nodes[q] == fs.nodes[q]
      && (forall x :: Dir(x) in end.live ==>
            Dir(x) in fs.live && end.live[Dir(x)] == fs.live[Dir(x)] && (x in order ==> Join(cfg.base, x) == path))
      && (forall i :: i in fs.nodes && fs.nodes[i].Tree? && !fs.nodes[i].intact ==>
            i in end.nodes && end.nodes[i].Tree? && !end.nodes[i].intact)
    decreases |order|
  {
    assert Has(fs, Running, q);
    if order == [] {
    } else {
      var x, rest := order[0], order[1..];
      if Join(cfg.base, x) == path {
        CleanupKeepsPointer(cfg, fs, path, rest, q);
      } else {
        var torn := Tear(fs, x);
        if IsTree(fs, Dir(x)) {
          assert Has(fs, Dir(x), fs.live[Dir(x)]);
          SetNodeWellFormed(fs, fs.live[Dir(x)], Tree(map[], false));
        }
        var removed := RemoveTrace(fs, x);
        SetEntryWellFormed(torn, Dir(x), None);
        CleanupKeepsPointer(cfg, removed[1], path, rest, q);
        var tail := [removed[1]] + CleanupTrace(cfg, removed[1], path, rest);
        assert [fs] + CleanupTrace(cfg, fs, path, order) == [fs, removed[0]] + tail;
        assert Final([fs] + CleanupTrace(cfg, fs, path, order)) == Final(tail);
      }
    }
  }

  // ---- another spelling of the data directory ----

  /**
   Startup opens this directory's database exactly when the data directory is spelled as it was when published.
   Otherwise it removes every database directory here, and then opens the recorded path if that exists elsewhere.
   */
  lemma BaseMustMatch(cfg: Config, base: bytes, fs: Fs, order: seq<bytes>, elsewhere: bytes -> bool,
                      p: Ino, id: bytes, t: Ino, db: Db)
    requires Digests(cfg) && Settled(cfg, fs, p, id, t, db) && Lists(order, fs)
    ensures
      var r := Startup(cfg.(base := base), fs, order, elsewhere);
      var path := Join(cfg.base, id);
      && (base == cfg.base ==> r == Opened(r.fs, id) && Settled(cfg, r.fs, p, id, t, db))
      && (base != cfg.base ==> forall x :: Dir(x) !in r.fs.live)
      && (base != cfg.base ==>
        r == if elsewhere(path) then OpenedElsewhere(r.fs, path) else StartFailed(r.fs, DirMissing))
  {
    hide DataDir.Join, CleanupTrace, PointerBytes, WellFormed;
    if base == cfg.base {
      assert cfg.(base := base) == cfg;
      StartupOpens(cfg, fs, order, elsewhere, p, id, t, db);
    } else {
      var cfg' := cfg.(base := base);
      var path := Join(cfg.base, id);
      var cleaned := Unlink(fs, Updating);
      EntryQuiet(cfg, fs, Updating, p, id, t, db);
      SettledPath(cfg, cleaned, p, id, t, db);
      SamePath(cfg, base, cleaned);
      CleanupKeepsPointer(cfg', cleaned, path, order, p);
      var trace := [cleaned] + CleanupTrace(cfg', cleaned, path, order);
      assert StartTrace(cfg', fs, order) == [fs] + trace;
      var end := Final(trace);
      assert Final(StartTrace(cfg', fs, order)) == end;
      forall x | NoSlash(x) ensures Join(base, x) != path {
        if Join(base, x) == path {
          JoinInjective(base, x, cfg.base, id);
        }
      }
      SamePath(cfg, base, end);
      PointerRoundTrip(cfg, path);
    }
  }

  const SLASH_A: bytes := [0x2F, 0x61]
  const SLASH_B: bytes := [0x2F, 0x62]
  const FIRST: bytes := [0x31]
  const EMPTY := Fs(map[], 0, map[], map[], {})

  /**
   A data directory published as /a and copied to /b with /a left in place: starting on /b deletes the copy and
   opens the database under /a.
   */
  lemma CopiedDirectory(md5: bytes -> bytes)
    requires Digests(Config(SLASH_A, md5))
    ensures
      var copy := Final(FirstRunTrace(Config(SLASH_A, md5), EMPTY, FIRST));
      var r := Startup(Config(SLASH_B, md5), copy, [FIRST], path => path == Join(SLASH_A, FIRST));
      Dir(FIRST) in copy.live && r == OpenedElsewhere(r.fs, Join(SLASH_A, FIRST)) && Dir(FIRST) !in r.fs.live
  {
    hide FirstRunTrace, Startup, Settled;
    var cfg := Config(SLASH_A, md5);
    var copy := Final(FirstRunTrace(cfg, EMPTY, FIRST));
    FirstRunOpens(cfg, EMPTY, FIRST);
    var p, t :| UpOk(cfg, copy, p, FIRST, t, map[]);
    FirstRunEntries(cfg, EMPTY, FIRST);
    LiveEntries(cfg, copy, p, FIRST, t, map[]);
    BaseMustMatch(cfg, SLASH_B, copy, [FIRST], path => path == Join(SLASH_A, FIRST), p, FIRST, t, map[]);
    assert cfg.(base := SLASH_B) == Config(SLASH_B, md5);
  }

  lemma FirstRunEntries(cfg: Config, fs: Fs, id: bytes)
    requires Workable(fs)
    ensures forall n :: n in Final(FirstRunTrace(cfg, fs, id)).live ==> n in fs.live || n == Running || n == Dir(id)
  {
  }

  lemma SamePath(cfg: Config, base: bytes, fs: Fs)
    ensures CurrentPath(cfg.(base := base), fs) == CurrentPath(cfg, fs)
  {
  }
}
