/**
 The one process death that is not safe: between the rename of the pointer file and its directory sync. The next
 start follows the new pointer and removes the old database, but syncs nothing, so a crash of the machine can still
 bring the old pointer back.
 */
module RenameWindow {
  import opened Bytes
  import opened Snapshot
  import opened Disk
  import opened DataDir
  import opened CrashSafety
  import opened CrashRuns
  import opened CrashLimits
  import opened NodeLives
  import opened SyncFailure

  /**
   The live pointer `q` leads to `db` under `id'`; a crash may still find `p`, which leads to the old database as
   long as that is whole, and to ruin once it is being removed.
   */
  ghost predicate Swing(cfg: Config, fs: Fs, p: Ino, id: bytes, t: Ino, old': Db, q: Ino, id': bytes, u: Ino, db: Db) {
    && At(fs.live, Running) == Some(q) && At(fs.live, Updating) == None
    && Possible(fs, Running, Some(p)) && (forall n :: Possible(fs, n, At(fs.live, n)))
    && (Both(cfg, fs, p, id, t, old', q, id', u, db) || Torn(cfg, fs, q, id', u, db, p, id, t))
  }

  /** The old database directory is there and complete. */
  predicate Whole(fs: Fs, id: bytes) {
    IsTree(fs, Dir(id)) && fs.nodes[fs.live[Dir(id)]].intact
  }

  lemma BothWhole(cfg: Config, fs: Fs, p: Ino, id: bytes, t: Ino, old': Db, q: Ino, id': bytes, u: Ino, db: Db)
    requires Both(cfg, fs, p, id, t, old', q, id', u, db)
    ensures Whole(fs, id)
  {
  }

  lemma TornNotWhole(cfg: Config, fs: Fs, q: Ino, id': bytes, u: Ino, db: Db, p: Ino, id: bytes, t: Ino)
    requires Torn(cfg, fs, q, id', u, db, p, id, t)
    ensures !Whole(fs, id)
  {
  }

  // ---- what keeps the window open ----

  lemma SwingStart(cfg: Config, s: NodeState, id': bytes, stages: seq<Db>, db': Db) returns (p: Ino, t: Ino, q: Ino)
    requires s.Up? && Inv(cfg, s) && CanRestore(s, id')
    ensures At(s.fs.live, Running) == Some(p) && p != q
    ensures Swing(cfg, Published(cfg, s.fs, id', stages, db'), p, s.id, t, s.db, q, id', s.fs.next, db')
    ensures Both(cfg, Published(cfg, s.fs, id', stages, db'), p, s.id, t, s.db, q, id', s.fs.next, db')
  {
    hide BeforePublish, Settled, Either, Both, Leads, Torn, Rename;
    p, t :| UpOk(cfg, s.fs, p, s.id, t, s.db);
    LiveEntries(cfg, s.fs, p, s.id, t, s.db);
    FreshDiffers(cfg, s.fs, id', p, s.id, t, s.db);
    var before := BeforePublish(cfg, s.fs, id', stages, db');
    BeforePublishSafe(cfg, s.fs, id', stages, db', p, s.id, t, s.db);
    var end := Final(before);
    q := end.live[Updating];
    assert end in before;
    LiveEntries(cfg, end, p, s.id, t, s.db);
    RenameSafe(cfg, end, p, s.id, t, s.db, id', s.fs.next, db');
    EitherFacts(cfg, Rename(end), p, s.id, t, s.db, q, id', s.fs.next, db');
    EitherIsBoth(cfg, Rename(end), p, s.id, t, s.db, q, id', s.fs.next, db');
    RenamedLive(end, id');
    RenamePossible(end);
  }

  lemma RenamePossible(fs: Fs)
    requires fs.disk == fs.live && Updating in fs.live
    ensures Possible(Rename(fs), Running, At(fs.live, Running))
  {
  }

  lemma SwingPut(cfg: Config, fs: Fs, k: bytes, v: bytes, p: Ino, id: bytes, t: Ino, old': Db, q: Ino, id': bytes,
                 u: Ino,
                 db: Db)
    requires Swing(cfg, fs, p, id, t, old', q, id', u, db) && IsTree(fs, Dir(id'))
    ensures Swing(cfg, Fill(fs, id', db[k := v], true), p, id, t, old', q, id', u, db[k := v])
  {
    hide PointerBytes, DataDir.Join;
    assert Has(fs, Dir(id'), u) && Has(fs, Running, q) && Has(fs, Running, p);
    assert At(fs.live, Dir(id)) == Some(t) ==> Has(fs, Dir(id), t);
    SetNodeWellFormed(fs, u, Tree(db[k := v], true));
    SameEntries(fs, Fill(fs, id', db[k := v], true));
  }

  /** Removing some directory other than the new one. */
  lemma SwingRemove(cfg: Config, fs: Fs, x: bytes, p: Ino, id: bytes, t: Ino, old': Db, q: Ino, id': bytes, u: Ino,
                    db: Db)
    requires Swing(cfg, fs, p, id, t, old', q, id', u, db) && x != id'
    ensures forall s :: s in RemoveTrace(fs, x) ==> Swing(cfg, s, p, id, t, old', q, id', u, db)
    ensures x == id ==> Torn(cfg, RemoveTrace(fs, x)[1], q, id', u, db, p, id, t)
    ensures Torn(cfg, fs, q, id', u, db, p, id, t) ==> Torn(cfg, RemoveTrace(fs, x)[1], q, id', u, db, p, id, t)
  {
    hide Both, Torn;
    RemovePossible(fs, x, p);
    if Torn(cfg, fs, q, id', u, db, p, id, t) {
      TornRemove(cfg, fs, x, q, id', u, db, p, id, t);
    } else if x == id {
      BothSwaps(cfg, fs, p, id, t, old', q, id', u, db);
      TearOne(cfg, fs, q, id', u, db, p, id, t, old');
      var removed := RemoveTrace(fs, x);
      assert removed[1] in removed;
    } else {
      BothRemove(cfg, fs, x, p, id, t, old', q, id', u, db);
    }
  }

  lemma BothSwaps(cfg: Config, fs: Fs, p: Ino, id: bytes, t: Ino, db: Db, q: Ino, id': bytes, u: Ino, db': Db)
    requires Both(cfg, fs, p, id, t, db, q, id', u, db')
    ensures Both(cfg, fs, q, id', u, db', p, id, t, db)
  {
  }

  lemma RemovePossible(fs: Fs, x: bytes, p: Ino)
    requires forall n :: Possible(fs, n, At(fs.live, n))
    ensures forall s :: s in RemoveTrace(fs, x) ==>
      && (forall n :: Possible(s, n, At(s.live, n)))
        && (Possible(fs, Running, Some(p)) ==> Possible(s, Running, Some(p)))
      && At(s.live, Running) == At(fs.live, Running) && At(s.live, Updating) == At(fs.live, Updating)
  {
    var torn := Tear(fs, x);
    SameEntries(fs, torn);
    var gone := Unlink(torn, Dir(x));
    SetEntryPossible(torn, Dir(x), None);
    assert torn.live == fs.live;
    forall n ensures Possible(torn, n, At(torn.live, n)) && Possible(gone, n, At(gone.live, n)) {
      assert Possible(fs, n, At(fs.live, n));
    }
    assert RemoveTrace(fs, x) == [torn, gone];
  }

  lemma TornRemove(cfg: Config, fs: Fs, x: bytes, q: Ino, id': bytes, u: Ino, db: Db, p: Ino, id: bytes, t: Ino)
    requires Torn(cfg, fs, q, id', u, db, p, id, t) && x != id'
    ensures forall s :: s in RemoveTrace(fs, x) ==> Torn(cfg, s, q, id', u, db, p, id, t)
  {
    hide PointerBytes, DataDir.Join;
    var torn := Tear(fs, x);
    assert Has(fs, Dir(id'), u);
    if IsTree(fs, Dir(x)) {
      assert Has(fs, Dir(x), fs.live[Dir(x)]);
      SetNodeWellFormed(fs, fs.live[Dir(x)], Tree(map[], false));
    }
    SameEntries(fs, torn);
    assert Torn(cfg, torn, q, id', u, db, p, id, t);
    if Dir(x) in torn.live {
      SetEntryWellFormed(torn, Dir(x), None);
      SetEntryPossible(torn, Dir(x), None);
      assert Torn(cfg, SetEntry(torn, Dir(x), None), q, id', u, db, p, id, t);
    }
  }

  lemma BothRemove(cfg: Config, fs: Fs, x: bytes, p: Ino, id: bytes, t: Ino, db: Db, q: Ino, id': bytes, u: Ino,
                   db': Db)
    requires Both(cfg, fs, p, id, t, db, q, id', u, db') && x != id && x != id'
    ensures forall s :: s in RemoveTrace(fs, x) ==> Both(cfg, s, p, id, t, db, q, id', u, db')
  {
    hide PointerBytes, DataDir.Join;
    var torn := Tear(fs, x);
    assert Has(fs, Dir(id'), u) && Has(fs, Dir(id), t);
    if IsTree(fs, Dir(x)) {
      assert Has(fs, Dir(x), fs.live[Dir(x)]);
      SetNodeWellFormed(fs, fs.live[Dir(x)], Tree(map[], false));
    }
    SameEntries(fs, torn);
    assert Both(cfg, torn, p, id, t, db, q, id', u, db');
    if Dir(x) in torn.live {
      SetEntryWellFormed(torn, Dir(x), None);
      SetEntryPossible(torn, Dir(x), None);
      assert Both(cfg, SetEntry(torn, Dir(x), None), p, id, t, db, q, id', u, db');
    }
  }

  /** Cleaning up after the new pointer keeps the window open, and ends with the old database ruined. */
  lemma {:induction false} SwingCleanup(cfg: Config, fs: Fs, order: seq<bytes>, p: Ino, id: bytes, t: Ino, old': Db,
                                        q: Ino, id': bytes, u: Ino, db: Db)
    requires Swing(cfg, fs, p, id, t, old', q, id', u, db) && NoSlash(id') && id != id'
    requires forall x :: x in order ==> NoSlash(x)
    ensures
      var trace := [fs] + CleanupTrace(cfg, fs, Join(cfg.base, id'), order);
      && (forall s :: s in trace ==> Swing(cfg, s, p, id, t, old', q, id', u, db))
      && (id in order || Torn(cfg, fs, q, id', u, db, p, id, t) ==> Torn(cfg, Final(trace), q, id', u, db, p, id, t))
    decreases |order|
  {
    hide Swing, Torn, RemoveTrace, DataDir.Join;
    if order == [] {
    } else {
      var x, rest := order[0], order[1..];
      if Join(cfg.base, x) == Join(cfg.base, id') {
        JoinInjective(cfg.base, x, cfg.base, id');
        SwingCleanup(cfg, fs, rest, p, id, t, old', q, id', u, db);
      } else {
        SwingRemove(cfg, fs, x, p, id, t, old', q, id', u, db);
        var removed := RemoveTrace(fs, x);
        assert removed[0] in removed && removed[1] in removed;
        SwingCleanup(cfg, removed[1], rest, p, id, t, old', q, id', u, db);
        var tail := [removed[1]] + CleanupTrace(cfg, removed[1], Join(cfg.base, id'), rest);
        assert [fs] + CleanupTrace(cfg, fs, Join(cfg.base, id'), order) == [fs, removed[0]] + tail;
        RestIsFinal(fs, removed, CleanupTrace(cfg, removed[1], Join(cfg.base, id'), rest));
      }
    }
  }

  lemma SwingFacts(cfg: Config, fs: Fs, p: Ino, id: bytes, t: Ino, old': Db, q: Ino, id': bytes, u: Ino, db: Db)
    requires Digests(cfg) && Swing(cfg, fs, p, id, t, old', q, id', u, db)
    ensures id != id' && NoSlash(id') && p != q && WellFormed(fs)
    ensures Unlink(fs, Updating) == fs && CurrentPath(cfg, fs) == Some(Join(cfg.base, id'))
    ensures IsTree(fs, Dir(id')) && fs.nodes[fs.live[Dir(id')]] == Tree(db, true)
  {
    PointerRoundTrip(cfg, Join(cfg.base, id'));
  }

  /** A start in the window opens the new database, and leaves the window open over the ruins of the old one. */
  lemma SwingStartup(cfg: Config, fs: Fs, order: seq<bytes>, elsewhere: bytes -> bool, p: Ino, id: bytes, t: Ino,
                     old': Db,
                     q: Ino, id': bytes, u: Ino, db: Db)
    requires Digests(cfg) && Swing(cfg, fs, p, id, t, old', q, id', u, db) && Lists(order, fs)
    ensures forall s :: s in StartTrace(cfg, fs, order) ==> Swing(cfg, s, p, id, t, old', q, id', u, db)
    ensures
      var r := Startup(cfg, fs, order, elsewhere);
      && r == Opened(r.fs, id') && Swing(cfg, r.fs, p, id, t, old', q, id', u, db)
      && IsTree(r.fs, Dir(id')) && Contents(r.fs, id') == db && !Whole(r.fs, id)
  {
    SwingFacts(cfg, fs, p, id, t, old', q, id', u, db);
    SwingCleanup(cfg, fs, order, p, id, t, old', q, id', u, db);
    InOrderOrTorn(cfg, fs, order, p, id, t, old', q, id', u, db);
    hide Swing, Torn, CleanupTrace, Both;
    var path := Join(cfg.base, id');
    var trace := [fs] + CleanupTrace(cfg, fs, path, order);
    assert StartTrace(cfg, fs, order) == [fs] + trace;
    assert Final(StartTrace(cfg, fs, order)) == Final(trace) && Final(trace) in trace;
    SwingFacts(cfg, Final(trace), p, id, t, old', q, id', u, db);
    BaseNameOfJoin(cfg.base, id');
    TornNotWhole(cfg, Final(trace), q, id', u, db, p, id, t);
  }

  lemma InOrderOrTorn(cfg: Config, fs: Fs, order: seq<bytes>, p: Ino, id: bytes, t: Ino, old': Db, q: Ino, id': bytes,
                      u: Ino, db: Db)
    requires Swing(cfg, fs, p, id, t, old', q, id', u, db) && Lists(order, fs)
    ensures id in order || Torn(cfg, fs, q, id', u, db, p, id, t)
  {
  }

  // ---- runs without a machine crash ----

  /** Writes, stops and starts, failing ones included; no machine crash and no further restore. */
  predicate Ordinary(e: Event) {
    e.Put? || e.Stop? || e.Restart? || e.FailRestart?
  }

  ghost predicate InWindow(cfg: Config, s: NodeState, p: Ino, id: bytes, t: Ino, old': Db, q: Ino, id': bytes, u: Ino) {
    Swing(cfg, s.fs, p, id, t, old', q, id', u, s.db) && (s.Up? ==> s.id == id')
  }

  lemma WindowStep(cfg: Config, s: NodeState, e: Event, s': NodeState, p: Ino, id: bytes, t: Ino, old': Db, q: Ino,
                   id': bytes, u: Ino)
    requires Digests(cfg) && InWindow(cfg, s, p, id, t, old', q, id', u) && Step(cfg, s, e, s') && Ordinary(e)
    ensures InWindow(cfg, s', p, id, t, old', q, id', u)
    ensures e.Restart? ==> s'.Up? && s'.db == s.db
  {
    hide Swing, Startup, StartTrace;
    match e {
      case Put(k, v) => SwingPut(cfg, s.fs, k, v, p, id, t, old', q, id', u, s.db);
      case Stop =>
      case Restart(order, elsewhere) => SwingStartup(cfg, s.fs, order, elsewhere, p, id, t, old', q, id', u, s.db);
      case FailRestart(order, at) =>
        SwingStartup(cfg, s.fs, order, _ => false, p, id, t, old', q, id', u, s.db);
        assert StartTrace(cfg, s.fs, order)[at] in StartTrace(cfg, s.fs, order);
    }
  }

  ghost predicate OrdinaryRun(cfg: Config, states: seq<NodeState>, events: seq<Event>) {
    Run(cfg, states, events) && forall i :: 0 <= i < |events| ==> Ordinary(events[i])
  }

  lemma {:induction false} WindowRun(cfg: Config, states: seq<NodeState>, events: seq<Event>, p: Ino, id: bytes, t: Ino,
                                     old': Db, q: Ino, id': bytes, u: Ino)
    requires Digests(cfg) && OrdinaryRun(cfg, states, events) && InWindow(cfg, states[0], p, id, t, old', q, id', u)
    ensures InWindow(cfg, states[|events|], p, id, t, old', q, id', u)
    decreases |events|
  {
    hide InWindow, Ordinary, Step;
    if events == [] {
    } else {
      var n := |events| - 1;
      RunFront(cfg, states, events);
      WindowRun(cfg, states[..n + 1], events[..n], p, id, t, old', q, id', u);
      assert Step(cfg, states[n], events[n], states[n + 1]) && Ordinary(events[n]);
      WindowStep(cfg, states[n], events[n], states[n + 1], p, id, t, old', q, id', u);
    }
  }

  lemma WindowCrash(cfg: Config, s: NodeState, image: Fs, order: seq<bytes>, elsewhere: bytes -> bool, p: Ino,
                    id: bytes,
                    t: Ino, old': Db, q: Ino, id': bytes, u: Ino)
    requires Digests(cfg) && InWindow(cfg, s, p, id, t, old', q, id', u)
    requires CrashImage(s.fs, image) && Lists(order, image)
    ensures
      var r := Startup(cfg, image, order, elsewhere);
      if At(image.live, Running) != Some(p) then Usable(r) && r.id == id' && Contents(r.fs, r.id) == s.db
      else if Whole(s.fs, id) then Usable(r) && r.id == id && Contents(r.fs, r.id) == old'
      else !Usable(r)
  {
    hide Torn, Both, Startup, Usable, Lists, Whole, CrashImage, Settled;
    SwingFacts(cfg, s.fs, p, id, t, old', q, id', u, s.db);
    if Torn(cfg, s.fs, q, id', u, s.db, p, id, t) {
      TornNotWhole(cfg, s.fs, q, id', u, s.db, p, id, t);
      TornCrash(cfg, s.fs, image, q, id', u, s.db, p, id, t);
      if At(image.live, Running) == Some(p) {
        RuinedStartup(cfg, image, order, elsewhere, p, id, t);
        RuinedUnusable(Startup(cfg, image, order, elsewhere), id);
      } else {
        SettledUsable(cfg, image, order, elsewhere, q, id', u, s.db);
      }
    } else {
      BothWhole(cfg, s.fs, p, id, t, old', q, id', u, s.db);
      BothCrash(cfg, s.fs, image, p, id, t, old', q, id', u, s.db);
      if At(image.live, Running) == Some(p) {
        SettledUsable(cfg, image, order, elsewhere, p, id, t, old');
      } else {
        SettledUsable(cfg, image, order, elsewhere, q, id', u, s.db);
      }
    }
  }

  lemma BothCrash(cfg: Config, fs: Fs, image: Fs, p: Ino, id: bytes, t: Ino, db: Db, q: Ino, id': bytes, u: Ino,
                  db': Db)
    requires Both(cfg, fs, p, id, t, db, q, id', u, db') && CrashImage(fs, image)
    ensures At(image.live, Running) == Some(p) ==> Settled(cfg, image, p, id, t, db)
    ensures At(image.live, Running) != Some(p) ==> Settled(cfg, image, q, id', u, db')
  {
    CrashWellFormed(fs, image);
    assert Possible(fs, Running, At(image.live, Running));
    assert Possible(fs, Dir(id), At(image.live, Dir(id))) && Possible(fs, Dir(id'), At(image.live, Dir(id')));
    assert Survives(fs.nodes[p], image.nodes[p]) && Survives(fs.nodes[t], image.nodes[t]);
    assert Survives(fs.nodes[q], image.nodes[q]) && Survives(fs.nodes[u], image.nodes[u]);
  }

  /**
   A process killed between the rename and its directory sync, then any writes, stops and starts, then a crash of the
   machine. A restart finds a usable database exactly if the crash kept the rename or the old database is still whole,
   that is, no start has begun to remove it. It holds the restored snapshot with all writes made since in the first
   case, and what the node held before the restore in the second.
   */
  lemma KilledExactly(cfg: Config, s: NodeState, id': bytes, stages: seq<Db>, db': Db, states: seq<NodeState>,
                      events: seq<Event>, image: Fs, order: seq<bytes>, elsewhere: bytes -> bool)
    requires Digests(cfg) && s.Up? && Inv(cfg, s) && CanRestore(s, id')
    requires OrdinaryRun(cfg, states, events) && states[0] == Down(Published(cfg, s.fs, id', stages, db'), db')
    requires CrashImage(states[|events|].fs, image) && Lists(order, image)
    ensures
      var last, r := states[|events|], Startup(cfg, image, order, elsewhere);
      var kept := At(image.live, Running) != At(s.fs.live, Running);
      && (Usable(r) <==> kept || Whole(last.fs, s.id))
      && (kept ==> Usable(r) && Contents(r.fs, r.id) == last.db)
      && (!kept && Usable(r) ==> Contents(r.fs, r.id) == s.db)
  {
    hide Swing, Published, Startup, Usable, Lists, Whole, CrashImage, Step, Both;
    var p, t, q := SwingStart(cfg, s, id', stages, db');
    WindowRun(cfg, states, events, p, s.id, t, s.db, q, id', s.fs.next);
    WindowCrash(cfg, states[|events|], image, order, elsewhere, p, s.id, t, s.db, q, id', s.fs.next);
  }

  /** It does go wrong: from every such death and the start after it, a crash leads where no restart helps. */
  lemma KilledCanLose(cfg: Config, s: NodeState, id': bytes, stages: seq<Db>, db': Db, order: seq<bytes>,
                      elsewhere: bytes -> bool)
    returns (states: seq<NodeState>, image: Fs)
    requires Digests(cfg) && s.Up? && Inv(cfg, s) && CanRestore(s, id')
    requires Lists(order, Published(cfg, s.fs, id', stages, db'))
    ensures Run(cfg, states, [KillAtPublish(id', stages, db'), Restart(order, elsewhere)])
    ensures states[0] == s && states[2].Up? && states[2].db == db' && CrashImage(states[2].fs, image)
    ensures forall order', elsewhere' :: Lists(order', image) ==> !Usable(Startup(cfg, image, order', elsewhere'))
  {
    hide Published, Startup, Usable, Lists, CrashImage, Both, Whole, Torn;
    var p, t, q := SwingStart(cfg, s, id', stages, db');
    var killed := Down(Published(cfg, s.fs, id', stages, db'), db');
    SwingStartup(cfg, killed.fs, order, elsewhere, p, s.id, t, s.db, q, id', s.fs.next, db');
    var r := Startup(cfg, killed.fs, order, elsewhere);
    states := [s, killed, Up(r.fs, id', db')];
    assert Step(cfg, s, KillAtPublish(id', stages, db'), killed);
    assert Step(cfg, killed, Restart(order, elsewhere), states[2]);
    image := Image(r.fs, r.fs.live[Running := p]);
    BackImage(r.fs, p);
    forall order', elsewhere' | Lists(order', image) ensures !Usable(Startup(cfg, image, order', elsewhere')) {
      WindowCrash(cfg, states[2], image, order', elsewhere', p, s.id, t, s.db, q, id', s.fs.next);
    }
  }

  /** A crash may put the old pointer back and keep everything else. */
  lemma BackImage(fs: Fs, p: Ino)
    requires Possible(fs, Running, Some(p)) && forall n :: Possible(fs, n, At(fs.live, n))
    ensures CrashImage(fs, Image(fs, fs.live[Running := p]))
  {
    var entries := fs.live[Running := p];
    forall n ensures Possible(fs, n, At(entries, n)) {
      assert Possible(fs, n, At(fs.live, n));
    }
    ImageIsCrash(fs, entries);
  }

  /** The next restore closes the window: from the sync in its saving of the name on, the node is safe again. */
  lemma NextRestoreCloses(cfg: Config, s: NodeState, p: Ino, id: bytes, t: Ino, old': Db, q: Ino, id': bytes, u: Ino,
                          id2: bytes, stages: seq<Db>, db2: Db)
    requires Digests(cfg) && InWindow(cfg, s, p, id, t, old', q, id', u) && CanRestore(s, id2) && id2 != id'
    ensures
      var end := Final(BeforePublish(cfg, s.fs, id2, stages, db2));
      Settled(cfg, end, q, id', u, s.db) && Guarded(end, q)
  {
    hide BeforePublish, PointerBytes, DataDir.Join, Workable;
    SwingFacts(cfg, s.fs, p, id, t, old', q, id', u, s.db);
    ReadyEnd(cfg, s.fs, id2, stages, db2);
    var end := Final(BeforePublish(cfg, s.fs, id2, stages, db2));
    assert Has(s.fs, Running, q) && Has(s.fs, Dir(id'), u);
    assert forall n, w :: Possible(end, n, w) ==> w == At(end.live, n);
  }

  // ---- a first run ----

  /**
   A process killed during its first run, and started again. Before the rename the next start is a first run again;
   from the rename until the directory is made it fails; then it opens the empty database, but if the directory's
   entry was not synced yet, a crash of the machine can still lose it, and then no start succeeds any more.
   */
  lemma FirstRunKilled(cfg: Config, fs: Fs, id: bytes, k: nat, order: seq<bytes>, elsewhere: bytes -> bool)
    requires Digests(cfg) && Blank(fs, id) && Workable(fs) && NoSlash(id) && Running !in fs.live && Dir(id) !in fs.live
    requires k < 9 && Lists(order, FirstRunTrace(cfg, fs, id)[k])
    ensures
      var now := FirstRunTrace(cfg, fs, id)[k];
      var r := Startup(cfg, now, order, elsewhere);
      && (k < 5 ==> Running !in now.live)
      && (5 <= k <= 6 ==> r == StartFailed(r.fs, DirMissing))
      && (7 <= k ==> Usable(r) && r.id == id && Contents(r.fs, r.id) == map[])
      && (k == 7 ==>
        CrashImage(r.fs, Image(r.fs, r.fs.disk)) && exists q :: Dangling(cfg, Image(r.fs, r.fs.disk), q, id))
  {
    hide SaveTrace, Startup, Lists, Usable, CrashImage, PointerBytes, DataDir.Join, Settled;
    var saved := SaveTrace(cfg, fs, Join(cfg.base, id));
    var trace := FirstRunTrace(cfg, fs, id);
    if k < 5 {
      SaveLive(cfg, fs, Join(cfg.base, id), k);
    } else if k <= 6 {
      PublishFresh(cfg, fs, id);
      assert SameLive(trace[5], trace[6]);
      DanglingStartup(cfg, trace[6], order, elsewhere, saved[4].live[Updating], id);
      StartupSameLive(cfg, trace[k], trace[6], order, elsewhere);
    } else {
      var p, t := FirstRunEnd(cfg, fs, id);
      assert SameLive(trace[7], trace[8]);
      ListsSame(order, trace[k], trace[8]);
      SettledUsable(cfg, trace[8], order, elsewhere, p, id, t, map[]);
      StartupSameLive(cfg, trace[k], trace[8], order, elsewhere);
      UsableSame(Startup(cfg, trace[k], order, elsewhere), Startup(cfg, trace[8], order, elsewhere));
      if k == 7 {
        MadeLost(cfg, fs, id, order, elsewhere);
      }
    }
  }

  lemma SaveLive(cfg: Config, fs: Fs, path: bytes, k: nat)
    requires Workable(fs) && k < 5
    ensures At(SaveTrace(cfg, fs, path)[k].live, Running) == At(fs.live, Running)
  {
  }

  lemma FirstRunEnd(cfg: Config, fs: Fs, id: bytes) returns (p: Ino, t: Ino)
    requires WellFormed(fs) && Workable(fs) && NoSlash(id) && Dir(id) !in fs.live
    ensures Settled(cfg, FirstRunTrace(cfg, fs, id)[8], p, id, t, map[])
  {
    hide FirstRunTrace;
    FirstRunOpens(cfg, fs, id);
    var end := FirstRunTrace(cfg, fs, id)[8];
    assert end == Final(FirstRunTrace(cfg, fs, id));
    p, t :| UpOk(cfg, end, p, id, t, map[]);
  }

  /** The directory is made, its entry is not on the disk; the pointer's is. */
  ghost predicate Made(cfg: Config, fs: Fs, q: Ino, id: bytes) {
    && WellFormed(fs) && NoSlash(id) && At(fs.live, Running) == Some(q) && At(fs.live, Updating) == None
    && q in fs.nodes && fs.nodes[q] == Pointer(PointerBytes(cfg, Join(cfg.base, id)), true)
    && At(fs.disk, Running) == Some(q) && At(fs.disk, Dir(id)) == None
  }

  lemma MadeFacts(cfg: Config, fs: Fs, id: bytes) returns (q: Ino)
    requires Blank(fs, id) && Workable(fs) && NoSlash(id) && Running !in fs.live && Dir(id) !in fs.live
    ensures Made(cfg, FirstRunTrace(cfg, fs, id)[7], q, id)
  {
    hide SaveTrace, PointerBytes, DataDir.Join;
    PublishFresh(cfg, fs, id);
    FirstRunBeginning(cfg, fs, id, 7);
    q := SaveTrace(cfg, fs, Join(cfg.base, id))[4].live[Updating];
  }

  lemma MadeCleanup(cfg: Config, fs: Fs, q: Ino, id: bytes, order: seq<bytes>, elsewhere: bytes -> bool)
    requires Digests(cfg) && Made(cfg, fs, q, id)
    ensures
      var end := Startup(cfg, fs, order, elsewhere).fs;
      WellFormed(end) && q in end.nodes && end.nodes[q] == fs.nodes[q] && end.disk == fs.disk
  {
    hide CleanupTrace, PointerBytes, WellFormed;
    var path := Join(cfg.base, id);
    PointerRoundTrip(cfg, path);
    CleanupKeepsPointer(cfg, fs, path, order, q);
    CleanupSameLive(cfg, fs, fs, path, order);
    var trace := [fs] + CleanupTrace(cfg, fs, path, order);
    assert StartTrace(cfg, fs, order) == [fs] + trace;
    assert Final(StartTrace(cfg, fs, order)) == Final(trace);
  }

  lemma MadeLost(cfg: Config, fs: Fs, id: bytes, order: seq<bytes>, elsewhere: bytes -> bool)
    requires Digests(cfg) && Blank(fs, id) && Workable(fs) && NoSlash(id) && Running !in fs.live && Dir(id) !in fs.live
    ensures
      var r := Startup(cfg, FirstRunTrace(cfg, fs, id)[7], order, elsewhere);
      CrashImage(r.fs, Image(r.fs, r.fs.disk)) && exists q :: Dangling(cfg, Image(r.fs, r.fs.disk), q, id)
  {
    hide FirstRunTrace, Startup, PointerBytes, DataDir.Join, Blank;
    var q := MadeFacts(cfg, fs, id);
    var now := FirstRunTrace(cfg, fs, id)[7];
    MadeCleanup(cfg, now, q, id, order, elsewhere);
    var end := Startup(cfg, now, order, elsewhere).fs;
    CrashImageExists(end);
    CrashWellFormed(end, Image(end, end.disk));
    assert Dangling(cfg, Image(end, end.disk), q, id);
  }
}
