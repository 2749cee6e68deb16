/**
 A restore whose directory sync fails after the rename. cleanupNewDB then removes the directory that was just
 published, as far as it gets, while the node goes on serving, and acknowledging writes to, the old database.
 */
module SyncFailure {
  import opened Bytes
  import opened Snapshot
  import opened Disk
  import opened DataDir
  import opened CrashSafety
  import opened CrashRuns
  import opened CrashLimits
  import opened NodeLives

  /** Where the failure can leave the file system: nothing removed yet, the new directory torn, or gone. */
  function FailureStates(cfg: Config, fs: Fs, id': bytes, stages: seq<Db>, db': Db): (states: seq<Fs>)
    requires Workable(fs)
    ensures |states| == 3
  {
    var published := Published(cfg, fs, id', stages, db');
    [published] + RemoveTrace(published, id')
  }

  /** The live database is whole under its name, whatever the pointer file says. */
  predicate Kept(fs: Fs, id: bytes, t: Ino, db: Db) {
    At(fs.live, Dir(id)) == Some(t) && t in fs.nodes && fs.nodes[t] == Tree(db, true)
  }

  /** A pointer inode that leads to a directory which is torn or gone. */
  ghost predicate LeadsToRuin(cfg: Config, fs: Fs, q: Ino, id': bytes, u: Ino) {
    && q in fs.nodes && fs.nodes[q] == Pointer(PointerBytes(cfg, Join(cfg.base, id')), true) && NoSlash(id')
    && (At(fs.live, Dir(id')) == None || At(fs.live, Dir(id')) == Some(u))
    && (forall v :: Possible(fs, Dir(id'), v) ==> v == None || v == Some(u))
    && u in fs.nodes && fs.nodes[u].Tree? && !fs.nodes[u].intact
  }

  /** The old pointer still leads to its database; the new one leads to ruin. */
  ghost predicate Torn(cfg: Config, fs: Fs, p: Ino, id: bytes, t: Ino, db: Db, q: Ino, id': bytes, u: Ino) {
    && WellFormed(fs) && p != q && id != id'
    && (forall v :: Possible(fs, Running, v) ==> v == Some(p) || v == Some(q))
    && Leads(cfg, fs, p, id, t, db) && LeadsToRuin(cfg, fs, q, id', u)
  }

  /** Two pointers a crash can find, each leading to its own complete database. */
  ghost predicate Both(cfg: Config, fs: Fs, p: Ino, id: bytes, t: Ino, db: Db, q: Ino, id': bytes, u: Ino, db': Db) {
    && WellFormed(fs) && p != q && id != id'
    && (forall v :: Possible(fs, Running, v) ==> v == Some(p) || v == Some(q))
    && Leads(cfg, fs, p, id, t, db) && Leads(cfg, fs, q, id', u, db')
  }

  /** Removing the directory one of them leads to ruins that one and keeps the other. */
  lemma TearOne(cfg: Config, fs: Fs, p: Ino, id: bytes, t: Ino, db: Db, q: Ino, id': bytes, u: Ino, db': Db)
    requires Both(cfg, fs, p, id, t, db, q, id', u, db')
    ensures forall s :: s in RemoveTrace(fs, id') ==>
      && Torn(cfg, s, p, id, t, db, q, id', u)
      && At(s.live, Running) == At(fs.live, Running) && At(s.live, Updating) == At(fs.live, Updating)
  {
    hide PointerBytes;
    assert Has(fs, Dir(id'), u) && Has(fs, Dir(id), t);
    var torn := Tear(fs, id');
    SetNodeWellFormed(fs, u, Tree(map[], false));
    SameEntries(fs, torn);
    assert torn.nodes[p] == fs.nodes[p] && torn.nodes[q] == fs.nodes[q];
    assert Torn(cfg, torn, p, id, t, db, q, id', u);
    SetEntryWellFormed(torn, Dir(id'), None);
    SetEntryPossible(torn, Dir(id'), None);
    assert Torn(cfg, SetEntry(torn, Dir(id'), None), p, id, t, db, q, id', u);
  }

  // ---- what holds from the failure on ----

  /** The old database is live; the new pointer leads to the snapshot if nothing was removed, else to ruin. */
  ghost predicate Failing(cfg: Config, fs: Fs, id: bytes, db: Db, p: Ino, t: Ino, q: Ino, id': bytes, u: Ino, db': Db,
                          swept: nat) {
    && id != id' && At(fs.live, Running) == Some(q) && At(fs.live, Updating) == None && Kept(fs, id, t, db)
    && (if swept == 0 then Either(cfg, fs, p, id, t, db, q, id', u, db') else Torn(cfg, fs, p, id, t, db, q, id', u))
    && forall n :: Possible(fs, n, At(fs.live, n))
  }

  lemma FailingStart(cfg: Config, s: NodeState, id': bytes, stages: seq<Db>, db': Db, swept: nat)
    returns (p: Ino, t: Ino, q: Ino)
    requires s.Up? && Inv(cfg, s) && CanRestore(s, id') && swept < 3
    ensures At(s.fs.live, Running) == Some(p) && p != q
    ensures Failing(cfg, FailureStates(cfg, s.fs, id', stages, db')[swept], s.id, s.db, p, t, q, id', s.fs.next, db',
      swept)
  {
    hide BeforePublish, Settled, Either, Both, Leads, LeadsToRuin, Torn, RemoveTrace, Rename;
    p, t :| UpOk(cfg, s.fs, p, s.id, t, s.db);
    LiveEntries(cfg, s.fs, p, s.id, t, s.db);
    FreshDiffers(cfg, s.fs, id', p, s.id, t, s.db);
    var before := BeforePublish(cfg, s.fs, id', stages, db');
    BeforePublishSafe(cfg, s.fs, id', stages, db', p, s.id, t, s.db);
    var end := Final(before);
    q := end.live[Updating];
    assert end in before;
    RenameSafe(cfg, end, p, s.id, t, s.db, id', s.fs.next, db');
    EitherIsBoth(cfg, Rename(end), p, s.id, t, s.db, q, id', s.fs.next, db');
    TearOne(cfg, Rename(end), p, s.id, t, s.db, q, id', s.fs.next, db');
    RenamedLive(end, id');
    var states := FailureStates(cfg, s.fs, id', stages, db');
    assert swept > 0 ==> states[swept] == RemoveTrace(Rename(end), id')[swept - 1];
    EitherFacts(cfg, Rename(end), p, s.id, t, s.db, q, id', s.fs.next, db');
    if swept > 0 {
      assert states[swept] in RemoveTrace(Rename(end), id');
      TornFacts(cfg, states[swept], p, s.id, t, s.db, q, id', s.fs.next);
    }
  }

  lemma EitherFacts(cfg: Config, fs: Fs, p: Ino, id: bytes, t: Ino, db: Db, q: Ino, id': bytes, u: Ino, db': Db)
    requires Either(cfg, fs, p, id, t, db, q, id', u, db')
    ensures p != q && At(fs.live, Running) == Some(q) && At(fs.live, Updating) == None && Kept(fs, id, t, db)
  {
  }

  lemma EitherIsBoth(cfg: Config, fs: Fs, p: Ino, id: bytes, t: Ino, db: Db, q: Ino, id': bytes, u: Ino, db': Db)
    requires Either(cfg, fs, p, id, t, db, q, id', u, db') && id != id'
    ensures Both(cfg, fs, p, id, t, db, q, id', u, db') && Both(cfg, fs, q, id', u, db', p, id, t, db)
  {
  }

  lemma TornFacts(cfg: Config, fs: Fs, p: Ino, id: bytes, t: Ino, db: Db, q: Ino, id': bytes, u: Ino)
    requires Torn(cfg, fs, p, id, t, db, q, id', u)
    ensures Kept(fs, id, t, db)
  {
  }

  /** What system calls see after the rename and the removal may also be what a crash finds. */
  lemma RenamedLive(fs: Fs, id: bytes)
    requires fs.disk == fs.live && Updating in fs.live
    ensures forall s :: s in [Rename(fs)] + RemoveTrace(Rename(fs), id) ==> forall n :: Possible(s, n, At(s.live, n))
  {
  }

  /** The node goes on: a write reaches the old database and changes nothing else. */
  lemma FailingPut(cfg: Config, fs: Fs, id: bytes, db: Db, k: bytes, v: bytes, p: Ino, t: Ino, q: Ino, id': bytes,
                   u: Ino,
                   db': Db, swept: nat)
    requires Failing(cfg, fs, id, db, p, t, q, id', u, db', swept) && IsTree(fs, Dir(id))
    ensures Failing(cfg, Fill(fs, id, db[k := v], true), id, db[k := v], p, t, q, id', u, db', swept)
  {
    hide PointerBytes;
    assert Has(fs, Dir(id), t) && Has(fs, Running, q);
    assert swept == 0 ==> Has(fs, Dir(id'), u);
    SetNodeWellFormed(fs, t, Tree(db[k := v], true));
    SameEntries(fs, Fill(fs, id, db[k := v], true));
  }

  ghost predicate Writes(cfg: Config, states: seq<NodeState>, events: seq<Event>) {
    Run(cfg, states, events) && forall i :: 0 <= i < |events| ==> events[i].Put?
  }

  lemma {:induction false} FailingRun(cfg: Config, states: seq<NodeState>, events: seq<Event>, p: Ino, t: Ino, q: Ino,
                                      id': bytes, u: Ino, db': Db, swept: nat)
    requires Writes(cfg, states, events) && states[0].Up?
    requires Failing(cfg, states[0].fs, states[0].id, states[0].db, p, t, q, id', u, db', swept)
    ensures
      var last := states[|events|];
      last.Up? && last.id == states[0].id && Failing(cfg, last.fs, last.id, last.db, p, t, q, id', u, db', swept)
    decreases |events|
  {
    hide Failing;
    if events == [] {
    } else {
      var n := |events| - 1;
      RunFront(cfg, states, events);
      FailingRun(cfg, states[..n + 1], events[..n], p, t, q, id', u, db', swept);
      assert Step(cfg, states[n], events[n], states[n + 1]) && events[n].Put?;
      var s := states[n];
      FailingPut(cfg, s.fs, s.id, s.db, events[n].key, events[n].val, p, t, q, id', u, db', swept);
    }
  }

  // ---- what a restart finds ----

  /** With the new pointer startup opens nothing complete, and removes the old database's directory. */
  lemma RuinedStartup(cfg: Config, fs: Fs, order: seq<bytes>, elsewhere: bytes -> bool, q: Ino, id': bytes, u: Ino)
    requires Digests(cfg) && WellFormed(fs) && At(fs.live, Running) == Some(q) && LeadsToRuin(cfg, fs, q, id', u)
    requires Lists(order, fs)
    ensures
      var r := Startup(cfg, fs, order, elsewhere);
      && (r.Opened? ==> r.id == id' && IsTree(r.fs, Dir(id')) && !r.fs.nodes[r.fs.live[Dir(id')]].intact)
      && !r.OpenedElsewhere? && forall x :: Dir(x) in r.fs.live ==> x == id'
  {
    hide CleanupTrace, PointerBytes;
    var path := Join(cfg.base, id');
    var cleaned := Unlink(fs, Updating);
    if Updating in fs.live {
      SetEntryWellFormed(fs, Updating, None);
    }
    PointerRoundTrip(cfg, path);
    BaseNameOfJoin(cfg.base, id');
    CleanupKeepsPointer(cfg, cleaned, path, order, q);
    var trace := [cleaned] + CleanupTrace(cfg, cleaned, path, order);
    assert StartTrace(cfg, fs, order) == [fs] + trace;
    assert Final(StartTrace(cfg, fs, order)) == Final(trace);
    forall x | Dir(x) in Final(trace).live ensures x == id' {
      assert x in order;
      JoinInjective(cfg.base, x, cfg.base, id');
    }
  }

  /** Startup found a database of this directory that is complete. */
  predicate Usable(r: Start) {
    r.Opened? && IsTree(r.fs, Dir(r.id)) && r.fs.nodes[r.fs.live[Dir(r.id)]].intact
  }

  lemma SettledUsable(cfg: Config, fs: Fs, order: seq<bytes>, elsewhere: bytes -> bool, p: Ino, id: bytes, t: Ino,
                      db: Db)
    requires Digests(cfg) && Settled(cfg, fs, p, id, t, db) && Lists(order, fs)
    ensures
      var r := Startup(cfg, fs, order, elsewhere);
      && Usable(r) && r.id == id && Contents(r.fs, r.id) == db
      && forall x :: Dir(x) in r.fs.live ==> x == id
  {
    hide Startup;
    StartupOpens(cfg, fs, order, elsewhere, p, id, t, db);
  }

  lemma FailingCrash(cfg: Config, fs: Fs, id: bytes, db: Db, image: Fs, order: seq<bytes>, elsewhere: bytes -> bool,
                     p: Ino, t: Ino, q: Ino, id': bytes, u: Ino, db': Db, swept: nat)
    requires Digests(cfg) && Failing(cfg, fs, id, db, p, t, q, id', u, db', swept)
    requires CrashImage(fs, image) && Lists(order, image)
    ensures
      var r := Startup(cfg, image, order, elsewhere);
      if At(image.live, Running) == Some(p) then Usable(r) && Contents(r.fs, r.id) == db
      else
        && Dir(id) !in r.fs.live
        && (if swept == 0 then Usable(r) && r.id == id' && Contents(r.fs, r.id) == db' else !Usable(r))
  {
    hide Settled, Either, Leads, LeadsToRuin, Torn, Startup, CrashImage, Usable, Lists, WellFormed;
    if swept == 0 {
      EitherCrash(cfg, fs, image, p, id, t, db, q, id', u, db');
    } else {
      TornCrash(cfg, fs, image, p, id, t, db, q, id', u);
    }
    if At(image.live, Running) == Some(p) {
      SettledUsable(cfg, image, order, elsewhere, p, id, t, db);
    } else if swept == 0 {
      SettledUsable(cfg, image, order, elsewhere, q, id', u, db');
    } else {
      RuinedStartup(cfg, image, order, elsewhere, q, id', u);
      RuinedUnusable(Startup(cfg, image, order, elsewhere), id');
    }
  }

  lemma RuinedUnusable(r: Start, id': bytes)
    requires r.Opened? ==> r.id == id' && IsTree(r.fs, Dir(id')) && !r.fs.nodes[r.fs.live[Dir(id')]].intact
    ensures !Usable(r)
  {
  }

  /**
   A crash at any point after such a failure, however far the removal got and however many writes the node has
   served since. If the crash lost the rename, a restart opens the old database with all of them. Otherwise the old
   database's directory is removed and they are lost: if nothing had been removed the restart opens the snapshot,
   and from the tear on it finds no usable database.
   */
  lemma SyncFailureLosesNode(cfg: Config, s: NodeState, id': bytes, stages: seq<Db>, db': Db, swept: nat,
                             states: seq<NodeState>, events: seq<Event>, image: Fs, order: seq<bytes>,
                             elsewhere: bytes -> bool)
    requires Digests(cfg) && s.Up? && Inv(cfg, s) && CanRestore(s, id') && swept < 3
    requires Writes(cfg, states, events)
    requires states[0] == Up(FailureStates(cfg, s.fs, id', stages, db')[swept], s.id, s.db)
    requires CrashImage(states[|events|].fs, image) && Lists(order, image)
    ensures
      var r := Startup(cfg, image, order, elsewhere);
      var lost := At(image.live, Running) == At(s.fs.live, Running);
      && (Usable(r) <==> lost || swept == 0)
      && (lost ==> Usable(r) && Contents(r.fs, r.id) == states[|events|].db)
      && (!lost ==> Dir(s.id) !in r.fs.live && (swept == 0 ==> Usable(r) && r.id == id' && Contents(r.fs, r.id) == db'))
  {
    hide Failing, FailureStates, Startup, CrashImage, Usable, Lists, Step;
    var p, t, q := FailingStart(cfg, s, id', stages, db', swept);
    FailingRun(cfg, states, events, p, t, q, id', s.fs.next, db', swept);
    var last := states[|events|];
    FailingCrash(cfg, last.fs, last.id, last.db, image, order, elsewhere, p, t, q, id', s.fs.next, db', swept);
  }

  /** The bad case can always happen: whatever was written since, a crash may keep the new pointer. */
  lemma SyncFailureCanLoseNode(cfg: Config, s: NodeState, id': bytes, stages: seq<Db>, db': Db, swept: nat,
                               states: seq<NodeState>, events: seq<Event>)
    returns (image: Fs)
    requires Digests(cfg) && s.Up? && Inv(cfg, s) && CanRestore(s, id') && 0 < swept < 3
    requires Writes(cfg, states, events)
    requires states[0] == Up(FailureStates(cfg, s.fs, id', stages, db')[swept], s.id, s.db)
    ensures CrashImage(states[|events|].fs, image)
    ensures forall order, elsewhere :: Lists(order, image) ==> !Usable(Startup(cfg, image, order, elsewhere))
  {
    hide FailureStates, Startup, Usable, Lists, Step, Either, Torn, CrashImage;
    var p, t, q := FailingStart(cfg, s, id', stages, db', swept);
    FailingRun(cfg, states, events, p, t, q, id', s.fs.next, db', swept);
    var fs := states[|events|].fs;
    image := Image(fs, fs.live);
    ImageIsCrash(fs, fs.live);
    forall order, elsewhere | Lists(order, image) ensures !Usable(Startup(cfg, image, order, elsewhere)) {
      SyncFailureLosesNode(cfg, s, id', stages, db', swept, states, events, image, order, elsewhere);
    }
  }

  /**
   No machine crash is needed: if the process is just restarted, the old database's directory is removed at once and
   the writes made since are lost, and unless nothing had been removed no usable database is found.
   */
  lemma SyncFailureRestart(cfg: Config, s: NodeState, id': bytes, stages: seq<Db>, db': Db, swept: nat,
                           states: seq<NodeState>, events: seq<Event>, order: seq<bytes>, elsewhere: bytes -> bool)
    requires Digests(cfg) && s.Up? && Inv(cfg, s) && CanRestore(s, id') && swept < 3
    requires Writes(cfg, states, events)
    requires states[0] == Up(FailureStates(cfg, s.fs, id', stages, db')[swept], s.id, s.db)
    requires Lists(order, states[|events|].fs)
    ensures
      var r := Startup(cfg, states[|events|].fs, order, elsewhere);
      && Dir(s.id) !in r.fs.live
      && (if swept == 0 then Usable(r) && r.id == id' && Contents(r.fs, r.id) == db' else !Usable(r))
  {
    hide FailureStates, Startup, Usable, Lists, Step, Leads, LeadsToRuin, Settled;
    var p, t, q := FailingStart(cfg, s, id', stages, db', swept);
    FailingRun(cfg, states, events, p, t, q, id', s.fs.next, db', swept);
    var fs := states[|events|].fs;
    if swept == 0 {
      var synced := PointerSynced(fs);
      EitherSynced(cfg, fs, p, s.id, t, states[|events|].db, q, id', s.fs.next, db');
      ListsSame(order, fs, synced);
      SettledUsable(cfg, synced, order, elsewhere, q, id', s.fs.next, db');
      StartupSameLive(cfg, fs, synced, order, elsewhere);
      UsableSame(Startup(cfg, fs, order, elsewhere), Startup(cfg, synced, order, elsewhere));
    } else {
      RuinedStartup(cfg, fs, order, elsewhere, q, id', s.fs.next);
      RuinedUnusable(Startup(cfg, fs, order, elsewhere), id');
    }
  }

  lemma ListsSame(order: seq<bytes>, a: Fs, b: Fs)
    requires SameLive(a, b) && Lists(order, a)
    ensures Lists(order, b)
  {
  }

  lemma UsableSame(a: Start, b: Start)
    requires SameLive(a.fs, b.fs) && a == b.(fs := a.fs) && Usable(b)
    ensures Usable(a) && a.id == b.id && Contents(a.fs, a.id) == Contents(b.fs, b.id)
  {
  }

  /**
   A later restore first makes the loss certain: its saving of the name syncs the data directory, and with it the
   rename whose own sync had failed. From then until its own rename every crash ends as the bad case above. Once its
   own rename is synced the node is safe again (CrashLimits.RestoreHeals).
   */
  lemma LaterRestoreSeals(cfg: Config, fs: Fs, id: bytes, db: Db, p: Ino, t: Ino, q: Ino, id': bytes, u: Ino, db': Db,
                          swept: nat, id2: bytes, stages: seq<Db>, db2: Db, image: Fs, order: seq<bytes>,
                          elsewhere: bytes -> bool)
    requires Digests(cfg) && Failing(cfg, fs, id, db, p, t, q, id', u, db', swept)
    requires WellFormed(fs) && Workable(fs) && Fresh(fs, id2) && id2 != id'
    requires CrashImage(Final(BeforePublish(cfg, fs, id2, stages, db2)), image) && Lists(order, image)
    ensures At(image.live, Running) == Some(q)
    ensures
      var r := Startup(cfg, image, order, elsewhere);
      && Dir(id) !in r.fs.live
      && (if swept == 0 then Usable(r) && r.id == id' && Contents(r.fs, r.id) == db' else !Usable(r))
  {
    hide BeforePublish, PointerBytes, DataDir.Join, Startup, Usable, Lists;
    ReadyEnd(cfg, fs, id2, stages, db2);
    var end := Final(BeforePublish(cfg, fs, id2, stages, db2));
    CrashWellFormed(end, image);
    assert Possible(end, Running, At(image.live, Running)) && Possible(end, Dir(id'), At(image.live, Dir(id')));
    assert Survives(end.nodes[q], image.nodes[q]) && Survives(end.nodes[u], image.nodes[u]);
    if swept == 0 {
      assert Settled(cfg, image, q, id', u, db');
      SettledUsable(cfg, image, order, elsewhere, q, id', u, db');
    } else {
      assert LeadsToRuin(cfg, image, q, id', u);
      RuinedStartup(cfg, image, order, elsewhere, q, id', u);
      RuinedUnusable(Startup(cfg, image, order, elsewhere), id');
    }
  }

  lemma TornCrash(cfg: Config, fs: Fs, image: Fs, p: Ino, id: bytes, t: Ino, db: Db, q: Ino, id': bytes, u: Ino)
    requires Torn(cfg, fs, p, id, t, db, q, id', u) && CrashImage(fs, image)
    ensures WellFormed(image)
    ensures At(image.live, Running) == Some(p) ==> Settled(cfg, image, p, id, t, db)
    ensures At(image.live, Running) != Some(p) ==>
      At(image.live, Running) == Some(q) && LeadsToRuin(cfg, image, q, id', u)
  {
    CrashWellFormed(fs, image);
    assert Possible(fs, Running, At(image.live, Running));
    assert Possible(fs, Dir(id), At(image.live, Dir(id)));
    assert Possible(fs, Dir(id'), At(image.live, Dir(id')));
    assert Survives(fs.nodes[p], image.nodes[p]) && Survives(fs.nodes[t], image.nodes[t]);
    assert Survives(fs.nodes[q], image.nodes[q]) && Survives(fs.nodes[u], image.nodes[u]);
  }
}
