/**
 Whole lives of a node: any sequence of writes, restores, failures, crashes, process deaths and restarts. A crash
 takes the machine down and leaves a crash image; a process that stops or is killed leaves the file system as it is.
 */
module CrashRuns {
  import opened Bytes
  import opened Snapshot
  import opened Disk
  import opened DataDir
  import opened CrashSafety

  /**
   A node is up, serving the database directory `id`, or nothing serves this data directory. `db` is what it should
   hold: the writes made through the open database, or the restored snapshot once the rename has taken effect.
   */
  datatype NodeState = Up(fs: Fs, id: bytes, db: Db) | Down(fs: Fs, db: Db)

  datatype Event =
    | Put(key: bytes, val: bytes)
    | Restore(id: bytes, stages: seq<Db>, db: Db, steps: nat)
    | FailRestore(id: bytes, stages: seq<Db>, db: Db, at: nat, deferred: bool, swept: nat)
    | CrashIdle(image: Fs)
    | CrashBeforePublish(id: bytes, stages: seq<Db>, db: Db, at: nat, image: Fs)
    | CrashAtPublish(id: bytes, stages: seq<Db>, db: Db, image: Fs)
    | CrashAfterPublish(id: bytes, stages: seq<Db>, db: Db, steps: nat, image: Fs)
    | CrashInCleanup(id: bytes, stages: seq<Db>, db: Db, at: nat, deferred: bool, step: nat, image: Fs)
    | Stop
    | KillBeforePublish(id: bytes, stages: seq<Db>, db: Db, at: nat)
    | KillAtPublish(id: bytes, stages: seq<Db>, db: Db)
    | KillAfterPublish(id: bytes, stages: seq<Db>, db: Db, steps: nat)
    | KillInCleanup(id: bytes, stages: seq<Db>, db: Db, at: nat, deferred: bool, step: nat)
    | Restart(order: seq<bytes>, elsewhere: bytes -> bool)
    | FailRestart(order: seq<bytes>, at: nat)
    | CrashInRestart(order: seq<bytes>, at: nat, image: Fs)

  /** The directory the pointer file names, as recoverSnapShot reads it before it starts. */
  function CurrentId(cfg: Config, fs: Fs): bytes {
    match CurrentPath(cfg, fs)
    case None => []
    case Some(path) => BaseName(path)
  }

  function Contents(fs: Fs, id: bytes): Db
    requires IsTree(fs, Dir(id))
  {
    fs.nodes[fs.live[Dir(id)]].db
  }

  ghost predicate CanRestore(s: NodeState, id: bytes) {
    s.Up? && Workable(s.fs) && Fresh(s.fs, id)
  }

  /** The system calls of each event, run from `s`. */
  ghost predicate Step(cfg: Config, s: NodeState, e: Event, s': NodeState) {
    match e
    case Put(k, v) =>
      && s.Up? && IsTree(s.fs, Dir(s.id))
      && s' == Up(Fill(s.fs, s.id, s.db[k := v], true), s.id, s.db[k := v])
    case Restore(id, stages, db, steps) =>
      && CanRestore(s, id) && steps < 4
      && s' == Up(AfterPublish(cfg, s.fs, id, stages, db, CurrentId(cfg, s.fs))[steps], id, db)
    case FailRestore(id, stages, db, at, deferred, swept) =>
      // the error of cleanupNewDB is ignored, so the new directory may stay behind whole or torn
      && CanRestore(s, id) && at < |stages| + 8 && swept < 3
      && s' == Up(FailedTrace(cfg, s.fs, id, stages, db, at, deferred)[swept], s.id, s.db)
    case CrashIdle(image) =>
      && CrashImage(s.fs, image) && s' == Down(image, s.db)
    case CrashBeforePublish(id, stages, db, at, image) =>
      && CanRestore(s, id) && at < |stages| + 8
      && CrashImage(BeforePublish(cfg, s.fs, id, stages, db)[at], image) && s' == Down(image, s.db)
    case CrashAtPublish(id, stages, db, image) =>
      && CanRestore(s, id)
      && CrashImage(Published(cfg, s.fs, id, stages, db), image)
      && s' == Down(image, if At(image.live, Running) == At(s.fs.live, Running) then s.db else db)
    case CrashAfterPublish(id, stages, db, steps, image) =>
      && CanRestore(s, id) && steps < 4
      && CrashImage(AfterPublish(cfg, s.fs, id, stages, db, CurrentId(cfg, s.fs))[steps], image)
        && s' == Down(image, db)
    case CrashInCleanup(id, stages, db, at, deferred, step, image) =>
      && CanRestore(s, id) && at < |stages| + 8 && step < 3
      && CrashImage(FailedTrace(cfg, s.fs, id, stages, db, at, deferred)[step], image) && s' == Down(image, s.db)
    case Stop =>
      s.Up? && s' == Down(s.fs, s.db)
    case KillBeforePublish(id, stages, db, at) =>
      && CanRestore(s, id) && at < |stages| + 8 && s' == Down(BeforePublish(cfg, s.fs, id, stages, db)[at], s.db)
    case KillAtPublish(id, stages, db) =>
      && CanRestore(s, id) && s' == Down(Published(cfg, s.fs, id, stages, db), db)
    case KillAfterPublish(id, stages, db, steps) =>
      && CanRestore(s, id) && steps < 4
      && s' == Down(AfterPublish(cfg, s.fs, id, stages, db, CurrentId(cfg, s.fs))[steps], db)
    case KillInCleanup(id, stages, db, at, deferred, step) =>
      && CanRestore(s, id) && at < |stages| + 8 && step < 3
      && s' == Down(FailedTrace(cfg, s.fs, id, stages, db, at, deferred)[step], s.db)
    case Restart(order, elsewhere) =>
      && s.Down? && Lists(order, s.fs)
      && (match Startup(cfg, s.fs, order, elsewhere)
          case Opened(fs, id) => IsTree(fs, Dir(id)) && s' == Up(fs, id, Contents(fs, id))
          case OpenedElsewhere(fs, _) => s' == Down(fs, s.db)
          case StartFailed(fs, _) => s' == Down(fs, s.db))
    case FailRestart(order, at) =>
      // listing the directory or removing an entry reports an error, or the process dies
      && s.Down? && Lists(order, s.fs) && at < |StartTrace(cfg, s.fs, order)|
      && s' == Down(StartTrace(cfg, s.fs, order)[at], s.db)
    case CrashInRestart(order, at, image) =>
      && s.Down? && Lists(order, s.fs) && at < |StartTrace(cfg, s.fs, order)|
      && CrashImage(StartTrace(cfg, s.fs, order)[at], image) && s' == Down(image, s.db)
  }

  ghost predicate UpOk(cfg: Config, fs: Fs, p: Ino, id: bytes, t: Ino, db: Db) {
    Settled(cfg, fs, p, id, t, db) && Guarded(fs, p)
  }

  /** pebble.running names an existing, complete database with the expected content, in every crash image. */
  ghost predicate Inv(cfg: Config, s: NodeState) {
    match s
    case Up(fs, id, db) => exists p, t :: UpOk(cfg, fs, p, id, t, db)
    case Down(fs, db) => exists p, id, t :: Settled(cfg, fs, p, id, t, db)
  }

  lemma PutKeeps(cfg: Config, s: NodeState, k: bytes, v: bytes, s': NodeState, p: Ino, t: Ino)
    requires s.Up? && UpOk(cfg, s.fs, p, s.id, t, s.db) && Step(cfg, s, Put(k, v), s')
    ensures Inv(cfg, s')
  {
    assert Has(s.fs, Dir(s.id), t) && Has(s.fs, Running, p);
    SetNodeWellFormed(s.fs, t, Tree(s.db[k := v], true));
    var fs' := s.fs.(nodes := s.fs.nodes[t := Tree(s.db[k := v], true)]);
    assert forall n, w :: Possible(fs', n, w) <==> Possible(s.fs, n, w);
    assert UpOk(cfg, fs', p, s.id, t, s.db[k := v]);
    assert s' == Up(fs', s.id, s.db[k := v]);
  }

  lemma RestoreKeeps(cfg: Config, s: NodeState, e: Event, s': NodeState, p: Ino, t: Ino)
    requires Digests(cfg) && s.Up? && UpOk(cfg, s.fs, p, s.id, t, s.db) && Step(cfg, s, e, s')
    requires e.Restore? || e.CrashAfterPublish? || e.CrashAtPublish? || e.KillAfterPublish?
    ensures Inv(cfg, s')
  {
    hide BeforePublish, AfterPublish, FailedTrace, Settled, Either, Leads, CrashImage, Startup, StartTrace;
    var before := BeforePublish(cfg, s.fs, e.id, e.stages, e.db);
    BeforePublishSafe(cfg, s.fs, e.id, e.stages, e.db, p, s.id, t, s.db);
    var end := Final(before);
    var q := end.live[Updating];
    assert end in before;
    RenameSafe(cfg, end, p, s.id, t, s.db, e.id, s.fs.next, e.db);
    SettledPath(cfg, s.fs, p, s.id, t, s.db);
    LiveEntries(cfg, s.fs, p, s.id, t, s.db);
    if e.CrashAtPublish? {
      EitherCrash(cfg, Rename(end), e.image, p, s.id, t, s.db, q, e.id, s.fs.next, e.db);
    } else {
      AfterPublishSafe(cfg, s.fs, e.id, e.stages, e.db, p, s.id, t, s.db, q);
      var after := AfterPublish(cfg, s.fs, e.id, e.stages, e.db, s.id);
      assert after[e.steps] in after;
      if e.Restore? {
        assert UpOk(cfg, s'.fs, q, s'.id, s.fs.next, s'.db);
      } else if e.KillAfterPublish? {
        assert Settled(cfg, s'.fs, q, e.id, s.fs.next, s'.db);
      } else {
        SettledCrash(cfg, after[e.steps], e.image, q, e.id, s.fs.next, e.db);
      }
    }
  }

  lemma LiveEntries(cfg: Config, fs: Fs, p: Ino, id: bytes, t: Ino, db: Db)
    requires Settled(cfg, fs, p, id, t, db)
    ensures At(fs.live, Running) == Some(p) && Dir(id) in fs.live
  {
  }

  lemma FailureKeeps(cfg: Config, s: NodeState, e: Event, s': NodeState, p: Ino, t: Ino)
    requires s.Up? && UpOk(cfg, s.fs, p, s.id, t, s.db) && Step(cfg, s, e, s')
    requires e.FailRestore? || e.CrashBeforePublish? || e.CrashInCleanup? || e.KillBeforePublish? || e.KillInCleanup?
    ensures Inv(cfg, s')
  {
    hide BeforePublish, AfterPublish, FailedTrace, Settled, Leads, CrashImage, Startup, StartTrace;
    if e.CrashBeforePublish? || e.KillBeforePublish? {
      var before := BeforePublish(cfg, s.fs, e.id, e.stages, e.db);
      BeforePublishSafe(cfg, s.fs, e.id, e.stages, e.db, p, s.id, t, s.db);
      assert before[e.at] in before;
      if e.CrashBeforePublish? {
        SettledCrash(cfg, before[e.at], e.image, p, s.id, t, s.db);
      }
    } else {
      FailedSafe(cfg, s.fs, e.id, e.stages, e.db, e.at, e.deferred, p, s.id, t, s.db);
      var failed := FailedTrace(cfg, s.fs, e.id, e.stages, e.db, e.at, e.deferred);
      if e.FailRestore? {
        assert failed[e.swept] in failed;
        assert UpOk(cfg, s'.fs, p, s'.id, t, s'.db);
      } else {
        assert failed[e.step] in failed;
        if e.CrashInCleanup? {
          SettledCrash(cfg, failed[e.step], e.image, p, s.id, t, s.db);
        }
      }
    }
  }

  /** A restart opens exactly the database the node should hold, and never fails. */
  lemma RestartOpens(cfg: Config, s: NodeState, order: seq<bytes>, elsewhere: bytes -> bool, s': NodeState)
    requires Digests(cfg) && Inv(cfg, s) && Step(cfg, s, Restart(order, elsewhere), s')
    ensures s'.Up? && s'.db == s.db && Inv(cfg, s')
  {
    hide Startup, StartTrace, Settled;
    var p, id, t :| Settled(cfg, s.fs, p, id, t, s.db);
    StartupOpens(cfg, s.fs, order, elsewhere, p, id, t, s.db);
    SettledContents(cfg, s'.fs, p, id, t, s.db);
    assert UpOk(cfg, s'.fs, p, id, t, s.db);
  }

  lemma SettledContents(cfg: Config, fs: Fs, p: Ino, id: bytes, t: Ino, db: Db)
    requires Settled(cfg, fs, p, id, t, db)
    ensures IsTree(fs, Dir(id)) && Contents(fs, id) == db
  {
  }

  /** Every event but one keeps the node safe: the process dying between the rename and its directory sync. */
  lemma StepKeepsInv(cfg: Config, s: NodeState, e: Event, s': NodeState)
    requires Digests(cfg) && Inv(cfg, s) && Step(cfg, s, e, s') && !e.KillAtPublish?
    ensures Inv(cfg, s')
  {
    hide BeforePublish, AfterPublish, FailedTrace, Published, Settled, CrashImage, Startup, StartTrace;
    match s {
      case Up(fs, id, db) =>
        var p, t :| UpOk(cfg, fs, p, id, t, db);
        match e {
          case Put(k, v) => PutKeeps(cfg, s, k, v, s', p, t);
          case CrashIdle(image) => SettledCrash(cfg, fs, image, p, id, t, db);
          case Restore(_, _, _, _) => RestoreKeeps(cfg, s, e, s', p, t);
          case CrashAtPublish(_, _, _, _) => RestoreKeeps(cfg, s, e, s', p, t);
          case CrashAfterPublish(_, _, _, _, _) => RestoreKeeps(cfg, s, e, s', p, t);
          case FailRestore(_, _, _, _, _, _) => FailureKeeps(cfg, s, e, s', p, t);
          case CrashBeforePublish(_, _, _, _, _) => FailureKeeps(cfg, s, e, s', p, t);
          case CrashInCleanup(_, _, _, _, _, _, _) => FailureKeeps(cfg, s, e, s', p, t);
          case Stop => assert Settled(cfg, s'.fs, p, id, t, db);
          case KillBeforePublish(_, _, _, _) => FailureKeeps(cfg, s, e, s', p, t);
          case KillAfterPublish(_, _, _, _) => RestoreKeeps(cfg, s, e, s', p, t);
          case KillInCleanup(_, _, _, _, _, _) => FailureKeeps(cfg, s, e, s', p, t);
          case Restart(_, _) => assert false;
          case FailRestart(_, _) => assert false;
          case CrashInRestart(_, _, _) => assert false;
        }
      case Down(fs, db) =>
        match e {
          case Restart(order, elsewhere) => RestartOpens(cfg, s, order, elsewhere, s');
          case FailRestart(order, at) =>
            var p, id, t :| Settled(cfg, fs, p, id, t, db);
            StartupOpens(cfg, fs, order, _ => false, p, id, t, db);
            var trace := StartTrace(cfg, fs, order);
            assert trace[at] in trace;
          case CrashInRestart(order, at, image) =>
            var p, id, t :| Settled(cfg, fs, p, id, t, db);
            StartupOpens(cfg, fs, order, _ => false, p, id, t, db);
            var trace := StartTrace(cfg, fs, order);
            assert trace[at] in trace;
            SettledCrash(cfg, trace[at], image, p, id, t, db);
          case CrashIdle(image) =>
            var p, id, t :| Settled(cfg, fs, p, id, t, db);
            SettledCrash(cfg, fs, image, p, id, t, db);
          case _ => assert false;
        }
    }
  }

  ghost predicate Run(cfg: Config, states: seq<NodeState>, events: seq<Event>) {
    && |states| == |events| + 1
    && forall i :: 0 <= i < |events| ==> Step(cfg, states[i], events[i], states[i + 1])
  }

  lemma RunFront(cfg: Config, states: seq<NodeState>, events: seq<Event>)
    requires Run(cfg, states, events) && events != []
    ensures Run(cfg, states[..|events|], events[..|events| - 1])
  {
    hide Step;
    var n := |events| - 1;
    forall i | 0 <= i < n ensures Step(cfg, states[..n + 1][i], events[..n][i], states[..n + 1][i + 1]) {
      assert Step(cfg, states[i], events[i], states[i + 1]);
    }
  }
}
