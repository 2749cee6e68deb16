/**
 Crash safety over whole lives of a node, process deaths at any point included. A rename that its process did not live
 to sync stays open: until the data directory is synced again, a crash may undo it. The argument compares the node
 with one on which the rename is synced, step by step.
 */
module NodeLives {
  import opened Bytes
  import opened Snapshot
  import opened Disk
  import opened DataDir
  import opened CrashSafety
  import opened CrashRuns

  // ---- the same file system with the pointer entry synced ----

  /**
   System calls see the same in both; a crash finds the same, but for the pointer, which in `b` it may keep as `v`.
   */
  ghost predicate Alike(a: Fs, b: Fs, v: Option<Ino>) {
    && a.nodes == b.nodes && a.next == b.next && a.live == b.live
    && (forall n, w :: n != Running ==> (Possible(a, n, w) <==> Possible(b, n, w)))
    && At(b.live, Running) == v && Possible(b, Running, v)
  }

  ghost predicate AlikeAll(ta: seq<Fs>, tb: seq<Fs>, v: Option<Ino>) {
    |ta| == |tb| && forall i :: 0 <= i < |ta| ==> Alike(ta[i], tb[i], v)
  }

  lemma AlikeNodes(a: Fs, b: Fs, nodes: map<Ino, Node>, next: Ino, v: Option<Ino>)
    requires Alike(a, b, v)
    ensures Alike(a.(nodes := nodes, next := next), b.(nodes := nodes, next := next), v)
  {
    var a', b' := a.(nodes := nodes, next := next), b.(nodes := nodes, next := next);
    assert forall n, w :: Possible(a', n, w) <==> Possible(a, n, w);
    assert forall n, w :: Possible(b', n, w) <==> Possible(b, n, w);
  }

  lemma AlikeEntry(a: Fs, b: Fs, n: Name, w: Option<Ino>, v: Option<Ino>)
    requires Alike(a, b, v) && n != Running
    ensures Alike(SetEntry(a, n, w), SetEntry(b, n, w), v)
  {
    SetEntryPossible(a, n, w);
    SetEntryPossible(b, n, w);
  }

  lemma AlikeFile(a: Fs, b: Fs, i: Ino, node: Node, v: Option<Ino>)
    requires Alike(a, b, v)
    ensures Alike(a.(nodes := a.nodes[i := node]), b.(nodes := b.nodes[i := node]), v)
  {
    AlikeNodes(a, b, a.nodes[i := node], a.next, v);
  }

  lemma AlikeAdd(a: Fs, b: Fs, n: Name, node: Node, v: Option<Ino>)
    requires Alike(a, b, v) && n != Running
    ensures Alike(AddNode(a, n, node), AddNode(b, n, node), v)
  {
    hide Alike;
    assert a.nodes == b.nodes && a.next == b.next by {
      SameView(a, b, v);
    }
    AlikeNodes(a, b, a.nodes[a.next := node], a.next + 1, v);
    AlikeEntry(a.(nodes := a.nodes[a.next := node], next := a.next + 1),
               b.(nodes := b.nodes[b.next := node], next := b.next + 1), n, Some(a.next), v);
  }

  lemma SameView(a: Fs, b: Fs, v: Option<Ino>)
    requires Alike(a, b, v)
    ensures a.nodes == b.nodes && a.next == b.next && a.live == b.live && SyncDir(a) == SyncDir(b)
  {
  }

  /** A directory sync ends the difference. */
  lemma AlikeSync(a: Fs, b: Fs, v: Option<Ino>)
    requires Alike(a, b, v)
    ensures SyncDir(a) == SyncDir(b) && Alike(SyncDir(a), SyncDir(b), v)
  {
  }

  lemma AlikeUnlink(a: Fs, b: Fs, n: Name, v: Option<Ino>)
    requires Alike(a, b, v) && n != Running
    ensures Alike(Unlink(a, n), Unlink(b, n), v)
  {
    hide Alike;
    SameView(a, b, v);
    AlikeEntry(a, b, n, None, v);
  }

  lemma AlikeRemove(a: Fs, b: Fs, id: bytes, v: Option<Ino>)
    requires Alike(a, b, v)
    ensures AlikeAll(RemoveTrace(a, id), RemoveTrace(b, id), v)
  {
    hide Alike;
    SameView(a, b, v);
    if IsTree(a, Dir(id)) {
      AlikeFile(a, b, a.live[Dir(id)], Tree(map[], false), v);
    }
    AlikeUnlink(Tear(a, id), Tear(b, id), Dir(id), v);
  }

  lemma AlikeBuild(a: Fs, b: Fs, id: bytes, stages: seq<Db>, db: Db, v: Option<Ino>)
    requires Alike(a, b, v)
    ensures AlikeAll(BuildTrace(a, id, stages, db), BuildTrace(b, id, stages, db), v)
  {
    hide Alike;
    AlikeAdd(a, b, Dir(id), Tree(map[], false), v);
    var ma, mb := Mkdir(a, id), Mkdir(b, id);
    SameView(ma, mb, v);
    var ta, tb := BuildTrace(a, id, stages, db), BuildTrace(b, id, stages, db);
    forall i | 0 <= i < |ta| ensures Alike(ta[i], tb[i], v) {
      if i > 0 {
        var content := if i <= |stages| then Tree(stages[i - 1], false) else Tree(db, true);
        AlikeFile(ma, mb, ma.live[Dir(id)], content, v);
        assert ta[i] == ma.(nodes := ma.nodes[ma.live[Dir(id)] := content]);
        assert tb[i] == mb.(nodes := mb.nodes[mb.live[Dir(id)] := content]);
      }
    }
  }

  lemma AlikeCreate(a: Fs, b: Fs, v: Option<Ino>)
    requires Alike(a, b, v)
    ensures Alike(Create(a), Create(b), v)
  {
    hide Alike;
    SameView(a, b, v);
    if Updating in a.live {
      AlikeFile(a, b, a.live[Updating], Pointer([], false), v);
    } else {
      AlikeAdd(a, b, Updating, Pointer([], false), v);
    }
  }

  lemma CreatedFile(fs: Fs)
    requires Workable(fs)
    ensures IsFile(Create(fs), Updating)
  {
  }

  lemma AlikePointer(a: Fs, b: Fs, data: bytes, v: Option<Ino>)
    requires Alike(a, b, v) && IsFile(a, Updating)
    ensures IsFile(b, Updating) && IsFile(Append(a, data), Updating)
    ensures Alike(Append(a, data), Append(b, data), v) && Alike(SyncFile(a), SyncFile(b), v)
  {
    hide Alike;
    SameView(a, b, v);
    var i := a.live[Updating];
    AlikeFile(a, b, i, Pointer(a.nodes[i].content + data, false), v);
    AlikeFile(a, b, i, a.nodes[i].(synced := true), v);
  }

  /** The saving of a name is alike, and its last state, the directory sync, is the same. */
  lemma AlikeSave(cfg: Config, a: Fs, b: Fs, path: bytes, v: Option<Ino>)
    requires Alike(a, b, v) && Workable(a) && Workable(b)
    ensures AlikeAll(SaveTrace(cfg, a, path), SaveTrace(cfg, b, path), v)
    ensures SaveTrace(cfg, a, path)[4] == SaveTrace(cfg, b, path)[4]
  {
    hide Alike, SyncDir, Create, Append, SyncFile, IsFile, Workable, Digest;
    AlikeCreate(a, b, v);
    CreatedFile(a);
    CreatedFile(b);
    var ta, tb := SaveTrace(cfg, a, path), SaveTrace(cfg, b, path);
    AlikePointer(ta[0], tb[0], Digest(cfg, path), v);
    AlikePointer(ta[1], tb[1], path, v);
    AlikePointer(ta[2], tb[2], [], v);
    AlikeSync(ta[3], tb[3], v);
  }

  lemma AlikeBefore(cfg: Config, a: Fs, b: Fs, id: bytes, stages: seq<Db>, db: Db, v: Option<Ino>)
    requires Alike(a, b, v) && Workable(a) && Workable(b)
    ensures AlikeAll(BeforePublish(cfg, a, id, stages, db), BeforePublish(cfg, b, id, stages, db), v)
    ensures Published(cfg, a, id, stages, db) == Published(cfg, b, id, stages, db)
  {
    hide Alike, BuildTrace, SaveTrace, Rename, DataDir.Join, Workable;
    var ba, bb := BuildTrace(a, id, stages, db), BuildTrace(b, id, stages, db);
    AlikeBuild(a, b, id, stages, db, v);
    assert Workable(Final(ba)) && Workable(Final(bb)) by {
      BuiltWorkable(a, id, stages, db);
      BuiltWorkable(b, id, stages, db);
    }
    assert Alike(Final(ba), Final(bb), v);
    AlikeSave(cfg, Final(ba), Final(bb), Join(cfg.base, id), v);
  }

  lemma AlikeFailed(cfg: Config, a: Fs, b: Fs, id: bytes, stages: seq<Db>, db: Db, k: nat, deferred: bool,
                    v: Option<Ino>)
    requires Alike(a, b, v) && Workable(a) && Workable(b) && k < |stages| + 8
    ensures AlikeAll(FailedTrace(cfg, a, id, stages, db, k, deferred),
      FailedTrace(cfg, b, id, stages, db, k, deferred), v)
  {
    hide Alike, BeforePublish, RemoveTrace, SyncDir, Workable;
    AlikeBefore(cfg, a, b, id, stages, db, v);
    var sa, sb := BeforePublish(cfg, a, id, stages, db)[k], BeforePublish(cfg, b, id, stages, db)[k];
    AlikeSync(sa, sb, v);
    AlikeRemove(if deferred then SyncDir(sa) else sa, if deferred then SyncDir(sb) else sb, id, v);
  }

  lemma {:induction false} AlikeCleanup(cfg: Config, a: Fs, b: Fs, path: bytes, order: seq<bytes>, v: Option<Ino>)
    requires Alike(a, b, v)
    ensures AlikeAll(CleanupTrace(cfg, a, path, order), CleanupTrace(cfg, b, path, order), v)
    decreases |order|
  {
    hide Alike, RemoveTrace, DataDir.Join;
    if order == [] {
    } else if Join(cfg.base, order[0]) == path {
      AlikeCleanup(cfg, a, b, path, order[1..], v);
    } else {
      AlikeRemove(a, b, order[0], v);
      AlikeCleanup(cfg, RemoveTrace(a, order[0])[1], RemoveTrace(b, order[0])[1], path, order[1..], v);
    }
  }

  lemma AlikeStart(cfg: Config, a: Fs, b: Fs, order: seq<bytes>, v: Option<Ino>)
    requires Alike(a, b, v)
    ensures AlikeAll(StartTrace(cfg, a, order), StartTrace(cfg, b, order), v)
  {
    hide Alike, Unlink, CleanupTrace;
    AlikeUnlink(a, b, Updating, v);
    var ca, cb := Unlink(a, Updating), Unlink(b, Updating);
    SameView(ca, cb, v);
    match CurrentPath(cfg, ca) {
      case None =>
      case Some(path) => AlikeCleanup(cfg, ca, cb, path, order, v);
    }
  }

  /** Startup finds the same and leaves alike. */
  lemma AlikeStartup(cfg: Config, a: Fs, b: Fs, order: seq<bytes>, elsewhere: bytes -> bool, v: Option<Ino>)
    requires Alike(a, b, v)
    ensures
      var ra, rb := Startup(cfg, a, order, elsewhere), Startup(cfg, b, order, elsewhere);
      && Alike(ra.fs, rb.fs, v)
      && (ra.Opened? <==> rb.Opened?) && (ra.Opened? ==> ra.id == rb.id)
  {
    hide Alike, StartTrace;
    AlikeStart(cfg, a, b, order, v);
    var ea, eb := Final(StartTrace(cfg, a, order)), Final(StartTrace(cfg, b, order));
    assert Alike(ea, eb, v);
    SameView(ea, eb, v);
  }

  /** A crash that keeps the pointer entry is a crash of the other one, too. */
  lemma AlikeCrash(a: Fs, b: Fs, image: Fs, v: Option<Ino>)
    requires Alike(a, b, v) && CrashImage(a, image) && At(image.live, Running) == v
    ensures CrashImage(b, image)
  {
    forall n ensures Possible(b, n, At(image.live, n)) {
      assert Possible(a, n, At(image.live, n));
    }
  }

  // ---- runs ----

  function WithFs(s: NodeState, fs: Fs): NodeState {
    s.(fs := fs)
  }

  /** A machine crash of this event finds the pointer entry the process saw. It must, once that entry is synced. */
  predicate KeepsPointer(s: NodeState, e: Event) {
    match e
    case CrashIdle(image) => At(image.live, Running) == At(s.fs.live, Running)
    case CrashBeforePublish(_, _, _, _, image) => At(image.live, Running) == At(s.fs.live, Running)
    case CrashInCleanup(_, _, _, _, _, _, image) => At(image.live, Running) == At(s.fs.live, Running)
    case CrashInRestart(_, _, image) => At(image.live, Running) == At(s.fs.live, Running)
    case _ => true
  }

  /** Where `s` can step, so can its shadow with `b`, to a shadow of the outcome. */
  ghost predicate Mirrors(cfg: Config, s: NodeState, e: Event, s': NodeState, b: Fs, v: Option<Ino>, t: NodeState) {
    Step(cfg, WithFs(s, b), e, t) && t == WithFs(s', t.fs) && (t.fs == s'.fs || Alike(s'.fs, t.fs, v))
  }

  lemma AlikeCan(s: NodeState, b: Fs, id: bytes, v: Option<Ino>)
    requires Alike(s.fs, b, v)
    ensures CanRestore(s, id) ==> CanRestore(WithFs(s, b), id)
    ensures forall order :: Lists(order, s.fs) ==> Lists(order, b)
  {
  }

  lemma AlikePath(cfg: Config, a: Fs, b: Fs, v: Option<Ino>)
    requires Alike(a, b, v)
    ensures CurrentId(cfg, a) == CurrentId(cfg, b)
  {
  }

  lemma MirrorRestore(cfg: Config, s: NodeState, e: Event, s': NodeState, b: Fs, v: Option<Ino>) returns (t: NodeState)
    requires Step(cfg, s, e, s') && Alike(s.fs, b, v)
    requires e.Restore? || e.CrashAtPublish? || e.CrashAfterPublish? || e.KillAtPublish? || e.KillAfterPublish?
    ensures Mirrors(cfg, s, e, s', b, v, t)
  {
    hide Alike, BeforePublish, Published, RemoveTrace, CrashImage, CurrentId, Workable, Fresh, SyncDir;
    AlikeCan(s, b, e.id, v);
    AlikePath(cfg, s.fs, b, v);
    AlikeBefore(cfg, s.fs, b, e.id, e.stages, e.db, v);
    SameView(s.fs, b, v);
    t := s';
  }

  lemma MirrorBefore(cfg: Config, s: NodeState, e: Event, s': NodeState, b: Fs, v: Option<Ino>) returns (t: NodeState)
    requires Step(cfg, s, e, s') && Alike(s.fs, b, v) && KeepsPointer(s, e)
    requires e.CrashBeforePublish? || e.KillBeforePublish?
    ensures Mirrors(cfg, s, e, s', b, v, t)
  {
    hide Alike, BeforePublish, CrashImage, Workable, Fresh;
    AlikeCan(s, b, e.id, v);
    AlikeBefore(cfg, s.fs, b, e.id, e.stages, e.db, v);
    AlikePointerIs(s.fs, b, v);
    var fa, fb := BeforePublish(cfg, s.fs, e.id, e.stages, e.db), BeforePublish(cfg, b, e.id, e.stages, e.db);
    if e.CrashBeforePublish? {
      AlikeCrash(fa[e.at], fb[e.at], e.image, v);
      t := s';
    } else {
      t := WithFs(s', fb[e.at]);
    }
  }

  lemma MirrorFailure(cfg: Config, s: NodeState, e: Event, s': NodeState, b: Fs, v: Option<Ino>) returns (t: NodeState)
    requires Step(cfg, s, e, s') && Alike(s.fs, b, v) && KeepsPointer(s, e)
    requires e.FailRestore? || e.CrashInCleanup? || e.KillInCleanup?
    ensures Mirrors(cfg, s, e, s', b, v, t)
  {
    hide Alike, FailedTrace, CrashImage, Workable, Fresh;
    AlikeCan(s, b, e.id, v);
    AlikePointerIs(s.fs, b, v);
    AlikeFailed(cfg, s.fs, b, e.id, e.stages, e.db, e.at, e.deferred, v);
    var fa := FailedTrace(cfg, s.fs, e.id, e.stages, e.db, e.at, e.deferred);
    var fb := FailedTrace(cfg, b, e.id, e.stages, e.db, e.at, e.deferred);
    if e.CrashInCleanup? {
      AlikeCrash(fa[e.step], fb[e.step], e.image, v);
      t := s';
    } else {
      t := WithFs(s', fb[if e.FailRestore? then e.swept else e.step]);
    }
  }

  lemma AlikePointerIs(a: Fs, b: Fs, v: Option<Ino>)
    requires Alike(a, b, v)
    ensures At(a.live, Running) == v
  {
  }

  lemma MirrorStart(cfg: Config, s: NodeState, e: Event, s': NodeState, b: Fs, v: Option<Ino>) returns (t: NodeState)
    requires Step(cfg, s, e, s') && Alike(s.fs, b, v) && KeepsPointer(s, e)
    requires e.Restart? || e.FailRestart? || e.CrashInRestart?
    ensures Mirrors(cfg, s, e, s', b, v, t)
  {
    hide Alike, Startup, StartTrace, CrashImage, Lists;
    AlikeCan(s, b, [], v);
    AlikeStart(cfg, s.fs, b, e.order, v);
    AlikePointerIs(s.fs, b, v);
    if e.Restart? {
      AlikeStartup(cfg, s.fs, b, e.order, e.elsewhere, v);
      var ra, rb := Startup(cfg, s.fs, e.order, e.elsewhere), Startup(cfg, b, e.order, e.elsewhere);
      SameView(ra.fs, rb.fs, v);
      t := WithFs(s', rb.fs);
    } else if e.FailRestart? {
      t := WithFs(s', StartTrace(cfg, b, e.order)[e.at]);
    } else {
      AlikeCrash(StartTrace(cfg, s.fs, e.order)[e.at], StartTrace(cfg, b, e.order)[e.at], e.image, v);
      t := s';
    }
  }

  lemma Mirror(cfg: Config, s: NodeState, e: Event, s': NodeState, b: Fs, v: Option<Ino>) returns (t: NodeState)
    requires Step(cfg, s, e, s') && Alike(s.fs, b, v) && KeepsPointer(s, e)
    ensures Mirrors(cfg, s, e, s', b, v, t)
  {
    hide Alike, BeforePublish, AfterPublish, Published, FailedTrace, Startup, StartTrace, CrashImage, CanRestore, Lists;
    match e {
      case Put(k, x) =>
        SameView(s.fs, b, v);
        AlikeFile(s.fs, b, s.fs.live[Dir(s.id)], Tree(s.db[k := x], true), v);
        t := WithFs(s', Fill(b, s.id, s.db[k := x], true));
      case CrashIdle(image) =>
        AlikePointerIs(s.fs, b, v);
        AlikeCrash(s.fs, b, image, v);
        t := s';
      case Stop => t := WithFs(s', b);
      case Restore(_, _, _, _) => t := MirrorRestore(cfg, s, e, s', b, v);
      case CrashAtPublish(_, _, _, _) => t := MirrorRestore(cfg, s, e, s', b, v);
      case CrashAfterPublish(_, _, _, _, _) => t := MirrorRestore(cfg, s, e, s', b, v);
      case KillAtPublish(_, _, _) => t := MirrorRestore(cfg, s, e, s', b, v);
      case KillAfterPublish(_, _, _, _) => t := MirrorRestore(cfg, s, e, s', b, v);
      case CrashBeforePublish(_, _, _, _, _) => t := MirrorBefore(cfg, s, e, s', b, v);
      case KillBeforePublish(_, _, _, _) => t := MirrorBefore(cfg, s, e, s', b, v);
      case Restart(_, _) => t := MirrorStart(cfg, s, e, s', b, v);
      case FailRestart(_, _) => t := MirrorStart(cfg, s, e, s', b, v);
      case CrashInRestart(_, _, _) => t := MirrorStart(cfg, s, e, s', b, v);
      case _ => t := MirrorFailure(cfg, s, e, s', b, v);
    }
  }

  /** Safe once the pointer entry is synced; safe at once if it is synced already. */
  ghost predicate Good(cfg: Config, s: NodeState) {
    exists b, v :: Alike(s.fs, b, v) && Inv(cfg, WithFs(s, b))
  }

  lemma InvIsGood(cfg: Config, s: NodeState)
    requires Inv(cfg, s)
    ensures Good(cfg, s)
  {
    var p :| At(s.fs.live, Running) == Some(p) && Only(s.fs, Running, Some(p))
      && exists id, t :: Settled(cfg, s.fs, p, id, t, s.db);
    assert Possible(s.fs, Running, At(s.fs.disk, Running));
    assert Alike(s.fs, s.fs, Some(p)) && WithFs(s, s.fs) == s;
  }

  /** The file system with the pointer entry synced and nothing else. */
  function PointerSynced(fs: Fs): Fs
    requires Running in fs.live
  {
    fs.(disk := fs.disk[Running := fs.live[Running]], pending := set x | x in fs.pending && x.0 != Running)
  }

  lemma KilledIsGood(cfg: Config, s: NodeState, id': bytes, stages: seq<Db>, db': Db)
    requires s.Up? && Inv(cfg, s) && CanRestore(s, id')
    ensures Good(cfg, Down(Published(cfg, s.fs, id', stages, db'), db'))
  {
    hide BeforePublish, Settled, Either, Leads, Rename;
    var p, t :| UpOk(cfg, s.fs, p, s.id, t, s.db);
    BeforePublishSafe(cfg, s.fs, id', stages, db', p, s.id, t, s.db);
    var end := Final(BeforePublish(cfg, s.fs, id', stages, db'));
    assert end in BeforePublish(cfg, s.fs, id', stages, db');
    RenameSafe(cfg, end, p, s.id, t, s.db, id', s.fs.next, db');
    EitherShadow(cfg, Rename(end), p, s.id, t, s.db, end.live[Updating], id', s.fs.next, db');
  }

  lemma EitherShadow(cfg: Config, fs: Fs, p: Ino, id: bytes, t: Ino, db: Db, q: Ino, id': bytes, u: Ino, db': Db)
    requires Either(cfg, fs, p, id, t, db, q, id', u, db')
    ensures Good(cfg, Down(fs, db'))
  {
    hide Settled;
    EitherSynced(cfg, fs, p, id, t, db, q, id', u, db');
    var b := PointerSynced(fs);
    assert Alike(fs, b, Some(q));
    assert Inv(cfg, WithFs(Down(fs, db'), b));
  }

  /** Were the rename synced, the new database would be safely published. */
  lemma EitherSynced(cfg: Config, fs: Fs, p: Ino, id: bytes, t: Ino, db: Db, q: Ino, id': bytes, u: Ino, db': Db)
    requires Either(cfg, fs, p, id, t, db, q, id', u, db')
    ensures Settled(cfg, PointerSynced(fs), q, id', u, db') && Possible(PointerSynced(fs), Running, Some(q))
    ensures SameLive(fs, PointerSynced(fs))
    ensures forall n, w :: n != Running ==> (Possible(PointerSynced(fs), n, w) <==> Possible(fs, n, w))
  {
    hide PointerBytes, DataDir.Join;
    var b := PointerSynced(fs);
    forall n, w | n != Running ensures Possible(b, n, w) <==> Possible(fs, n, w) {
    }
    assert Possible(b, Running, Some(q)) && forall w :: Possible(b, Running, w) ==> w == Some(q);
    assert forall n, i :: Has(b, n, i) ==> Has(fs, n, i);
  }

  lemma GoodStep(cfg: Config, s: NodeState, e: Event, s': NodeState)
    requires Digests(cfg) && Good(cfg, s) && Step(cfg, s, e, s') && KeepsPointer(s, e)
    ensures Good(cfg, s')
    ensures e.Restart? ==> s'.Up? && s'.db == s.db
  {
    hide Alike, Inv, Step, KeepsPointer;
    var b, v :| Alike(s.fs, b, v) && Inv(cfg, WithFs(s, b));
    if e.KillAtPublish? {
      KilledSame(cfg, s, e, s', b, v);
      KilledStep(cfg, WithFs(s, b), e, s');
    } else {
      var t := Mirror(cfg, s, e, s', b, v);
      StepKeepsInv(cfg, WithFs(s, b), e, t);
      if e.Restart? {
        RestartOpens(cfg, WithFs(s, b), e.order, e.elsewhere, t);
      }
      if t.fs == s'.fs {
        InvIsGood(cfg, t);
      } else {
        assert Alike(s'.fs, t.fs, v) && WithFs(s', t.fs) == t;
      }
    }
  }

  lemma KilledStep(cfg: Config, s: NodeState, e: Event, s': NodeState)
    requires Inv(cfg, s) && Step(cfg, s, e, s') && e.KillAtPublish?
    ensures Good(cfg, s')
  {
    hide Inv, Good, Published;
    KilledIsGood(cfg, s, e.id, e.stages, e.db);
  }

  /** Killed between the rename and the sync: the same with and without the shadow. */
  lemma KilledSame(cfg: Config, s: NodeState, e: Event, s': NodeState, b: Fs, v: Option<Ino>)
    requires Step(cfg, s, e, s') && e.KillAtPublish? && Alike(s.fs, b, v)
    ensures Step(cfg, WithFs(s, b), e, s')
  {
    hide Alike, BeforePublish, Published;
    AlikeCan(s, b, e.id, v);
    AlikeBefore(cfg, s.fs, b, e.id, e.stages, e.db, v);
  }

  /** The process has died between a rename and its directory sync. */
  ghost predicate Killed(events: seq<Event>) {
    exists i :: 0 <= i < |events| && events[i].KillAtPublish?
  }

  /**
   Over every run from an opened node: as long as no process died between a rename and its directory sync, the
   published pointer leads to a complete database with the expected content whatever a crash leaves, and every
   restart opens exactly that content. After such a death this stays so of the live file system, and the node stays
   safe as long as no crash undoes an unsynced rename.
   */
  lemma {:induction false} CrashSafeRuns(cfg: Config, states: seq<NodeState>, events: seq<Event>)
    requires Digests(cfg) && Run(cfg, states, events) && Inv(cfg, states[0])
    requires forall i :: 0 <= i < |events| && Killed(events[..i]) ==> KeepsPointer(states[i], events[i])
    ensures forall i :: 0 <= i <= |events| ==> Good(cfg, states[i]) && (!Killed(events[..i]) ==> Inv(cfg, states[i]))
    ensures forall i :: 0 <= i < |events| && events[i].Restart? ==>
      states[i + 1].Up? && states[i + 1].db == states[i].db
    decreases |events|
  {
    hide Step, Inv, Good, KeepsPointer, Killed;
    if events == [] {
      InvIsGood(cfg, states[0]);
    } else {
      var n := |events| - 1;
      RunFront(cfg, states, events);
      assert forall i :: 0 <= i <= n ==> events[..n][..i] == events[..i];
      CrashSafeRuns(cfg, states[..n + 1], events[..n]);
      assert states[..n + 1][n] == states[n] && events[..n][..n] == events[..n];
      assert Step(cfg, states[n], events[n], states[n + 1]);
      LastStep(cfg, states[n], events, states[n + 1]);
      assert events[..n + 1] == events;
      forall i | 0 <= i <= |events|
        ensures Good(cfg, states[i]) && (!Killed(events[..i]) ==> Inv(cfg, states[i]))
      {
        if i <= n {
          assert states[i] == states[..n + 1][i];
        }
      }
      forall i | 0 <= i < |events| && events[i].Restart?
        ensures states[i + 1].Up? && states[i + 1].db == states[i].db
      {
        if i < n {
          assert events[..n][i] == events[i] && states[..n + 1][i + 1] == states[i + 1];
        }
      }
    }
  }

  lemma LastStep(cfg: Config, s: NodeState, events: seq<Event>, s': NodeState)
    requires Digests(cfg) && events != [] && Good(cfg, s)
    requires
      var n := |events| - 1;
      && Step(cfg, s, events[n], s') && (!Killed(events[..n]) ==> Inv(cfg, s))
      && (Killed(events[..n]) ==> KeepsPointer(s, events[n]))
    ensures Good(cfg, s') && (!Killed(events) ==> Inv(cfg, s'))
    ensures events[|events| - 1].Restart? ==> s'.Up? && s'.db == s.db
  {
    hide Step, Inv, Good, KeepsPointer;
    var n := |events| - 1;
    var e := events[n];
    assert Killed(events) <==> Killed(events[..n]) || e.KillAtPublish? by {
      assert forall i :: 0 <= i < n ==> events[..n][i] == events[i];
    }
    if Killed(events[..n]) {
      GoodStep(cfg, s, e, s');
    } else if e.KillAtPublish? {
      KilledStep(cfg, s, e, s');
    } else {
      StepKeepsInv(cfg, s, e, s');
      InvIsGood(cfg, s');
      if e.Restart? {
        RestartOpens(cfg, s, e.order, e.elsewhere, s');
      }
    }
  }
}
