/** fsm/utils.go as it runs, system call by system call. */
module Directory {
  import opened Bytes
  import opened Snapshot
  import opened Disk
  import opened DataDir

  function AtMost(n: nat, limit: nat): nat {
    if n < limit then n else limit
  }

  function SaveVerdict(fault: nat, dies: bool): Outcome<()> {
    if fault == 0 then Err(PublishFailed)
    else if dies then Panic
    else if fault <= 3 then Err(PublishFailed)
    else Ok(())
  }

  lemma CleanupNext(cfg: Config, fs: Fs, path: bytes, order: seq<bytes>, trace: seq<Fs>, done: nat)
    requires order != [] && done <= |trace| && CleanupTrace(cfg, fs, path, order) == trace[done..]
    ensures
      if Join(cfg.base, order[0]) == path then CleanupTrace(cfg, fs, path, order[1..]) == trace[done..]
      else
        && done + 2 <= |trace| && trace[done..done + 2] == RemoveTrace(fs, order[0])
        && CleanupTrace(cfg, RemoveTrace(fs, order[0])[1], path, order[1..]) == trace[done + 2..]
  {
    hide RemoveTrace;
    if Join(cfg.base, order[0]) != path {
      var removed := RemoveTrace(fs, order[0]);
      var tail := CleanupTrace(cfg, removed[1], path, order[1..]);
      assert trace[done..] == removed + tail;
      assert trace[done..][..2] == removed && trace[done..][2..] == tail;
    }
  }

  lemma CleanupEnd(cfg: Config, fs: Fs, path: bytes)
    ensures CleanupTrace(cfg, fs, path, []) == []
  {
  }

  lemma SaveKeepsRunning(cfg: Config, fs: Fs, path: bytes)
    requires Workable(fs)
    ensures forall s :: s in SaveTrace(cfg, fs, path) ==> At(s.live, Running) == At(fs.live, Running)
  {
  }

  /** `history` records every state of the file system, one per system call. */
  class DataDirectory {
    const cfg: Config
    var fs: Fs
    ghost var history: seq<Fs>

    constructor (cfg: Config, fs: Fs)
      ensures this.cfg == cfg && this.fs == fs && history == []
    {
      this.cfg, this.fs, history := cfg, fs, [];
    }

    /** One system call. */
    method Enter(fs': Fs)
      modifies this
      ensures fs == fs' && history == old(history) + [fs']
    {
      fs := fs';
      history := history + [fs'];
    }

    /** os.RemoveAll on a database directory, of which `reach` system calls go through. */
    method RemoveAll(id: bytes, reach: nat) returns (ok: bool)
      modifies this
      ensures ok == (reach >= 2)
      ensures history == old(history) + RemoveTrace(old(fs), id)[..AtMost(reach, 2)]
      ensures fs == ([old(fs)] + RemoveTrace(old(fs), id))[AtMost(reach, 2)]
    {
      ghost var trace := RemoveTrace(fs, id);
      if reach == 0 {
        return false;
      }
      Enter(Tear(fs, id));
      assert history == old(history) + trace[..1];
      if reach == 1 {
        return false;
      }
      Enter(Unlink(fs, Dir(id)));
      assert history == old(history) + trace[..2];
      ok := true;
    }

    /**
     saveCurrentDBDirName, whose system call number `fault` fails (0: create, 1, 2: writes, 3: sync; else none).
     Once the file is created, the deferred close and directory sync run on every path; if one of them fails, the
     process panics.
     */
    method SaveCurrentDBDirName(path: bytes, fault: nat, dies: bool) returns (out: Outcome<()>)
      requires Workable(fs)
      modifies this
      ensures out == SaveVerdict(fault, dies)
      ensures
        var trace := SaveTrace(cfg, old(fs), path);
        match out
        case Ok(_) => history == old(history) + trace && fs == trace[4]
        case Panic => history == old(history) + trace[..AtMost(fault, 4)] && fs == trace[AtMost(fault, 4) - 1]
        case Err(_) =>
          if fault == 0 then history == old(history) && fs == old(fs)
          else fs == SyncDir(trace[fault - 1]) && history == old(history) + trace[..fault] + [fs]
    {
      ghost var trace := SaveTrace(cfg, fs, path);
      if fault == 0 {
        return Err(PublishFailed);
      }
      Enter(Create(fs));
      assert history == old(history) + trace[..1];
      if fault > 1 {
        Enter(Append(fs, Digest(cfg, path)));
        assert history == old(history) + trace[..2];
        if fault > 2 {
          Enter(Append(fs, path));
          assert history == old(history) + trace[..3];
          if fault > 3 {
            Enter(SyncFile(fs));
            assert history == old(history) + trace[..4];
          }
        }
      }
      if dies {
        return Panic;
      }
      Enter(SyncDir(fs));
      out := if fault > 3 then Ok(()) else Err(PublishFailed);
    }

    /** replaceCurrentDBFile: the rename, then the directory sync; step `fault` fails. */
    method ReplaceCurrentDBFile(fault: nat) returns (ok: bool)
      requires Updating in fs.live
      modifies this
      ensures ok == (fault >= 2)
      ensures history == old(history) + ReplaceTrace(old(fs))[..AtMost(fault, 2)]
      ensures fs == ([old(fs)] + ReplaceTrace(old(fs)))[AtMost(fault, 2)]
    {
      ghost var trace := ReplaceTrace(fs);
      if fault == 0 {
        return false;
      }
      Enter(Rename(fs));
      assert history == old(history) + trace[..1];
      if fault == 1 {
        return false;
      }
      Enter(SyncDir(fs));
      assert history == old(history) + trace[..2];
      ok := true;
    }

    /**
     getCurrentDBDirName: a path is returned exactly if the file holds the first eight bytes of its MD5 and the path.
     */
    method GetCurrentDBDirName() returns (path: Option<bytes>)
      ensures path == CurrentPath(cfg, fs)
      ensures Digests(cfg) ==> forall p :: path == Some(p) <==>
        p != [] && IsFile(fs, Running) && fs.nodes[fs.live[Running]].content == cfg.md5(p)[..8] + p
    {
      if Digests(cfg) && IsFile(fs, Running) {
        forall p
          ensures CurrentPath(cfg, fs) == Some(p) <==>
            p != [] && fs.nodes[fs.live[Running]].content == cfg.md5(p)[..8] + p
        {
          ReadPointerExact(cfg, fs.nodes[fs.live[Running]].content, p);
        }
      }
      if !IsFile(fs, Running) {
        return None;
      }
      var data := fs.nodes[fs.live[Running]].content;
      if |data| <= 8 {
        return None;
      }
      var crc, content := data[..8], data[8..];
      if crc != Digest(cfg, content) {
        return None;
      }
      path := Some(content);
    }

    /** The loop over the directory listing; after `budget` successful system calls a removal reports an error. */
    method RemoveOthers(path: bytes, order: seq<bytes>, budget: nat) returns (ok: bool)
      modifies this
      ensures
        var trace := CleanupTrace(cfg, old(fs), path, order);
        && ok == (budget >= |trace|)
        && history == old(history) + trace[..AtMost(budget, |trace|)]
        && fs == ([old(fs)] + trace)[AtMost(budget, |trace|)]
    {
      hide DataDir.Join, Tear, Unlink, RemoveTrace, CleanupTrace;
      ghost var trace := CleanupTrace(cfg, fs, path, order);
      ghost var done: nat := 0;
      var i, left := 0, budget;
      assert order[0..] == order && trace[0..] == trace;
      while i < |order|
        invariant 0 <= i <= |order| && 0 <= done <= |trace| && 0 <= left == budget - done
        invariant history == old(history) + trace[..done]
        invariant fs == ([old(fs)] + trace)[done]
        invariant CleanupTrace(cfg, fs, path, order[i..]) == trace[done..]
      {
        assert order[i..][0] == order[i] && order[i..][1..] == order[i + 1..];
        CleanupNext(cfg, fs, path, order[i..], trace, done);
        if Join(cfg.base, order[i]) != path {
          ghost var reach := AtMost(left, 2);
          assert RemoveTrace(fs, order[i])[..reach] == trace[done..done + reach];
          assert trace[..done + reach] == trace[..done] + trace[done..done + reach];
          var gone := RemoveAll(order[i], left);
          done := done + reach;
          if !gone {
            return false;
          }
          left := left - 2;
        }
        i := i + 1;
      }
      assert order[i..] == [];
      CleanupEnd(cfg, fs, path);
      ok := true;
    }

    /** cleanupNodeDataDir; `lists` says whether the directory can be listed. */
    method CleanupNodeDataDir(order: seq<bytes>, lists: bool, budget: nat) returns (error: Option<StartError>)
      modifies this
      ensures
        var trace := StartTrace(cfg, old(fs), order);
        var path := CurrentPath(cfg, Unlink(old(fs), Updating));
        var reach := 1 + (if lists then AtMost(budget, |trace| - 2) else 0);
        && error == (if path.None? then Some(CorruptPointer) else if !lists || budget < |trace| - 2 then Some(IoFailed)
          else None)
        && history == old(history) + trace[1..][..reach] && fs == trace[reach]
    {
      hide CurrentPath, Unlink, CleanupTrace;
      ghost var first := fs;
      ghost var trace := StartTrace(cfg, fs, order);
      Enter(Unlink(fs, Updating));
      ghost var cleaned := fs;
      assert history == old(history) + trace[1..][..1];
      var path := GetCurrentDBDirName();
      if path == None {
        return Some(CorruptPointer);
      }
      if !lists {
        return Some(IoFailed);
      }
      ghost var rest := CleanupTrace(cfg, cleaned, path.value, order);
      assert trace == [first, cleaned] + rest;
      ghost var reach := AtMost(budget, |rest|);
      assert trace[1..][..1 + reach] == [cleaned] + rest[..reach];
      var ok := RemoveOthers(path.value, order, budget);
      error := if ok then None else Some(IoFailed);
    }

    /** getPebbleDBDir when the pointer file exists: the recorded path is looked up, in this directory or elsewhere. */
    method GetPebbleDBDir(order: seq<bytes>, elsewhere: bytes -> bool, lists: bool, budget: nat) returns (r: Start)
      modifies this
      ensures
        var trace := StartTrace(cfg, old(fs), order);
        var reach := 1 + (if lists then AtMost(budget, |trace| - 2) else 0);
        && r.fs == fs == trace[reach] && history == old(history) + trace[1..][..reach]
        && (if CurrentPath(cfg, Unlink(old(fs), Updating)).None? || (lists && budget >= |trace| - 2)
            then r == Startup(cfg, old(fs), order, elsewhere)
            else r == StartFailed(fs, IoFailed))
    {
      hide CleanupTrace, Unlink, CurrentPath;
      var error := CleanupNodeDataDir(order, lists, budget);
      if error.Some? {
        return StartFailed(fs, error.value);
      }
      var path := GetCurrentDBDirName();
      if path == None {
        return StartFailed(fs, CorruptPointer);
      }
      if Local(cfg, path.value) {
        r := if IsTree(fs, Dir(BaseName(path.value))) then Opened(fs, BaseName(path.value))
          else StartFailed(fs, DirMissing);
      } else {
        r := if elsewhere(path.value) then OpenedElsewhere(fs, path.value) else StartFailed(fs, DirMissing);
      }
    }

    /** getPebbleDBDir when there is no pointer file: the new name is published before the directory is made. */
    method NewPebbleDBDir(newId: bytes, saveFault: nat, dies: bool, replaceFault: nat) returns (out: Outcome<bytes>)
      requires Workable(fs)
      modifies this
      ensures out == match SaveVerdict(saveFault, dies)
                     case Err(e) => Err(e)
                     case Panic => Panic
                     case Ok(_) => if replaceFault >= 2 then Ok(newId) else Err(PublishFailed)
      ensures
        var trace := FirstRunTrace(cfg, old(fs), newId);
        && (out.Ok? ==> history == old(history) + trace[..7] && fs == trace[6])
        && (SaveVerdict(saveFault, dies).Ok? ==> fs == trace[4 + AtMost(replaceFault, 2)])
        && (!SaveVerdict(saveFault, dies).Ok? ==> At(fs.live, Running) == At(old(fs).live, Running))
    {
      hide SaveTrace;
      ghost var first := fs;
      ghost var saved := SaveTrace(cfg, first, Join(cfg.base, newId));
      var out' := SaveCurrentDBDirName(Join(cfg.base, newId), saveFault, dies);
      SaveKeepsRunning(cfg, first, Join(cfg.base, newId));
      if !out'.Ok? {
        return if out'.Err? then Err(out'.error) else Panic;
      }
      ghost var replaced := ReplaceTrace(fs);
      assert FirstRunTrace(cfg, first, newId)[..7] == saved + replaced;
      var ok := ReplaceCurrentDBFile(replaceFault);
      assert replaced[..AtMost(2, 2)] == replaced;
      out := if ok then Ok(newId) else Err(PublishFailed);
    }
  }
}
