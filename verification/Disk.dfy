/**
 The file system under a node's data directory, with crashes.

 Directory entries and file contents are cached: a change is visible at once but reaches the disk at the
 next sync. A crash may keep or lose every unsynced entry change independently of the others, leaves the
 content of an unsynced file arbitrary, and leaves a half-built or half-deleted database arbitrary.
 */
module Disk {
  import opened Bytes
  import opened Snapshot

  type Ino = nat

  /** The entries of the data directory that matter: two pointer files and the database directories. */
  datatype Name = Running | Updating | Dir(id: bytes)

  datatype Node = Pointer(content: bytes, synced: bool) | Tree(db: Db, intact: bool)

  /** `live` is what system calls see, `disk` the last synced entries, `pending` the changes since. */
  datatype Fs = Fs(nodes: map<Ino, Node>, next: Ino, live: map<Name, Ino>, disk: map<Name, Ino>,
                   pending: set<(Name, Option<Ino>)>)

  function At(entries: map<Name, Ino>, n: Name): Option<Ino> {
    if n in entries then Some(entries[n]) else None
  }

  /** `v` is a value a crash could leave under the name `n`. */
  predicate Possible(fs: Fs, n: Name, v: Option<Ino>) {
    v == At(fs.disk, n) || (n, v) in fs.pending
  }

  ghost predicate Only(fs: Fs, n: Name, v: Option<Ino>) {
    forall w :: Possible(fs, n, w) ==> w == v
  }

  predicate Has(fs: Fs, n: Name, i: Ino) {
    At(fs.live, n) == Some(i) || Possible(fs, n, Some(i))
  }

  ghost predicate WellFormed(fs: Fs) {
    && (forall i :: i in fs.nodes ==> i < fs.next)
    && (forall n, i :: Has(fs, n, i) ==> i in fs.nodes && (n.Dir? <==> fs.nodes[i].Tree?))
    && (forall n, m, i :: Has(fs, n, i) && Has(fs, m, i) && n.Dir? ==> n == m)
  }

  // ---- system calls ----

  function SetEntry(fs: Fs, n: Name, v: Option<Ino>): Fs {
    fs.(live := if v.Some? then fs.live[n := v.value] else fs.live - {n}, pending := fs.pending + {(n, v)})
  }

  function SyncDir(fs: Fs): Fs {
    fs.(disk := fs.live, pending := {})
  }

  function AddNode(fs: Fs, n: Name, node: Node): Fs {
    SetEntry(fs.(nodes := fs.nodes[fs.next := node], next := fs.next + 1), n, Some(fs.next))
  }

  /** os.Create: truncates the file if it is there. */
  function Create(fs: Fs): Fs {
    if Updating in fs.live then fs.(nodes := fs.nodes[fs.live[Updating] := Pointer([], false)])
    else AddNode(fs, Updating, Pointer([], false))
  }

  function Append(fs: Fs, data: bytes): Fs
    requires IsFile(fs, Updating)
  {
    var i := fs.live[Updating];
    fs.(nodes := fs.nodes[i := Pointer(fs.nodes[i].content + data, false)])
  }

  function SyncFile(fs: Fs): Fs
    requires IsFile(fs, Updating)
  {
    var i := fs.live[Updating];
    fs.(nodes := fs.nodes[i := fs.nodes[i].(synced := true)])
  }

  predicate IsFile(fs: Fs, n: Name) {
    n in fs.live && fs.live[n] in fs.nodes && fs.nodes[fs.live[n]].Pointer?
  }

  predicate IsTree(fs: Fs, n: Name) {
    n in fs.live && fs.live[n] in fs.nodes && fs.nodes[fs.live[n]].Tree?
  }

  function Rename(fs: Fs): Fs
    requires Updating in fs.live
  {
    SetEntry(SetEntry(fs, Running, Some(fs.live[Updating])), Updating, None)
  }

  function Unlink(fs: Fs, n: Name): Fs {
    if n in fs.live then SetEntry(fs, n, None) else fs
  }

  /** A new, still empty database directory. */
  function Mkdir(fs: Fs, id: bytes): Fs {
    AddNode(fs, Dir(id), Tree(map[], false))
  }

  /** The content of a database directory changes; `intact` says it can be relied on after a crash. */
  function Fill(fs: Fs, id: bytes, db: Db, intact: bool): Fs
    requires IsTree(fs, Dir(id))
  {
    fs.(nodes := fs.nodes[fs.live[Dir(id)] := Tree(db, intact)])
  }

  /** os.RemoveAll on a database directory empties it before the entry goes. */
  function Tear(fs: Fs, id: bytes): Fs {
    if IsTree(fs, Dir(id)) then Fill(fs, id, map[], false) else fs
  }

  // ---- crashes ----

  predicate Survives(before: Node, after: Node) {
    match before
    case Pointer(_, synced) => after.Pointer? && after.synced && (synced ==> after == before)
    case Tree(_, intact) => after.Tree? && (if intact then after == before else !after.intact)
  }

  /** `image` is what a restarted process may find after a crash in state `fs`. */
  ghost predicate CrashImage(fs: Fs, image: Fs) {
    && image.next == fs.next && image.disk == image.live && image.pending == {}
    && (forall n :: Possible(fs, n, At(image.live, n)))
    && image.nodes.Keys == fs.nodes.Keys
    && (forall i :: i in fs.nodes ==> Survives(fs.nodes[i], image.nodes[i]))
  }

  /** The image that keeps the given entries and every content as it was. */
  function Image(fs: Fs, entries: map<Name, Ino>): Fs {
    Fs(map i | i in fs.nodes :: if fs.nodes[i].Pointer? then fs.nodes[i].(synced := true) else fs.nodes[i],
       fs.next, entries, entries, {})
  }

  /** Every choice among the possible entries is a crash image. */
  lemma ImageIsCrash(fs: Fs, entries: map<Name, Ino>)
    requires forall n :: Possible(fs, n, At(entries, n))
    ensures CrashImage(fs, Image(fs, entries))
  {
  }

  /** No state is without a crash image: the disk may hold just what was last synced. */
  lemma CrashImageExists(fs: Fs)
    ensures CrashImage(fs, Image(fs, fs.disk))
  {
    assert forall n :: Possible(fs, n, At(fs.disk, n));
    ImageIsCrash(fs, fs.disk);
  }

  // ---- every system call keeps the file system well formed ----

  lemma SetEntryPossible(fs: Fs, n: Name, v: Option<Ino>)
    ensures forall m, w :: Possible(SetEntry(fs, n, v), m, w) <==> Possible(fs, m, w) || (m == n && w == v)
  {
  }

  lemma SetEntryHas(fs: Fs, n: Name, v: Option<Ino>, m: Name, i: Ino)
    ensures Has(SetEntry(fs, n, v), m, i) ==> Has(fs, m, i) || (m == n && v == Some(i))
  {
  }

  lemma SetEntryWellFormed(fs: Fs, n: Name, v: Option<Ino>)
    requires WellFormed(fs)
    requires v.Some? ==> v.value in fs.nodes && (n.Dir? <==> fs.nodes[v.value].Tree?)
    requires v.Some? ==> forall m :: Has(fs, m, v.value) && (m.Dir? || n.Dir?) ==> m == n
    ensures WellFormed(SetEntry(fs, n, v))
  {
    var fs' := SetEntry(fs, n, v);
    forall m, i | Has(fs', m, i) ensures i in fs'.nodes && (m.Dir? <==> fs'.nodes[i].Tree?) {
      SetEntryHas(fs, n, v, m, i);
    }
    forall m, m', i | Has(fs', m, i) && Has(fs', m', i) && m.Dir? ensures m == m' {
      SetEntryHas(fs, n, v, m, i);
      SetEntryHas(fs, n, v, m', i);
    }
  }

  lemma AddNodeWellFormed(fs: Fs, n: Name, node: Node)
    requires WellFormed(fs) && (n.Dir? <==> node.Tree?)
    ensures WellFormed(AddNode(fs, n, node))
  {
    var fs1 := fs.(nodes := fs.nodes[fs.next := node], next := fs.next + 1);
    assert forall m, i :: Has(fs1, m, i) <==> Has(fs, m, i);
    assert WellFormed(fs1);
    SetEntryWellFormed(fs1, n, Some(fs.next));
  }

  lemma SyncDirWellFormed(fs: Fs)
    requires WellFormed(fs)
    ensures WellFormed(SyncDir(fs))
  {
    assert forall m, i :: Has(SyncDir(fs), m, i) ==> Has(fs, m, i);
  }

  lemma SetNodeWellFormed(fs: Fs, i: Ino, node: Node)
    requires WellFormed(fs) && i in fs.nodes && (fs.nodes[i].Tree? <==> node.Tree?)
    ensures WellFormed(fs.(nodes := fs.nodes[i := node]))
  {
    var fs' := fs.(nodes := fs.nodes[i := node]);
    assert forall m, j :: Has(fs', m, j) <==> Has(fs, m, j);
  }

  lemma CrashWellFormed(fs: Fs, image: Fs)
    requires WellFormed(fs) && CrashImage(fs, image)
    ensures WellFormed(image)
  {
    forall n, i | Has(image, n, i) ensures Has(fs, n, i) && (i in fs.nodes ==> Survives(fs.nodes[i], image.nodes[i])) {
      assert Possible(fs, n, At(image.live, n));
    }
  }
}
