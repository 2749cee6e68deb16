/** Log compaction from end to end: one node persists a snapshot, another restores it and catches up. */
module Compaction {
  import opened Bytes
  import opened Snapshot
  import opened SnapshotTheorems
  import opened DataDir
  import opened CrashRuns
  import opened Pebble
  import opened Writer
  import opened Storage
  import opened CommandLog
  import opened Fsm

  /** Raft's apply loop: the committed entries, one after the other. */
  method ApplyAll(m: StateMachine, log: seq<Entry>)
    requires m.Valid() && !m.store.closed
    modifies m`fsmIndex, m.store.dir
    ensures m.Valid() && m.Contents() == ApplyLog(m.js, old(m.Contents()), log)
    ensures m.fsmIndex == IndexAfter(old(m.fsmIndex), log)
  {
    hide ApplyEntry;
    ghost var db := m.Contents();
    var k := 0;
    while k < |log|
      invariant 0 <= k <= |log| && m.Valid()
      invariant m.Contents() == ApplyLog(m.js, db, log[..k])
      invariant m.fsmIndex == IndexAfter(old(m.fsmIndex), log[..k])
    {
      assert log[..k + 1][..k] == log[..k];
      var _ := m.Apply(log[k]);
      k := k + 1;
    }
    assert log[..k] == log;
  }

  /**
   What a client reads: on a node that has applied a log from empty, a query of a key answers the value of the last
   insert to that key, and the empty value if there is none.
   */
  method ApplyThenQuery(m: StateMachine, log: seq<Entry>, key: bytes) returns (reply: Reply)
    requires m.Valid() && !m.store.closed && m.Contents() == map[]
    modifies m`fsmIndex, m.store.dir
    ensures reply.error == NoError && Answers(m.js, log, key, reply.val)
  {
    hide Answers, ApplyLog, CfKey, LookUp;
    ApplyAll(m, log);
    LookUpAnswers(m.js, log, key);
    reply := m.Query(key);
  }

  /**
   Log compaction preserves meaning. Node `a` applies a log from empty, takes a snapshot after `i` entries, goes on
   to entry `j`, and only then persists the snapshot, in any iteration order. Node `b`, whatever it held, restores
   those bytes and applies the entries after `i`: it ends with the map of the whole log. Its index agrees too,
   exactly when the snapshot's index is positive, or entries follow, or `b` had index 0.
   */
  method CompactAndCatchUp(a: StateMachine, b: StateMachine, log: seq<Entry>, i: nat, j: nat, records: seq<Record>,
                           timestamp: int, it: Iteration, sink: Sink, newId: bytes, fault: Fault, sweep: nat)
    returns (persisted: bool, restored: Outcome<()>)
    requires a != b && a.store != b.store && a.store.dir != b.store.dir && a.js == b.js && a.store.rt == b.store.rt
    requires a.Valid() && b.Valid() && !a.store.closed && !b.store.closed && a.Contents() == map[] && a.fsmIndex == 0
    requires i <= j <= |log| && Iterates(records, ApplyLog(a.js, map[], log[..i]))
    requires HeaderFields(IndexAfter(0, log[..i]), timestamp)
    requires Lossless(a.store.rt) && Restorable(a.store.rt, a.nodeId, records)
    requires Fresh(b.store.dir.fs, newId) && sink.data == [] && !sink.cancelled && !sink.closed
    modifies a`fsmIndex, a`metrics, a.store.dir, sink
    modifies b`fsmIndex, b`metrics, b`closes, b`abandonCh, b.store`id, b.store`handle, b.store`pointer, b.store.dir
    ensures a.Valid() && a.Contents() == ApplyLog(a.js, map[], log[..j])
    ensures persisted <==> old(sink.writesLeft) >= 2 + 4 * |records| && Sound(it, |records|) && sink.closes
    ensures restored.Ok? <==> persisted && fault != OpenFails && PublishVerdict(fault).Ok?
    ensures restored.Ok? ==>
      && b.Valid() && b.Contents() == ApplyLog(b.js, map[], log)
      && (b.fsmIndex == IndexAfter(0, log) <==> IndexAfter(0, log[..i]) > 0 || i < |log| || old(b.fsmIndex) == 0)
  {
    hide ApplyLog, Iterates, Lossless, Restorable, SnapshotBytes, DecodeSnapshot, DecodeHeader, DecodeBody, PutAll,
         Fresh, Switches, Breaks, UpOk, Digests;
    var js := a.js;
    ghost var prior := b.fsmIndex;
    SplitLog(js, log, i, j);
    ApplyAll(a, log[..i]);
    var snap := a.Snapshot();
    ApplyAll(a, log[i..j]);
    IterationCounts(records, snap.value.db);
    persisted := a.Persist(snap.value, records, timestamp, it, sink);
    if !persisted {
      return false, Err(PublishFailed);
    }
    CompactionPreservesMeaning(js, a.store.rt, a.nodeId, timestamp, log, i, records, prior);
    var src := Source(sink.data, Eof);
    SavedVerdict(b.store.rt, src, fault);
    restored := b.Restore(src, newId, fault, sweep);
    if restored.Ok? {
      ApplyAll(b, log[i..]);
    }
  }

  lemma SplitLog(js: Json, log: seq<Entry>, i: nat, j: nat)
    requires i <= j <= |log|
    ensures ApplyLog(js, ApplyLog(js, map[], log[..i]), log[i..j]) == ApplyLog(js, map[], log[..j])
  {
    hide ApplyLog;
    assert log[..i] + log[i..j] == log[..j];
    ApplyLogConcat(js, map[], log[..i], log[i..j]);
  }

  lemma SavedVerdict(rt: Runtime, src: Source, fault: Fault)
    requires DecodeSnapshot(rt, src).Ok?
    ensures Verdict(rt, src, fault).Ok? <==> fault != OpenFails && PublishVerdict(fault).Ok?
    ensures Verdict(rt, src, fault).Ok? ==> Verdict(rt, src, fault).value == DecodeSnapshot(rt, src).value.0
    ensures Restored(rt, src) == PutAll(map[], DecodeSnapshot(rt, src).value.1)
  {
    hide DecodeHeader, DecodeBody, PutAll;
  }
}
