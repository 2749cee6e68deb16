/** fsm/fsm.go and fsm/apply.go: the state machine object that Raft drives. */
module Fsm {
  import opened Bytes
  import opened Snapshot
  import opened DataDir
  import opened CrashRuns
  import opened SyncFailure
  import opened Pebble
  import opened Writer
  import opened Storage
  import opened CommandLog
  import opened Channels

  /** What Snapshot captures: the database at that moment, whatever is applied later, and its index. */
  datatype FsmSnapshot = FsmSnapshot(db: Db, lastIndex: nat)

  datatype Metrics = Metrics(snapshotCount: nat, lastSnapshotSize: nat, lastSnapshotRecords: nat, restoreCount: nat)

  lemma IterationCounts(records: seq<Record>, db: Db)
    requires Iterates(records, db)
    ensures |records| == |db|
  {
    var keys := set i | 0 <= i < |records| :: records[i].key;
    assert keys == db.Keys;
    DistinctKeys(records);
  }

  lemma {:induction false} DistinctKeys(records: seq<Record>)
    requires forall i, j :: 0 <= i < j < |records| ==> records[i].key != records[j].key
    ensures |set i | 0 <= i < |records| :: records[i].key| == |records|
    decreases |records|
  {
    if records == [] {
    } else {
      var n := |records| - 1;
      var init := records[..n];
      DistinctKeys(init);
      assert (set i | 0 <= i < |records| :: records[i].key)
          == (set i | 0 <= i < |init| :: init[i].key) + {records[n].key};
    }
  }

  class StateMachine {
    const js: Json
    const nodeId: bytes
    const store: Store
    var fsmIndex: nat
    var metrics: Metrics
    var closes: seq<nat>
    var abandonCh: nat

    ghost predicate Valid()
      reads this, store, store.dir
    {
      store.Valid() && Signals()
    }

    ghost predicate Signals()
      reads this
    {
      Generations(closes, metrics.restoreCount) && abandonCh == metrics.restoreCount
    }

    ghost function Contents(): Db
      reads this, store, store.dir
      requires Valid()
    {
      store.Contents()
    }

    constructor (js: Json, nodeId: bytes, store: Store)
      requires store.Valid()
      ensures Valid() && this.store == store && Contents() == store.Contents() && fsmIndex == 0
      ensures metrics == Metrics(0, 0, 0, 0) && this.js == js && this.nodeId == nodeId
    {
      this.js, this.nodeId, this.store := js, nodeId, store;
      fsmIndex, metrics, closes, abandonCh := 0, Metrics(0, 0, 0, 0), [0], 0;
    }

    method UpdateFsmIndex(index: nat)
      modifies this`fsmIndex
      ensures fsmIndex >= old(fsmIndex) && fsmIndex >= index && fsmIndex in {old(fsmIndex), index}
    {
      if fsmIndex < index {
        fsmIndex := index;
      }
    }

    method Query(key: bytes) returns (reply: Reply)
      requires Valid()
      ensures store.closed ==> reply == Reply([], StoreClosed)
      ensures !store.closed ==> reply == Reply(LookUp(Contents(), CfKey(key)), NoError)
    {
      if store.closed {
        return Reply([], StoreClosed);
      }
      var val := store.GetBytes(CfKey(key));
      reply := Reply(val.value, NoError);
    }

    method ApplyCommand(data: bytes) returns (reply: Reply)
      requires Valid() && !store.closed
      modifies store.dir
      ensures Valid() && reply == ReplyTo(js, old(Contents()), data)
      ensures Contents() == ApplyEntry(js, old(Contents()), Entry(0, data))
    {
      var command := js.command(data);
      if command == None {
        return Reply([], BadCommand);
      }
      if command.value.kind == QUERY {
        reply := Query(command.value.payload);
      } else if command.value.kind == INSERT {
        var payload := js.payload(command.value.payload);
        if payload == None {
          return Reply([], BadPayload);
        }
        store.Write(CfKey(payload.value.key), payload.value.val);
        reply := Reply([], NoError);
      } else {
        reply := Reply([], UndefinedCommand);
      }
    }

    /** One committed entry: a closed store refuses it and nothing changes. */
    method Apply(entry: Entry) returns (reply: Reply)
      requires Valid()
      modifies this`fsmIndex, store.dir
      ensures Valid()
      ensures store.closed ==>
        reply == Reply([], StoreClosed) && fsmIndex == old(fsmIndex) && Contents() == old(Contents())
      ensures !store.closed ==>
        && fsmIndex == entry.index
        && Contents() == ApplyEntry(js, old(Contents()), entry)
        && reply == ReplyTo(js, old(Contents()), entry.data)
    {
      if store.closed {
        return Reply([], StoreClosed);
      }
      fsmIndex := entry.index;
      reply := ApplyCommand(entry.data);
    }

    method Snapshot() returns (r: Outcome<FsmSnapshot>)
      requires Valid()
      ensures r == if store.closed then Err(Closed) else Ok(FsmSnapshot(Contents(), fsmIndex))
    {
      if store.closed {
        return Err(Closed);
      }
      r := Ok(FsmSnapshot(store.dir.fs.nodes[store.handle].db, fsmIndex));
    }

    /**
     Persists a snapshot taken earlier, in any iteration order: the bytes depend on what was captured and on
     nothing applied since, and the metrics report the bytes on the sink and the keys in the snapshot.
     */
    method Persist(snap: FsmSnapshot, records: seq<Record>, timestamp: int, it: Iteration, sink: Sink)
      returns (ok: bool)
      requires Signals() && Iterates(records, snap.db) && HeaderFields(snap.lastIndex, timestamp)
      requires sink.data == [] && !sink.cancelled && !sink.closed
      modifies this`metrics, sink
      ensures Signals()
      ensures ok <==> old(sink.writesLeft) >= 2 + 4 * |snap.db| && Sound(it, |snap.db|) && sink.closes
      ensures ok ==>
        && sink.data == SnapshotBytes(store.rt, nodeId, snap.lastIndex, timestamp, records)
        && sink.closed && !sink.cancelled
        && metrics == Metrics(old(metrics).snapshotCount + 1, |sink.data|, |snap.db|, old(metrics).restoreCount)
      ensures !ok ==> metrics == old(metrics)
      ensures !ok && it.opens ==>
        && sink.closed == (old(sink.writesLeft) >= 2 + 4 * |snap.db| && Sound(it, |snap.db|))
        && sink.cancelled == !sink.closed
    {
      hide SnapshotBytes, Iterates;
      IterationCounts(records, snap.db);
      var result := SaveSnapShot(store.rt, nodeId, snap.lastIndex, timestamp, records, it, sink);
      ok := result.Some?;
      if ok {
        metrics := Metrics(metrics.snapshotCount + 1, result.value.size, result.value.records, metrics.restoreCount);
      }
    }

    /** The current channel is replaced before the old one is closed. */
    method Abandon()
      requires metrics.restoreCount > 0 && Generations(closes, metrics.restoreCount - 1)
        && abandonCh == metrics.restoreCount - 1
      modifies this`closes, this`abandonCh
      ensures Signals() && closes == old(closes)[old(abandonCh) := 1] + [0]
    {
      var oldCh := abandonCh;
      abandonCh := |closes|;
      closes := closes + [0];
      closes := closes[oldCh := closes[oldCh] + 1];
    }

    /**
     Restore. On success everything before is discarded, the index follows the header unless that says 0, and
     the watchers' channel is closed exactly once. An error leaves the index, the channels and the metrics alone.
     The contents change all the same if the switch had already happened; if it had not, they stay, also when the
     directory sync fails after the rename.
     */
    method Restore(src: Source, newId: bytes, fault: Fault, sweep: nat) returns (out: Outcome<()>)
      requires Valid() && Fresh(store.dir.fs, newId)
      modifies this`fsmIndex, this`metrics, this`closes, this`abandonCh, store`id, store`handle, store`pointer,
        store.dir
      ensures store.closed ==> out == Err(Closed) && Valid() && Contents() == old(Contents())
      ensures !store.closed ==>
        match Verdict(store.rt, src, fault)
        case Ok(header) =>
          && out == Ok(()) && Valid()
          && Contents() == Restored(store.rt, src)
          && fsmIndex == (if header.lastIndex > 0 then header.lastIndex else old(fsmIndex))
          && metrics == old(metrics).(restoreCount := old(metrics).restoreCount + 1)
          && closes == old(closes)[old(abandonCh) := 1] + [0]
        case Err(e) => out == Err(e)
        case Panic => out == Panic
      ensures !out.Ok? ==> unchanged(this)
      ensures src.ending == Broken ==> !out.Ok? && Valid() && Contents() == old(Contents())
      ensures !out.Ok? && !Switches(store.rt, src, fault) && !Breaks(store.rt, src, fault) ==>
        Valid() && Contents() == old(Contents())
      ensures !store.closed && Switches(store.rt, src, fault) ==> Valid() && Contents() == Restored(store.rt, src)
      ensures !store.closed && Breaks(store.rt, src, fault) ==>
        store.id == old(store.id) && store.handle == old(store.handle)
        && Kept(store.dir.fs, store.id, store.handle, old(Contents()))
    {
      hide DecodeSnapshot, Verdict, Switches, Breaks, Restored, UpOk, Generations, RestoreHistory, BrokenHistory,
           BrokenState, Serves, Kept, Fresh, Digests;
      if store.closed {
        return Err(Closed);
      }
      if Verdict(store.rt, src, fault).Ok? {
        VerdictSwitches(store.rt, src, fault);
      }
      ghost var stages;
      var header;
      header, stages := store.RecoverSnapShot(src, newId, fault, sweep);
      if !header.Ok? {
        return if header.Err? then Err(header.error) else Panic;
      }
      if header.value.lastIndex > 0 {
        fsmIndex := header.value.lastIndex;
      }
      metrics := metrics.(restoreCount := metrics.restoreCount + 1);
      Abandon();
      out := Ok(());
    }

    method Close()
      requires Valid()
      modifies store`closed
      ensures store.closed && Valid() && Contents() == old(Contents())
    {
      store.closed := true;
    }
  }

  lemma VerdictSwitches(rt: Runtime, src: Source, fault: Fault)
    requires Verdict(rt, src, fault).Ok?
    ensures Switches(rt, src, fault)
    ensures DecodeSnapshot(rt, src).value.0 == Verdict(rt, src, fault).value
  {
  }
}
