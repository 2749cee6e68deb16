/** The replicated state machine as a specification: what a log of commands means, and its laws. */
module CommandLog {
  import opened Bytes
  import opened Snapshot
  import opened SnapshotTheorems

  const QUERY: int := 0
  const INSERT: int := 1
  const CF_DEFAULT: byte := 1

  datatype Command = Command(kind: int, payload: bytes)

  /** JSON decoding of a command and of an insert's payload; None where json.Unmarshal reports an error. */
  datatype Json = Json(command: bytes -> Option<Command>, payload: bytes -> Option<Record>)

  datatype Entry = Entry(index: nat, data: bytes)

  datatype ReplyError = NoError | BadCommand | BadPayload | UndefinedCommand | StoreClosed
  datatype Reply = Reply(val: bytes, error: ReplyError)

  function CfKey(key: bytes): bytes {
    [CF_DEFAULT] + key
  }

  /** The one write a log entry stands for, if any: queries and undecodable commands write nothing. */
  function Effect(js: Json, data: bytes): Option<Record> {
    match js.command(data)
    case None => None
    case Some(c) =>
      if c.kind != INSERT then None
      else match js.payload(c.payload)
        case None => None
        case Some(kv) => Some(Record(CfKey(kv.key), kv.val))
  }

  function ApplyEntry(js: Json, db: Db, e: Entry): Db {
    match Effect(js, e.data)
    case None => db
    case Some(w) => db[w.key := w.val]
  }

  /** The specification of the state machine: the log folded over a map. */
  function ApplyLog(js: Json, db: Db, log: seq<Entry>): Db {
    if log == [] then db else ApplyEntry(js, ApplyLog(js, db, log[..|log| - 1]), log[|log| - 1])
  }

  function LookUp(db: Db, key: bytes): bytes {
    if key in db then db[key] else []
  }

  /** What the client of an entry is answered, in a database `db`. */
  function ReplyTo(js: Json, db: Db, data: bytes): Reply {
    match js.command(data)
    case None => Reply([], BadCommand)
    case Some(c) =>
      if c.kind == QUERY then Reply(LookUp(db, CfKey(c.payload)), NoError)
      else if c.kind == INSERT then Reply([], if js.payload(c.payload).None? then BadPayload else NoError)
      else Reply([], UndefinedCommand)
  }

  // ---- laws of the log ----

  lemma {:induction false} ApplyLogConcat(js: Json, db: Db, a: seq<Entry>, b: seq<Entry>)
    ensures ApplyLog(js, db, a + b) == ApplyLog(js, ApplyLog(js, db, a), b)
    decreases |b|
  {
    if b == [] {
      assert a + b == a;
    } else {
      var n := |b| - 1;
      assert (a + b)[..|a + b| - 1] == a + b[..n];
      ApplyLogConcat(js, db, a, b[..n]);
    }
  }

  /** The last write to `key` in a log, found from the end: the meaning of the log, key by key. */
  function LastWrite(js: Json, log: seq<Entry>, key: bytes): Option<bytes> {
    if log == [] then None
    else
      var w := Effect(js, log[|log| - 1].data);
      if w.Some? && w.value.key == key then Some(w.value.val) else LastWrite(js, log[..|log| - 1], key)
  }

  function ValueAt(db: Db, key: bytes): Option<bytes> {
    if key in db then Some(db[key]) else None
  }

  /** Inserts overwrite by key and nothing else changes the database. */
  lemma {:induction false} ApplyLogIsLastWrite(js: Json, db: Db, log: seq<Entry>, key: bytes)
    ensures ValueAt(ApplyLog(js, db, log), key) ==
            if LastWrite(js, log, key).Some? then LastWrite(js, log, key) else ValueAt(db, key)
    decreases |log|
  {
    if log == [] {
    } else {
      ApplyLogIsLastWrite(js, db, log[..|log| - 1], key);
    }
  }

  lemma {:induction false} LastWriteConcat(js: Json, a: seq<Entry>, b: seq<Entry>, key: bytes)
    ensures LastWrite(js, a + b, key) == if LastWrite(js, b, key).Some? then LastWrite(js, b, key)
      else LastWrite(js, a, key)
    decreases |b|
  {
    if b == [] {
      assert a + b == a;
    } else {
      assert (a + b)[..|a + b| - 1] == a + b[..|b| - 1];
      LastWriteConcat(js, a, b[..|b| - 1], key);
    }
  }

  lemma SameDb(a: Db, b: Db)
    requires forall key :: ValueAt(a, key) == ValueAt(b, key)
    ensures a == b
  {
    assert forall key :: key in a <==> ValueAt(a, key).Some?;
    assert forall key :: key in b <==> ValueAt(b, key).Some?;
    assert a.Keys == b.Keys;
    forall key | key in a ensures a[key] == b[key] {
      assert ValueAt(a, key) == ValueAt(b, key);
    }
  }

  lemma ReplayAtKey(js: Json, log: seq<Entry>, i: nat, m: nat, key: bytes)
    requires i <= m <= |log|
    requires LastWrite(js, log[i..], key).None?
    ensures LastWrite(js, log[..m], key) == LastWrite(js, log, key)
  {
    hide LastWrite;
    assert log == log[..i] + log[i..];
    LastWriteConcat(js, log[..i], log[i..], key);
    assert log[..m] == log[..i] + log[i..m];
    LastWriteConcat(js, log[..i], log[i..m], key);
    assert log[i..] == log[i..m] + log[m..];
    LastWriteConcat(js, log[i..m], log[m..], key);
  }

  /**
   Replay converges. A database that survived with the first `m` entries applied, and on which the log is
   replayed from any point `i` not after `m`, ends up as if the log had been applied once.
   */
  lemma ReplayConverges(js: Json, db: Db, log: seq<Entry>, i: nat, m: nat)
    requires i <= m <= |log|
    ensures ApplyLog(js, ApplyLog(js, db, log[..m]), log[i..]) == ApplyLog(js, db, log)
  {
    hide LastWrite, ApplyLog, ValueAt;
    var mid := ApplyLog(js, db, log[..m]);
    forall key ensures ValueAt(ApplyLog(js, mid, log[i..]), key) == ValueAt(ApplyLog(js, db, log), key) {
      ApplyLogIsLastWrite(js, mid, log[i..], key);
      ApplyLogIsLastWrite(js, db, log[..m], key);
      ApplyLogIsLastWrite(js, db, log, key);
      if LastWrite(js, log[i..], key).Some? {
        assert log == log[..i] + log[i..];
        LastWriteConcat(js, log[..i], log[i..], key);
      } else {
        ReplayAtKey(js, log, i, m, key);
      }
    }
    SameDb(ApplyLog(js, mid, log[i..]), ApplyLog(js, db, log));
  }

  // ---- the client's view: keys as inserted, keys as queried ----

  /** The entry is an insert of `key` with `val`: a decodable command of kind 1 with a decodable payload. */
  predicate Inserts(js: Json, e: Entry, key: bytes, val: bytes) {
    && js.command(e.data).Some? && js.command(e.data).value.kind == 1
    && js.payload(js.command(e.data).value.payload) == Some(Record(key, val))
  }

  ghost predicate NeverInserted(js: Json, log: seq<Entry>, key: bytes) {
    forall i, v :: 0 <= i < |log| ==> !Inserts(js, log[i], key, v)
  }

  ghost predicate LastInserted(js: Json, log: seq<Entry>, key: bytes, val: bytes) {
    exists i :: 0 <= i < |log| && Inserts(js, log[i], key, val) && NeverInserted(js, log[i + 1..], key)
  }

  /** What a client that queries `key` should be told after a log: the last insert to it, or the empty value. */
  ghost predicate Answers(js: Json, log: seq<Entry>, key: bytes, val: bytes) {
    LastInserted(js, log, key, val) || (val == [] && NeverInserted(js, log, key))
  }

  lemma CfKeyInjective(a: bytes, b: bytes)
    requires CfKey(a) == CfKey(b)
    ensures a == b
  {
    assert CfKey(a)[1..] == a && CfKey(b)[1..] == b;
  }

  /** Stored keys carry the byte of the default column family, 1, in front. */
  lemma StoredKey(key: bytes)
    ensures |CfKey(key)| == |key| + 1 && CfKey(key)[0] == 1 && CfKey(key)[1..] == key
  {
  }

  /** An entry writes the stored key of `key` exactly if it inserts `key`, and then it writes what it inserts. */
  lemma EffectOfInsert(js: Json, e: Entry, key: bytes)
    ensures
      var w := Effect(js, e.data);
      && (forall v :: Inserts(js, e, key, v) ==> w == Some(Record(CfKey(key), v)))
      && (w.Some? && w.value.key == CfKey(key) ==> Inserts(js, e, key, w.value.val))
  {
    hide CfKey;
    var w := Effect(js, e.data);
    if w.Some? && w.value.key == CfKey(key) {
      CfKeyInjective(js.payload(js.command(e.data).value.payload).value.key, key);
    }
  }

  lemma {:induction false} LastWriteAnswers(js: Json, log: seq<Entry>, key: bytes)
    ensures
      var w := LastWrite(js, log, CfKey(key));
      if w.Some? then LastInserted(js, log, key, w.value) else NeverInserted(js, log, key)
    decreases |log|
  {
    hide CfKey, Effect, Inserts;
    if log == [] {
    } else {
      var n := |log| - 1;
      var front := log[..n];
      LastWriteAnswers(js, front, key);
      EffectOfInsert(js, log[n], key);
      var w := LastWrite(js, log, CfKey(key));
      var e := Effect(js, log[n].data);
      if e.Some? && e.value.key == CfKey(key) {
        assert Inserts(js, log[n], key, w.value) && log[n + 1..] == [];
      } else {
        assert forall v :: !Inserts(js, log[n], key, v);
        if w.Some? {
          var i :| 0 <= i < n && Inserts(js, front[i], key, w.value) && NeverInserted(js, front[i + 1..], key);
          assert log[i + 1..] == front[i + 1..] + [log[n]];
          assert Inserts(js, log[i], key, w.value) && NeverInserted(js, log[i + 1..], key);
        } else {
          assert log == front + [log[n]];
        }
      }
    }
  }

  /** There is one right answer. */
  lemma AnswersUnique(js: Json, log: seq<Entry>, key: bytes, a: bytes, b: bytes)
    requires Answers(js, log, key, a) && Answers(js, log, key, b)
    ensures a == b
  {
    if LastInserted(js, log, key, a) && LastInserted(js, log, key, b) {
      var i :| 0 <= i < |log| && Inserts(js, log[i], key, a) && NeverInserted(js, log[i + 1..], key);
      var k :| 0 <= k < |log| && Inserts(js, log[k], key, b) && NeverInserted(js, log[k + 1..], key);
    }
  }

  /** After a log applied from empty, looking up a client's key gives the client's answer. */
  lemma LookUpAnswers(js: Json, log: seq<Entry>, key: bytes)
    ensures Answers(js, log, key, LookUp(ApplyLog(js, map[], log), CfKey(key)))
  {
    hide CfKey, ApplyLog, LastWrite, LastInserted, NeverInserted;
    ApplyLogIsLastWrite(js, map[], log, CfKey(key));
    LastWriteAnswers(js, log, key);
  }

  /** A query that goes through the log is answered with the last insert before it. */
  lemma QueryEntryAnswers(js: Json, log: seq<Entry>, data: bytes)
    requires js.command(data).Some? && js.command(data).value.kind == 0
    ensures
      var reply := ReplyTo(js, ApplyLog(js, map[], log), data);
      reply.error == NoError && Answers(js, log, js.command(data).value.payload, reply.val)
  {
    hide CfKey, ApplyLog, Answers;
    LookUpAnswers(js, log, js.command(data).value.payload);
  }

  /**
   Replies tell the truth. An insert is answered without error exactly if the entry inserts something, and then
   a query right after it reads that; every entry answered with an error, and every query, changes nothing.
   */
  lemma RepliesTell(js: Json, db: Db, e: Entry)
    ensures
      var reply, after := ReplyTo(js, db, e.data), ApplyEntry(js, db, e);
      && (forall k, v :: Inserts(js, e, k, v) ==> reply == Reply([], NoError) && LookUp(after, CfKey(k)) == v)
      && (reply.error != NoError ==> after == db && reply.val == [])
      && (reply.error == NoError ==>
            || (exists k, v :: Inserts(js, e, k, v))
            || (js.command(e.data).Some? && js.command(e.data).value.kind == 0 && after == db))
      && (reply.error == BadCommand <==> js.command(e.data).None?)
      && (reply.error == BadPayload <==> js.command(e.data).Some? && js.command(e.data).value.kind == 1
                                         && js.payload(js.command(e.data).value.payload).None?)
  {
    hide CfKey;
    if js.command(e.data).Some? && js.command(e.data).value.kind == 1 {
      var p := js.payload(js.command(e.data).value.payload);
      if p.Some? {
        assert Inserts(js, e, p.value.key, p.value.val);
      }
    }
  }

  // ---- log compaction ----

  /** fsmIndex after applying a log. */
  function IndexAfter(start: nat, log: seq<Entry>): nat {
    if log == [] then start else log[|log| - 1].index
  }

  /** fsmIndex after a restore: a header with last index 0 leaves it alone. */
  function IndexRestored(prior: nat, lastIndex: nat): nat {
    if lastIndex > 0 then lastIndex else prior
  }

  /**
   Log compaction on the saved bytes: decoding the snapshot of the state after the first `i` entries and applying
   the rest gives the database of the whole log. The index of a node that had index `prior` agrees too, exactly
   when the snapshot's index is positive, or entries follow, or `prior` is 0.
   */
  lemma CompactionPreservesMeaning(js: Json, rt: Runtime, nodeId: bytes, timestamp: int, log: seq<Entry>, i: nat,
                                   records: seq<Record>, prior: nat)
    requires Lossless(rt) && i <= |log| && Restorable(rt, nodeId, records)
    requires Iterates(records, ApplyLog(js, map[], log[..i]))
    requires HeaderFields(IndexAfter(0, log[..i]), timestamp)
    ensures
      var saved := SnapshotBytes(rt, nodeId, IndexAfter(0, log[..i]), timestamp, records);
      var out := DecodeSnapshot(rt, Source(saved, Eof));
      && out.Ok?
      && ApplyLog(js, PutAll(map[], out.value.1), log[i..]) == ApplyLog(js, map[], log)
      && (IndexAfter(IndexRestored(prior, out.value.0.lastIndex), log[i..]) == IndexAfter(0, log)
          <==> IndexAfter(0, log[..i]) > 0 || i < |log| || prior == 0)
  {
    hide DecodeSnapshot, SnapshotBytes, ApplyLog, PutAll, Iterates;
    RoundTrip(rt, nodeId, IndexAfter(0, log[..i]), timestamp, records);
    IterationRebuilds(records, ApplyLog(js, map[], log[..i]));
    ApplyLogConcat(js, map[], log[..i], log[i..]);
    assert log == log[..i] + log[i..];
  }
}
