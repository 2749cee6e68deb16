/** The pieces the store writes through: a Pebble database, a write batch on it, and a snapshot sink. */
module Pebble {
  import opened Bytes
  import opened Snapshot

  /** A Pebble database as the map it holds. */
  class Database {
    var contents: Db

    constructor ()
      ensures contents == map[]
    {
      contents := map[];
    }
  }

  /** pebbleWriteBatch: records wait in `pending` until Commit applies them to the database in order. */
  class WriteBatch {
    const db: Database
    var pending: seq<Record>

    /** The database once everything pending is committed. */
    ghost function Outlook(): Db
      reads this, db
    {
      PutAll(db.contents, pending)
    }

    constructor (db: Database)
      ensures this.db == db && pending == []
    {
      this.db := db;
      pending := [];
    }

    method Put(key: bytes, val: bytes)
      modifies this
      ensures pending == old(pending) + [Record(key, val)]
      ensures Outlook() == old(Outlook())[key := val]
    {
      pending := pending + [Record(key, val)];
    }

    method Commit()
      modifies this, db
      ensures pending == [] && db.contents == old(Outlook()) == Outlook()
    {
      db.contents := PutAll(db.contents, pending);
      pending := [];
    }

    /** Closes the batch without committing it: whatever is pending is lost. */
    method Destroy()
      modifies this
      ensures pending == [] && Outlook() == db.contents
    {
      pending := [];
    }
  }

  /** raft.SnapshotSink, which can refuse any write from some point on, or the final close. */
  class Sink {
    var data: bytes
    var writesLeft: nat
    const closes: bool
    var cancelled: bool
    var closed: bool

    constructor (writesLeft: nat, closes: bool)
      ensures data == [] && this.writesLeft == writesLeft && this.closes == closes && !cancelled && !closed
    {
      data, cancelled, closed := [], false, false;
      this.writesLeft, this.closes := writesLeft, closes;
    }

    method Write(b: bytes) returns (ok: bool)
      modifies this`data, this`writesLeft
      ensures ok == (old(writesLeft) > 0)
      ensures if ok then data == old(data) + b && writesLeft == old(writesLeft) - 1
              else data == old(data) && writesLeft == 0
    {
      ok := writesLeft > 0;
      if ok {
        data, writesLeft := data + b, writesLeft - 1;
      }
    }

    method Cancel()
      modifies this`cancelled
      ensures cancelled
    {
      cancelled := true;
    }

    method Close() returns (ok: bool)
      modifies this`closed
      ensures ok == closes && closed
    {
      closed := true;
      ok := closes;
    }
  }
}
