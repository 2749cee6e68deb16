# Verified model of a Raft key-value node

A Dafny model of one node of a key-value store replicated with HashiCorp Raft and kept in Pebble, with proofs of
what its hardest parts promise. `dafny verify dfyconfig.toml` checks everything.

The model follows the node's five cores.

- **Snapshot codec.** `Bytes`, `Crc32` (the CRC-32 of section 8 of RFC 1952, bit by bit on 32-bit words), `Snapshot`
  (the file format as functions), `Writer` (the writer as it runs, on a byte buffer and a sink that may refuse any
  write, an iterator and a compressor that may fail), `SnapshotTheorems` (round trip, every truncation, corruption) and
  `SnapshotAcceptance` (exactly which byte streams are accepted at all).
- **Database directory switch.** `Disk` is a file system with unsynced directory entries and contents, in which a
  crash of the machine keeps or loses each unsynced entry on its own; a process that stops or is killed leaves it as it
  is. `DataDir` gives every operation as the sequence of states it passes through. `CrashSafety`, `CrashRuns` and
  `NodeLives` prove it safe for crashes and process deaths between any two system calls over whole lives of a node,
  but for two windows around the rename of the pointer file. `RenameWindow` (the process dies before the directory
  sync), `SyncFailure` (the directory sync reports an error) and `CrashLimits` (a first run, another spelling of the
  data directory) give the exact conditions there and show that the failures do occur. `Directory`, `Pebble` and
  `Storage` run the code on objects, with any system call failing; the history of their system calls is proved to be
  the one these results speak of, and a panic of theirs is a process death in one of its states.
- **Replicated state machine.** `CommandLog` says what a log of commands means, `Fsm` is the object Raft drives,
  `Compaction` runs two of them from snapshot to restore.
- **Leadership and linearizable reads.** `Leadership` interleaves Raft, the leadership monitor, its leader loops and
  a consistent read, one shared access at a time; `LeadershipProofs` holds the invariants, `LeadershipTheorems` the
  results for every interleaving, `LeadershipLiveness` how loops end and what the node can always still do.
- **Blocking watch and request routing.** `Watch`, `Channels` and `Abandon` (abandon channels as restores and watchers
  interleave), and `Service` (a Get interleaved with the leadership protocol of its node).

What lies outside the repository is an explicit environment. gzip is a pair of functions, lossless where a statement
needs it (`Lossless`). JSON decoding, MD5 and address resolution are arbitrary functions. Pebble is a map with
isolated snapshots whose operations succeed. Raft contributes only what its futures promise: a successful barrier
means that everything of earlier terms is applied and nothing of an earlier term can still be committed; a successful
verification means that no later term had a leader when the read began; a term has one leader, though a late one may
come to power after a later term was won elsewhere; the terms of committed entries never decrease; a leader
acknowledges a write of its own term after its own state machine has applied it; `raft.AppliedIndex` never lags what
the state machine has applied, on which every bound on a reported index rests; the notification channel is a FIFO
of 100.
Time is nondeterministic: tickers, deadlines and `select` choose freely. I/O errors, clock readings, new directory
names, iteration orders and crash images are parameters, so every statement holds for all of them.

Where the code and its descriptions differ, the model follows the code:

- README.md:324 says that all watchers wake up on a restore. A watcher that enters its `select` after the channel was
  replaced does not (`Abandon.MissedRestore`); `Abandon.WokenExactly` says who does.
- fsm/store.go:154 and :177 speak of a header checksum to be updated. It is always written as 0 and never compared.
- fsm/fsm.go:33-36 says that the abandon channel is only ever closed. It is also replaced on every restore.
- engine/kv.go:86-87 says that after a successful check the local store is up to date. That needs the barrier behind
  the ready flag to be at most one term older than the verified term, as it is once the leadership notification of
  that term has been handled (`LeadershipTheorems.LinearizableReads`). At every greater distance a verified read can
  miss an acknowledged write (`LeadershipTheorems.StaleBeyond`).

## Model

| member | source | states |
|---|---|---|
| `Bytes.ValueOfU16` | fsm/store.go:173-174 | the two length bytes of a node id hold its length modulo 2^16 |
| `Bytes.LittleEndianAt` | fsm/store.go:161-173 | byte i of a written number is its digit i in base 256, counted from the least significant |
| `Bytes.LittleEndianOfValue` | fsm/store.go:469-493 | a number read from bytes, written again, gives those bytes |
| `Crc32.UpdateConcat` | fsm/store.go:203-231 | feeding the digest piece by piece is feeding it the concatenation |
| `Crc32.KnownChecksum` | fsm/store.go:152 | the checksum of a known input has its published value |
| `Crc32.TrailerRoundTrip` | fsm/store.go:241-243 | the four trailer bytes read back as the checksum they were written for |
| `Crc32.TrailerInjective` | fsm/store.go:329-331 | different trailer bytes mean different checksums |
| `Crc32.BurstDetected` | fsm/store.go:326-335 | replacing a window of up to four bytes by other bytes changes the checksum, whatever precedes it and however much follows |
| `SnapshotTheorems.DecodeHeaderBytes` | fsm/store.go:461-511 | a written header reads back with the same index and timestamp, and the node id cut at its length modulo 2^16 |
| `SnapshotTheorems.RoundTrip` | fsm/store.go:141-458 | recovering saved bytes gives the same header and records, if and only if the node id is shorter than 2^16 bytes, no key exceeds 2^30 bytes and every compressed value can be allocated |
| `SnapshotTheorems.IterationRebuilds` | fsm/store.go:190-232 | any iteration order of a map, put back record by record, rebuilds the map |
| `SnapshotTheorems.CutHeader` | fsm/store.go:461-511 | every cut inside the header is rejected |
| `SnapshotTheorems.Truncation` | fsm/store.go:314-416 | every proper prefix of a snapshot is classified: rejected, or accepted with exactly the records wholly before the cut; the accepted cuts are field boundaries, and 4 bytes into a key length whose low half equals the running checksum |
| `SnapshotTheorems.CorruptionDetected` | fsm/store.go:326-405 | overwriting up to four bytes of one key or one compressed value by anything else makes the restore fail with an error |
| `SnapshotTheorems.TrailerCorruptionDetected` | fsm/store.go:326-335 | so does any change to the trailer |
| `SnapshotTheorems.DamageDetected` | fsm/store.go:314-405 | every damage claimed to be detected, cuts, overwritten bytes and trailers, makes the decoder return an error, never a panic |
| `SnapshotAcceptance.BrokenNeverAccepted` | fsm/store.go:314-405 | a reader that reports an error, after any number of any bytes, is never taken for the end of a snapshot |
| `SnapshotAcceptance.HeaderAcceptedExactly` | fsm/store.go:461-511 | for all bytes: a header is accepted if and only if it starts with the bytes 54 46 41 52, has version 0 or 1, and the node id its length announces and the checksum field are there; every field is then read from its place |
| `SnapshotAcceptance.BodyDecided` | fsm/store.go:314-405 | the outcome of the record loop on any bytes and either ending of the reader: whole records that fit and decompress come first, and what follows them decides, to the byte, between success, each error and the panic |
| `SnapshotAcceptance.BodyAcceptedExactly` | fsm/store.go:314-405 | for all bytes, written by a node or not: the record loop accepts them if and only if they are whole records that fit and decompress, followed by nothing, the right checksum, or a record that stops right after its key length, key or value length; it yields exactly those records |
| `SnapshotAcceptance.AcceptedExactly` | fsm/store.go:269-405 | a whole stream is accepted if and only if the reader ends without error and it is such a header followed by such a body |
| `Writer.PutUint` | fsm/store.go:161-173 | writes a little-endian number in place and leaves the rest of the buffer alone |
| `Writer.HeaderBuffer` | fsm/store.go:154-178 | the buffer filled at a moving offset ends up holding the header of the format |
| `Writer.WriteRecord` | fsm/store.go:196-231 | one record takes four sink writes and adds its frame; a refusal or a failing compression leaves a prefix of it |
| `Writer.SaveSnapShot` | fsm/store.go:141-267 | succeeds exactly when the iterator opens and ends well, every value is compressed, and all 2 + 4n writes and the close succeed; then the sink holds the snapshot, the size reported is its length, the count the number of records, the incremental checksum the one-shot one; else the sink holds a prefix and was closed if only the closing failed, cancelled in every other case, and left alone if there was no iterator |
| `Pebble.WriteBatch.Put` | fsm/wb.go:26-28 | a put waits in the batch and shows in what a commit would give |
| `Pebble.WriteBatch.Commit` | fsm/wb.go:34-39 | a commit applies everything pending in order and empties the batch |
| `Pebble.WriteBatch.Destroy` | fsm/wb.go:19-24 | what is pending is lost, the database keeps what was committed |
| `DataDir.PointerRoundTrip` | fsm/utils.go:128-186 | a written pointer file reads back as the path it was written for, unless that is empty |
| `DataDir.ReadPointerExact` | fsm/utils.go:169-185 | a file reads as a path if and only if it is the one written for that path |
| `DataDir.BaseNameOfJoin` | fsm/utils.go:112-117 | the directory name is recovered from the joined path |
| `CrashSafety.SettledCrash` | fsm/utils.go:119-156 | any crash of a settled data directory leaves it settled with the same database |
| `CrashSafety.BeforePublishSafe` | fsm/store.go:293-429 | every state before the rename has the old database published in all crash images, and at the end the new one is durable under its name |
| `CrashSafety.RenameSafe` | fsm/utils.go:119-124 | right after the rename a crash finds the old pointer or the new one, each leading to its complete database |
| `CrashSafety.AfterPublishSafe` | fsm/store.go:435-455 | every state after the synced rename has the new database published in all crash images |
| `CrashSafety.RemovalIsDurable` | fsm/store.go:439-455 | after the last directory sync of a restore no crash brings the old directory or a half-saved name back |
| `CrashSafety.FailedSafe` | fsm/store.go:298-302 | giving up at any step before the rename, and cleaning up, keeps the old database published and removes the new directory |
| `CrashSafety.StartupOpens` | fsm/utils.go:85-100 | startup on a settled directory opens exactly the published database through settled states only, and leaves no other directory and no half-written pointer |
| `CrashRuns.RestartOpens` | fsm/utils.go:65-101 | a restart never fails and opens exactly the content the node should hold |
| `CrashRuns.StepKeepsInv` | fsm/store.go:269-458 | writes, restores, failed restores with or without their cleanup, failed starts, restarts, and crashes and process deaths at any point of each keep the pointer leading to a complete database with the expected content, all but the process dying between the rename and its directory sync |
| `NodeLives.CrashSafeRuns` | fsm/store.go:269-458 | over every run of those events, that death included: until it happens the node is safe in every crash image, and every restart opens the old state if the rename did not take effect and the restored state if it did; after it this stays so as long as no machine crash undoes an unsynced rename |
| `RenameWindow.KilledExactly` | fsm/utils.go:119-126 | the process dies between the rename and its directory sync; after any writes, stops and starts and then a machine crash, a restart finds a usable database if and only if the crash kept the rename or no start has begun to remove the old one, and it holds the snapshot with all later writes, or the state before the restore |
| `RenameWindow.KilledCanLose` | fsm/utils.go:195-219 | from every such death and the start after it there is a machine crash after which no restart finds a usable database, since the start removes the old directory and syncs nothing |
| `RenameWindow.NextRestoreCloses` | fsm/utils.go:138-145 | the directory sync in the next restore's saving of its name makes the node safe again |
| `RenameWindow.FirstRunKilled` | fsm/utils.go:71-83 | a process killed at any of the nine points of its first run: the next start is a first run again, fails because the directory is missing, or opens the empty database, which a machine crash can still lose until the directory's entry is synced |
| `CrashLimits.FirstRunOpens` | fsm/utils.go:71-83 | an uninterrupted first run ends in a safe, empty node |
| `CrashLimits.FirstRunCrash` | fsm/utils.go:71-83 | a crash at any of the nine points of a first run leaves no pointer, a safe empty node, or a pointer to a missing directory; the last exactly when the pointer survived and the directory did not: never before the rename, always between publishing and creating, never once the directory is synced |
| `CrashLimits.FirstRunGap` | fsm/utils.go:78-82 | from every blank data directory there is a crash in that gap, and it leaves a node that never starts again |
| `CrashLimits.DanglingStartup` | fsm/utils.go:85-100 | with a pointer to a missing directory startup fails and repairs nothing |
| `CrashLimits.BrickedForever` | fsm/utils.go:85-100 | and the node never comes up again over any run of restarts and crashes |
| `SyncFailure.SyncFailureLosesNode` | fsm/store.go:430-433 | if the directory sync fails after the rename the node goes on with the old database; after any number of writes and however far the cleanup got, a crash that lost the rename leaves all of them, and one that kept it loses them with the old directory: a restart then opens the snapshot if nothing was removed, and finds no usable database from the tear on |
| `SyncFailure.SyncFailureCanLoseNode` | fsm/store.go:430-433 | whatever was written since, there is a crash after which no restart finds a usable database |
| `SyncFailure.SyncFailureRestart` | fsm/utils.go:195-219 | a plain restart is enough: it removes the old database with all writes since, and finds no usable one unless nothing had been removed |
| `SyncFailure.LaterRestoreSeals` | fsm/utils.go:138-145 | a later restore syncs the broken rename while saving its name, so that until its own rename every crash ends that way |
| `CrashLimits.RestoreHeals` | fsm/store.go:426-455 | and a restore that gets past its directory sync makes any data directory safe, whatever it published before |
| `CrashLimits.BaseMustMatch` | fsm/utils.go:85-100 | startup opens this directory's database if and only if the data directory is spelled as when it was published; otherwise it removes every database directory here and opens the recorded path if that exists elsewhere, else fails |
| `CrashLimits.CopiedDirectory` | fsm/utils.go:89-100 | a directory published as /a and copied to /b: starting on /b deletes the copy and opens the one under /a |
| `Directory.DataDirectory.RemoveAll` | fsm/store.go:299-302 | removal goes through a half-deleted state before the entry disappears, and may stop after any system call |
| `Directory.DataDirectory.SaveCurrentDBDirName` | fsm/utils.go:128-156 | takes the five system calls of the protocol in order; a failing one stops it after the deferred directory sync, and a failing deferred call is a panic before it |
| `Directory.DataDirectory.ReplaceCurrentDBFile` | fsm/utils.go:119-126 | rename, then directory sync, as far as they succeed |
| `Directory.DataDirectory.GetCurrentDBDirName` | fsm/utils.go:158-186 | after the length and digest tests a path is returned if and only if the file is the first eight bytes of its MD5 followed by the path |
| `Directory.DataDirectory.RemoveOthers` | fsm/utils.go:205-216 | the loop passes through the cleanup states of the protocol in the order listed, up to the first removal that fails |
| `Directory.DataDirectory.CleanupNodeDataDir` | fsm/utils.go:195-219 | passes through the start states of the protocol, and reports an unreadable pointer, a failing listing or a failing removal |
| `Directory.DataDirectory.GetPebbleDBDir` | fsm/utils.go:85-100 | startup on a published directory, here or at the recorded path elsewhere: its result and its system calls |
| `Directory.DataDirectory.NewPebbleDBDir` | fsm/utils.go:71-83 | a first run publishes the name through the first seven states of the protocol; a failure before the rename leaves no pointer |
| `Storage.ReadRecord` | fsm/store.go:315-405 | one turn of the record loop with its four digest writes steps the format's decoder, error by error |
| `Storage.VerdictExactly` | fsm/store.go:269-458 | a restore reports success, with the header read, if and only if the snapshot is accepted and no system call fails; it switches if and only if the snapshot is accepted and nothing fails up to the rename and its sync; which error is reported otherwise |
| `Storage.NewStore` | fsm/store.go:55-81 | with or without a pointer file: a first run makes an empty safe store, a start on a safely published directory a store with exactly its database, and an error on the way never a store |
| `Storage.RestoreHistoryIs` | fsm/store.go:293-455 | the system calls of a whole restore are the states before, at and after publishing that are proved crash-safe |
| `Storage.BrokenEnds` | fsm/store.go:430-433 | the system calls of a restore whose directory sync fails end in the state whose crashes are analysed, however far the removal gets |
| `Storage.Store.constructor` | fsm/store.go:75-80 | a store on a directory that is safely published is valid and holds its database |
| `Storage.Store.Write` | fsm/apply.go:68-73 | a synced write updates one key of the live database and keeps the node safe |
| `Storage.Store.GetBytes` | fsm/store.go:91-116 | reads a key of the live database, empty when missing, an error when closed |
| `Storage.Store.LoadRecords` | fsm/store.go:304-423 | the loop that commits every hundred records and once more at the end leaves exactly the decoded records, none lost in the destroyed batch, in one commit for every hundred records and one for the rest, and fails exactly when the format does |
| `Storage.Store.CommitBatch` | fsm/store.go:411-421 | a commit moves the pending records into the new directory |
| `Storage.Store.BuildNew` | fsm/store.go:293-424 | opening, loading and flushing takes the building steps of the protocol |
| `Storage.Store.RecoverSnapShot` | fsm/store.go:269-458 | all or nothing up to the rename: unless that goes through, live database, pointer and old directory are untouched and every state on the way keeps the old database published in all crash images, and on an error the new directory is gone if its removal went through; if it switches, also when the old directory cannot be removed, the live database is exactly the decoded records; if the directory sync fails the pointer has changed but the live handle and the old database are kept whole; a reader that reports an error never makes it switch; every system call on every path is accounted for; the outcome is determined by the bytes and the failing call |
| `Storage.Store.RefuseDamaged` | fsm/store.go:326-405 | a snapshot cut short where that is not accepted, with up to four bytes of a key or compressed value overwritten, or with another trailer is refused with an error whatever else fails; the live database, the pointer and the directories stay as they were, also for a crash on the way |
| `Storage.Store.Rebuild` | fsm/store.go:293-458 | the same from the opening of the new database on |
| `Storage.Store.SaveName` | fsm/store.go:426-429 | saving the new name, or giving up with the old database published throughout |
| `Storage.Store.Publish` | fsm/store.go:426-455 | saving, renaming, syncing and switching, with any of them failing, system call by system call, and the database that is live afterwards |
| `Storage.Store.Replace` | fsm/store.go:430-455 | the rename and what follows, or the cleanup after a failing directory sync, which keeps the old database live and whole |
| `Storage.Store.SwitchOver` | fsm/store.go:435-455 | after the rename the new database is served, also when removing the old directory fails |
| `Storage.Store.GiveUp` | fsm/store.go:298-302 | cleanup after a failure before the rename, as far as it gets, keeps the live database published in every state and removes the new directory if it goes through |
| `CommandLog.ApplyLogIsLastWrite` | fsm/apply.go:33-74 | after a log every key has the value of the last decodable insert to it, or its old value: queries and undecodable commands change nothing |
| `CommandLog.LookUpAnswers` | fsm/apply.go:33-88 | after a log from empty, a query for a key answers the value of the last entry that decodes to an insert of that key, and empty if there is none |
| `CommandLog.QueryEntryAnswers` | fsm/apply.go:33-58 | so does the reply to a query command in the log |
| `CommandLog.RepliesTell` | fsm/apply.go:33-74 | an entry that inserts something is answered without error and a query right after it reads that; an entry answered with an error and every query change nothing; which error is given when |
| `CommandLog.AnswersUnique` | fsm/apply.go:33-88 | that answer is unique |
| `CommandLog.StoredKey` | fsm/apply.go:60-88 | a client's key is stored whole, behind the one byte of the default column family, so different keys never meet |
| `CommandLog.ApplyLogConcat` | fsm/fsm.go:109-117 | applying a log in two parts is applying it at once |
| `CommandLog.ReplayConverges` | fsm/fsm.go:109-117 | a database that survived with the first m entries, on which the log is replayed from any point up to m, ends as if the log had been applied once |
| `CommandLog.CompactionPreservesMeaning` | fsm/apply.go:33-74 | decoding the snapshot bytes of the state after any i entries and applying the rest gives the map of the whole log |
| `Compaction.ApplyAll` | fsm/fsm.go:109-117 | applying entries one by one to the object is applying the log to its contents, and leaves the index of the last |
| `Compaction.ApplyThenQuery` | fsm/apply.go:33-88 | a fresh state machine that has applied a log answers a query with the last insert of that key in the log, or empty |
| `Compaction.CompactAndCatchUp` | fsm/fsm.go:109-232 | one node applies i entries, takes a snapshot, applies more and then persists in any iteration order; another node with any contents restores the bytes and applies the rest: it ends with the map of the whole log, and fsmIndex agrees if and only if the snapshot's index is positive, entries follow, or the node had index 0; persisting and restoring succeed exactly as their faults allow |
| `Fsm.IterationCounts` | fsm/store.go:186-194 | an iteration visits as many records as there are keys |
| `Fsm.StateMachine.constructor` | fsm/fsm.go:43-56 | a new state machine is valid, at index 0, with one open abandon channel |
| `Fsm.StateMachine.UpdateFsmIndex` | fsm/fsm.go:89-93 | the index only grows, and covers the one given |
| `Fsm.StateMachine.Query` | fsm/apply.go:76-88 | reads the key in the default column family, refused when closed |
| `Fsm.StateMachine.ApplyCommand` | fsm/apply.go:33-74 | dispatch agrees with the meaning of one entry and its reply |
| `Fsm.StateMachine.Apply` | fsm/fsm.go:109-117 | one entry changes contents, index and reply as the specification says; a closed store changes nothing |
| `Fsm.StateMachine.Snapshot` | fsm/fsm.go:131-142 | captures the contents and the index of this moment |
| `Fsm.StateMachine.Persist` | fsm/fsm.go:216-232 | writes the snapshot of what was captured, whatever was applied since; size and record metrics are those of the bytes and the keys; a failure changes no metric, and the sink is closed if only the closing failed, else cancelled |
| `Fsm.StateMachine.Abandon` | fsm/fsm.go:190-197 | a new open channel, the old one closed exactly once |
| `Fsm.StateMachine.Restore` | fsm/fsm.go:147-179 | on success exactly the snapshot's database, the header's index unless 0, one more restore counted and one more channel closed; on an error index, metrics and channels are untouched; the contents are the snapshot's whenever the switch happened, also behind an error, and the old ones otherwise, also when the directory sync fails after the rename or the reader reports an error |
| `Fsm.StateMachine.Close` | fsm/fsm.go:199-205 | closing sets the flag and keeps the contents |
| `Abandon.AbandonGenerations` | fsm/fsm.go:147-197 | in every interleaving the current channel is open, none is closed twice, and between restores all earlier ones are closed exactly once, as many as RestoreCount |
| `Abandon.WokenExactly` | service/blocking_query.go:95-116 | over any run in which a blocked watcher does not move, its abandon case becomes enabled if and only if a channel was replaced after it blocked |
| `Abandon.MissedRestore` | service/blocking_query.go:105-116 | a watcher that enters its select after the replacement is not woken by that restore |
| `Abandon.WokenOnce` | service/blocking_query.go:105-116 | a watcher that was woken can block again and is not woken twice by one restore |
| `LeadershipTheorems.LinearizableReads` | engine/kv.go:67-97 | in every interleaving, a consistent read returns a state with every write acknowledged before it began, by any leader, and reports an index of at least theirs, if the barrier behind the flag it saw was at most one term older than the verified term; so it is whenever the gain notification of that term was handled |
| `LeadershipTheorems.ReportedIndexBound` | engine/kv.go:89-96 | the index reported is at least that of the state the value came from |
| `LeadershipTheorems.StaleReadAlwaysPossible` | engine/linearizable.go:36-73 | from every reachable state of a ready leader with room for two notifications, a quick loss and regain leads to a verified read that misses an acknowledged write |
| `LeadershipTheorems.StaleBeyond` | engine/linearizable.go:36-73 | the bound is exact: for every distance of two or more terms there is a run from the start with such a read |
| `LeadershipTheorems.ReadyRun` | engine/raft.go:192-236 | such states are reachable |
| `LeadershipTheorems.ToldRun` | engine/kv.go:67-97 | a run in which a told read answers after an acknowledged write and contains it |
| `LeadershipTheorems.OneLoop` | engine/raft.go:192-236 | at most one leader loop is live |
| `LeadershipTheorems.ReadyExactlyWhileEstablished` | engine/raft.go:259-311 | the flag is 1 if and only if a live loop has established and not revoked, and then its barrier holds in a term this node led |
| `LeadershipTheorems.QuietUntilNextGain` | engine/raft.go:214-234 | once a loss or shutdown is handled no loop is live and the flag is 0 until a later gain has started a new loop |
| `LeadershipTheorems.ShutdownIsFinal` | engine/raft.go:228-234 | after the monitor returned the flag stays 0 |
| `LeadershipTheorems.FlagIsFresh` | engine/raft.go:198-213 | if the gain of term t was handled and the flag is 1, the barrier behind it succeeded in a term of at least t |
| `LeadershipTheorems.NoWarnings` | engine/raft.go:202-218 | the two warning branches of the monitor are unreachable |
| `LeadershipTheorems.StoppedLoopEnds` | engine/raft.go:309-329 | a stopped loop can always step and every step brings it closer to its end, so the monitor's wait returns |
| `LeadershipLiveness.ReachableSane` | engine/raft.go:259-311 | in every reachable state a context is cancelled, a transfer tried or a revocation due only for a stopped loop, and a barrier was never issued in a term later than the last one led: what the results below ask of a state |
| `LeadershipLiveness.OnlyLostBarrierEnds` | engine/raft.go:259-329 | in every run, a loop that ended without being stopped left because its barrier reported lost leadership; a successful transfer is no further way out, since a transfer is tried only once the loop was stopped |
| `LeadershipLiveness.LeavesExactly` | engine/raft.go:268-329 | a running loop begins to leave at one of five returns and nowhere else, and has its revocation still to run if and only if it had established leadership |
| `LeadershipLiveness.CancelledNeverEstablishes` | engine/raft.go:288-361 | a loop whose context is cancelled before it looks at it never establishes leadership, whatever happens |
| `LeadershipLiveness.CancelledGoesBack` | engine/raft.go:288-303 | a loop cancelled between its barrier and the check is rejected and revokes; a successful transfer makes it return, a failed one poll |
| `LeadershipLiveness.BecomesReady` | engine/raft.go:259-329 | from every reachable state in which the node leads and its loop is not stopped and not leaving, the flag can still be set by that loop's own steps, commits and applies alone; so a failed barrier is retried |
| `LeadershipLiveness.QueueDrains` | engine/raft.go:192-236 | the monitor can always work off its notifications, whatever loops it has to wait for |
| `LeadershipLiveness.ShutdownCompletes` | engine/raft.go:228-234 | once shut down the monitor can always return, by its own steps and those of its loop |
| `LeadershipLiveness.ReadyAgain` | engine/raft.go:192-329 | from every reachable state of a node that is not shutting down there is a run to one in which it leads, its monitor knows, and it is ready |
| `Watch.BlockingQuery` | service/blocking_query.go:59-134 | for every environment: the initial answer if it suffices, else the first answer to reach the minimum, the latest one on a timeout, an empty abandoned response, or the query's error; what is not abandoned carries the value and index of the last answer seen |
| `Watch.SettleReturns` | service/blocking_query.go:74-133 | the same of the polling function the method computes |
| `Watch.SettleTells` | service/blocking_query.go:74-133 | a response that is not abandoned has the value and the index of the last tick that answered, or of the initial answer if there was none |
| `Watch.Watch` | service/service.go:284-334 | each turn of the stream answers a query waiting for the minimum its predecessor left and carries the last answer of that turn, and it stops only on cancellation, a failed query or a failed send |
| `Watch.WatchKey` | service/blocking_query.go:158-191 | the same with the minimum starting from and reset to 1 |
| `Watch.WatchOrdering` | service/service.go:302-333 | for every environment and consecutive responses: a change has a strictly higher index, a timeout never does and repeats the index if that held steady, after an abandoned response Watch answers without blocking, WatchKey unless the index is still 0 |
| `Watch.WrapRepeats` | service/service.go:331 | at the last uint64 index the strict order is lost |
| `Service.AddRoutesExactly` | service/service.go:60-158 | an Add on a node that does not lead returns the leader's reply if and only if the leader is known, resolved, reached and replies, and fails otherwise; it makes one call, to the resolved address, if the leader is reached, and none otherwise |
| `Service.AddStaysExactly` | service/service.go:60-78 | an Add on the leader calls nobody and is proposed here |
| `Service.GetRoutesExactly` | service/service.go:80-158 | a linearizable Get on a node that does not lead returns the reply of the leader at the resolved address if and only if it is known, resolved, reached and replies; in every other case it is kept and verified here |
| `Service.GetStaysExactly` | service/service.go:80-101 | a linearizable Get on the leader is kept and verified here |
| `Service.RefusesExactly` | engine/kv.go:67-97 | a Get is refused if and only if its verification fails, the flag does not come up in time or the store reports an error |
| `Service.RefusedNeverServed` | engine/kv.go:67-97 | and then it is never served, whatever happens later |
| `Service.ServedAtTheMoment` | engine/kv.go:89-96 | every Get reads the state applied at the moment of its read and reports raft's applied index at the moment it answers |
| `Service.ForwardedRun` | service/service.go:60-158 | a run from the start in which an Add and a Get are forwarded and return what the leader replied |
| `Service.LinearizableGet` | service/service.go:80-101 | in every interleaving with the node's leadership protocol and whatever becomes of the forwarding, a linearizable Get returns the leader's reply, or a value read after a verification and a look at the ready flag both made after it arrived; under the condition on the barrier, the value has every write acknowledged before the Get arrived and the index covers them |
| `Service.GetIndexBound` | engine/kv.go:67-97 | every Get served here reports an index that covers the state its value came from, and one that is not linearizable verifies nothing |
| `Service.StaleGetMisses` | service/service.go:80-101 | a Get that is not linearizable can miss any acknowledged write not yet applied here |
| `Service.BehindRun` | service/service.go:80-101 | such writes exist on a node that is behind |
| `Service.AddOnce` | service/service.go:60-78 | in every interleaving an Add calls the leader once or has one entry committed here, never both, also when the call or the future failed and the write may yet go through; the index it returns for an entry of its own is that entry's, acknowledged |
| `Service.FailedAddGoesThrough` | engine/kv.go:27-65 | a run in which an Add fails after proposing and its entry is committed all the same |
| `Service.ReadYourWrites` | engine/kv.go:52-97 | once an Add has returned its commit index, a linearizable Get that arrives later and is served here under the condition on the barrier reads a state with that write and reports at least that index |
| `Service.WriteThenRead` | engine/kv.go:27-97 | a run in which an Add returns index 2 and a linearizable Get after it is served at index 2 |

## Left out

- Raft itself (elections, replication, the log store): only what its futures and its notification channel promise.
- Pebble itself, gzip, JSON and MD5: maps, functions and a lossless pair; errors of single Pebble operations, which the restore ignores, are not modelled.
- OpenPebbleDB: a new database directory appears in one step and is complete once flushed or synced; a first run ends with its entry synced, and opening an existing directory syncs nothing.
- Storage.Store.RecoverSnapShot: after a directory sync that fails behind the rename the store is not valid in the sense of the later operations, because its pointer file names the new directory; the live database is described there; writes, restarts and a further restore after it are in SyncFailure and CrashLimits.RestoreHeals. An os.RemoveAll that fails inside cleanupNewDB (fsm/store.go:301) leaves the new directory whole or half deleted; names are fresh, so no later restore meets it.
- Directory.DataDirectory.GetPebbleDBDir: an os.Stat error other than not-existing, after which the code still returns the path, is not modelled.
- Fsm.StateMachine.Close: the flush and the close of the database are not modelled; every write was synced before.
- Writer.SaveSnapShot: sizes are unbounded integers, so an int64 overflow of the reported size is not modelled.
- Corruption of length fields, of the header, and bytes appended after the trailer: the checksum does not cover or does not delimit them, so no detection is claimed beyond what SnapshotAcceptance.AcceptedExactly says of all byte streams.
- The record count recoverSnapShot logs: off by one without a trailer, and only logged.
- filepath.Join is plain concatenation with a slash: cleaning of the data directory's spelling is not modelled. Whether a recorded path outside the directory exists is the environment's answer.
- Several restores or Persist calls at the same time, and a Pebble snapshot read after the database under it was swapped and closed.
- Watch: the value and the index of one answer are taken together; that the index may be ahead of the value is LeadershipTheorems.ReportedIndexBound.
- Service: one Add and one Get at a time; the leader that a request is forwarded to may answer anything; its own Get is the same protocol on another node.
- The memory model of the unsynchronised abandonCh field.
- engine/kv.go Apply: the command is built and handed to Raft; dbAppliedIndex is only reported.
- Member discovery, address resolver, connection cache, start-up wiring, command line, generated protocol code, statistics, logging and durations: plumbing and reporting around the five cores.
