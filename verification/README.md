# Verification of the sync engine

Dafny models of the hard parts of the PowerSync service, and proofs of what they promise. Verify
everything with `dafny verify dfyconfig.toml`.

## The models

**Replication from MongoDB.** `SourceLog` is the source as an ordered log. `Protocol` is replication as
a state machine: a change stream replays the log while a snapshotter copies collections in chunks that are
not atomic, both into one store; commits are gated by barrier documents; a crash loses the memory of the
process, and a restart resumes from the stored position. `Throttling` shows, for every run, that no change
is left without a commit. `ProtocolInvariant`, `ProtocolSteps`, `ProtocolEvents` and `ProtocolScan` hold the
replication invariant: every key that is stored, or that can no longer be copied, is as the source had it at
some position the stream has reached or has yet to reach; and a key of a table still being copied that is not
stored has not changed since the table was registered. `Replication` has the theorems about whole runs, and
`DroppedCopy` what becomes of a collection dropped while it is copied. A table is registered under a number that is
new each time, and rows are stored under it; `RowNumbers` reads the store that way over all runs.
`ReplicationLimits` has runs that end wrongly.
`StreamLoop` is the event loop as an object updated in place, proved to take exactly the protocol's steps,
and `SnapshotQuery` the chunked query.

**BSON to JSON.** `Bson` has the values and their bytes, `JsonText` strings and their reading, `JsonWriter`
the growable buffer, `SimpleForm` the reference (filter a decoded value, then print it), and `BsonToJson` the
one-pass serializer, proved to write what the reference prints. `RecordOrder`, `RecordText` and `RecordForm` are
the JavaScript records that the simple form goes through, with the exact condition under which its text is the
direct one; `JsonColumns` has both forms of a column.

**Buckets.** `Buckets` reduces, `Compaction` relates a compacted bucket to its history, `BucketCompactor` is
the compactor itself.

**Sync-config lifecycle.** `Lifecycle`, `Activation`, `SyncConfigStorage` and `StoppedStreams` (which stopped
streams cleanup misses).

**Smaller machines and codecs.** `ScalarLines`, `ScalarMap`, `ScalarQuoted` (YAML source maps);
`PostgresText`, `StructureParser` (arrays and composite values); `Lsn`, `SentinelCounter` (positions);
`Leases` (locks); `Migrations`; `Clearing`; `ResumableStream`; `Convex`.

## Where the code falls short of its promises

Each of these has a concrete input or run, and the exact condition under which the promise holds, as the lemmas
named with it.

- A batch cut short by an abort still stores the position after the batch
  (`ReplicationLimits.AbortedBatchLosesChange`, `Replication.BatchIsResumableIffClean`).
- A batch may end inside a transaction. The stored position then has the time of the events still to come,
  and a restart drops them. The code's own remark says the start time is only a legacy form, but it is always
  returned (`ReplicationLimits.SplitTransactionLosesChange`, `SourceLog.ResumeDeliversAllIffBoundary`).
- The keepalive of an idle stream stores a position without asking whether a change has come only in part, or a
  transaction (`ReplicationLimits.KeepaliveInsideChangeLosesIt`, `Replication.KeepaliveIsResumableIffClean`).
- A copy goes on when its collection is dropped, and writes under the old number of the collection, which nothing
  removes: not a later drop, nor a change of the same row once the collection exists again
  (`ReplicationLimits.DropDuringCopyLeavesRows`, `DroppedCopy.DropIsSafeIff`, `RowNumbers.StraysStay`).
- A query limit used up right at the null id is followed by a query from the start, and so is a copy whose last id
  is null; such a copy never ends (`SnapshotQuery.NullRepeats`, `SnapshotQuery.CopyAll`).
- The simple form's text of a document is not the direct one when names are integers out of order, come twice,
  or are that of the prototype (`RecordForm.RecordsReorder`, `RecordForm.ColumnAgreesIff`).
- Composite values with a field that begins with a double quote are not parsed
  (`StructureParser.Parser.ParseComposite`).
- Positions with a half of 2^31 or more, such as times from 2038 on, sort before all others
  (`Lsn.LateTimestampsSortFirst`, `Lsn.SortsRightIffInRange`).
- A counter document deleted and created again within one second hands out a coordinate twice
  (`SentinelCounter.SameSecondRepeats`, `SentinelCounter.CreateIsSafeIff`).
- A MongoDB lease refreshed twice within one millisecond is reported lost while it is held
  (`Leases.MongoLock.RefreshHandle`).
- A migration log is misread when its last entry went one way and the latest-timed entry of the same name another,
  as with two entries of one time (`Migrations.SameInstantIsMisread`, `Migrations.LastDirection`, `Migrations.Agent.Run`).
- A migration count of zero is no limit (`Migrations.Agent.Run`).
- A stopped stream of the newer version is never found for cleanup when a first-version stream took over from it,
  or when its last stopped config is pruned first (`StoppedStreams.ReplacedStreamIsLost`,
  `StoppedStreams.PrunedStreamIsLost`, `StoppedStreams.NextLoses`, `StoppedStreams.AllFoundIff`).
- Clearing would be wrong for a bucket with a CLEAR that is not first; the compactor keeps buckets out of
  that state (`BucketCompactor.ClearInTheMiddleIsUnsafe`, `BucketCompactor.ClearIsSafeIff`).
- A Convex page that is shorter than one stored from the same cursor before a crash may publish a state that
  never was (`Convex.ShorterPageIsInexact`, `Convex.CommitIsExactIff`).

A run of `Protocol` is clean when positions are stored only after whole batches, and not inside a transaction or
a change, and a collection is dropped under a copy only once the copy has read and written everything; the
exactness theorems are about clean runs, the theorems on throttling, on the numbers of rows and on the order of
checkpoints about all.

## Model

| member | source | states |
|---|---|---|
| SourceLog.ResumeDeliversAllIffBoundary | modules/module-mongodb/src/replication/ChangeStream.ts:646-647 | resuming at a position delivers every later event if and only if the position does not split a transaction, because events not newer than the resume time are dropped |
| Throttling.StepKeepsThrottled | modules/module-mongodb/src/replication/ChangeStream.ts:661-664 | every step of every run, whatever crashed or was aborted, keeps: while the stream waits for a barrier, that barrier is ahead in the log; when it waits for none, nothing it passed, before or after any restart, is without a commit |
| Throttling.HandleCheckpointKeepsThrottled | modules/module-mongodb/src/replication/ChangeStream.ts:815-855 | the same across the five ways a checkpoint event is handled: foreign, skipped, deferred behind a new barrier, committed at once, and resolving the barrier |
| Throttling.QueueChangeKeepsThrottled | modules/module-mongodb/src/replication/ChangeStream.ts:862-865 | the same across a row change, which creates a barrier when none is awaited |
| Throttling.AwaitBarrierKeepsThrottled | modules/module-mongodb/src/replication/ChangeStream.ts:613-617 | the same across the writing of a barrier, at the end of the log |
| ProtocolSteps.StartKeepsInv | modules/module-mongodb/src/replication/ChangeStream.ts:638-658 | a restart from the persisted position, with a fresh discovery of tables when a snapshot is outstanding, keeps the replication invariant |
| ProtocolSteps.HaltKeepsInv | modules/module-mongodb/src/replication/ChangeStream.ts:709-719 | losing all memory at any moment keeps it |
| ProtocolSteps.FlushSomeKeepsInv | modules/module-mongodb-storage/src/storage/implementation/MongoBucketBatch.ts:385-402 | queued writes becoming durable early, in any number, keeps it: what is stored too soon is justified by the log still to be replayed |
| ProtocolSteps.BatchEndKeepsInv | modules/module-mongodb/src/replication/ChangeStream.ts:932-949 | storing the position after a batch keeps it when the whole batch is processed and flushed and no transaction is split |
| ProtocolSteps.CheckpointIsExact | modules/module-mongodb-storage/src/storage/implementation/CheckpointState.ts:31-40 | whenever a commit is not blocked, the visible rows are the source's rows at that position, and dropping the tombstones afterwards is safe |
| ProtocolSteps.CommitKeepsInv | modules/module-mongodb-storage/src/storage/implementation/v3/MongoBucketBatchV3.ts:258-433 | a commit, blocked or not, keeps the invariant |
| ProtocolEvents.QueueChangeKeepsInv | modules/module-mongodb/src/replication/ChangeStream.ts:856-897 | a change of a known or of a new collection keeps it: a new collection is registered before the change is queued |
| ProtocolEvents.HandleDropKeepsInv | modules/module-mongodb/src/replication/ChangeStream.ts:899-909 | dropping a collection keeps it, also while older log entries are replayed again, and also under a copy of that collection that has read and written everything it ever will |
| ProtocolEvents.HandleCheckpointKeepsInv | modules/module-mongodb/src/replication/ChangeStream.ts:775-855 | a checkpoint event keeps it, because commits happen only past where this instance started |
| ProtocolEvents.HandleEventKeepsInv | modules/module-mongodb/src/replication/ChangeStream.ts:714-931 | one event keeps it, a drop under a copy on the condition above: nothing is skipped as old |
| ProtocolScan.AbsentIsJustified | modules/module-mongodb/src/replication/MongoSnapshotQuery.ts:10-15 | a row a chunk did not return is accounted for, by the read or by the log, even when the stream has passed the read |
| ProtocolScan.CopyIsJustified | modules/module-mongodb-storage/src/storage/implementation/MongoBucketBatch.ts:390-402 | a copied row that is inserted under the number its table has now is accounted for: by the read, or by the stream's position when the stream is past that read |
| ProtocolScan.ScanReadKeepsInv | modules/module-mongodb/src/replication/MongoSnapshotter.ts:481-499 | reading the next document at any position since registration keeps the invariant |
| ProtocolScan.ScanFlushKeepsInv | modules/module-mongodb/src/replication/MongoSnapshotter.ts:498-512 | writing any part of a chunk, skipping keys that have a record or tombstone, keeps it; a copy whose table is gone has nothing to write |
| ProtocolScan.SaveProgressKeepsInv | modules/module-mongodb/src/replication/MongoSnapshotter.ts:511-520 | saving a last key up to which everything is flushed keeps it, also for a crash right after |
| ProtocolScan.FinishTableKeepsInv | modules/module-mongodb/src/replication/MongoSnapshotter.ts:404-410 | finishing a table behind a marker keeps it |
| ProtocolScan.FinishTableIs | modules/module-mongodb/src/replication/MongoSnapshotter.ts:408-410 | the snapshot writer's own commit never publishes anything |
| ProtocolScan.MarkSnapshotDoneKeepsInv | modules/module-mongodb/src/replication/MongoSnapshotter.ts:362-382 | opening the gate behind a marker later than every chunk read keeps it |
| Replication.EveryCheckpointIsExact | modules/module-mongodb/src/replication/MongoSnapshotter.ts:384-413 | in every clean run, whatever the interleaving and the crashes, every checkpoint given to clients shows exactly the source's rows at one log position, carries that position's time, and has no row under a number that no table is registered under |
| Replication.CaughtUpStoreIsExact | modules/module-mongodb/src/replication/ChangeStream.ts:379-432 | the stored rows equal the source at the stream's position, with no row under an old number, at any position past the last snapshot marker and past where the stream started |
| Replication.RunsConverge | modules/module-mongodb/src/replication/ChangeStream.ts:932-949 | two runs over equal sources, with any crashes, end with the same rows |
| Replication.UncoveredMeansBarrierAhead | modules/module-mongodb/src/replication/ChangeStream.ts:815-865 | in every run, a change or standalone checkpoint that was passed, by this instance or an earlier one, and is not followed by a commit has an own barrier ahead of the stream |
| Replication.AllObservedIsAllCovered | modules/module-mongodb/src/replication/ChangeStream.ts:661-664 | in every run, once the stream has read the log to its end, everything after the last commit, crashes in between or not, is free of changes and standalone checkpoints |
| Replication.CheckpointsNeverGoBack | modules/module-mongodb-storage/src/storage/implementation/CheckpointState.ts:31-40 | in every run checkpoints are kept, and the next is never earlier |
| Replication.BatchIsResumableIffClean | modules/module-mongodb/src/replication/ChangeStream.ts:932-940 | a stored position loses or repeats nothing if and only if the batch was read to its end and the end does not split a transaction |
| Replication.KeepaliveIsResumableIffClean | modules/module-mongodb/src/replication/ChangeStream.ts:678-705 | the keepalive of an idle stream stores the position of the stream as it is, and loses nothing if and only if that is not between the fragments of a change or inside a transaction |
| DroppedCopy.DropIsSafeIff | modules/module-mongodb/src/replication/ChangeStream.ts:899-909 | after any run, when a drop is handled: every way on keeps every checkpoint exact if and only if the collection is not being copied or its copy has read and written everything |
| DroppedCopy.UnfinishedDropGoesWrong | modules/module-mongodb/src/replication/MongoSnapshotter.ts:481-528 | every state, not one only, in which the collection of an unfinished copy is dropped goes on by clean steps to a checkpoint that shows a row the source does not have: the copy goes on reading and writing under its old number |
| RowNumbers.RunIsAddressed | modules/module-mongodb-storage/src/storage/implementation/common/PersistedBatch.ts:120-128 | in every run, clean or not, every stored row is under a number: that of its table as registered now, or one that no table has and none will have again |
| RowNumbers.DropRemovesOneNumber | modules/module-mongodb-storage/src/storage/implementation/MongoBucketBatch.ts:806-871 | a drop removes exactly what is stored under the number the table has, once all that is queued is stored |
| RowNumbers.NewNumberIsEmpty | modules/module-mongodb-storage/src/storage/implementation/v3/MongoBucketBatchV3.ts:219-228 | registering a table changes nothing that is stored, and its new number begins with nothing |
| RowNumbers.CopyWritesUnderItsNumber | modules/module-mongodb/src/replication/MongoSnapshotter.ts:497-512 | a copy adds the documents that are missing under the number it began with, whatever has become of its table, and nothing else |
| RowNumbers.StraysStay | modules/module-mongodb-storage/src/storage/implementation/MongoBucketBatch.ts:809-820 | a row under a number that is nobody's stays as it is in every run |
| ReplicationLimits.AbortedBatchLosesChange | modules/module-mongodb/src/replication/ChangeStream.ts:717-719 | a run in which an abort inside a batch loses a change: the batch's end is stored all the same |
| ReplicationLimits.SplitTransactionLosesChange | modules/module-mongodb/src/replication/ChangeStream.ts:721-723 | a run in which a batch that ends inside a transaction loses the rest of the transaction after a restart |
| ReplicationLimits.KeepaliveInsideChangeLosesIt | modules/module-mongodb/src/replication/ChangeStream.ts:678-705 | a run in which a keepalive between the fragments of a change loses the change after a restart |
| ReplicationLimits.DropDuringCopyLeavesRows | modules/module-mongodb-storage/src/storage/implementation/MongoBucketBatch.ts:809-839 | a run in which a collection dropped while it is copied leaves a row that is then published |
| StreamLoop.ChangeStream.WriteChange | modules/module-mongodb/src/replication/ChangeStream.ts:862-897 | the loop's state after a row change is that of the protocol's step |
| StreamLoop.ChangeStream.ObserveCheckpoint | modules/module-mongodb/src/replication/ChangeStream.ts:815-855 | the same for a checkpoint event, branch by branch |
| StreamLoop.ChangeStream.HandleStreamEvent | modules/module-mongodb/src/replication/ChangeStream.ts:714-750 | the same for one stream event, held fragments included |
| StreamLoop.ChangeStream.ProcessBatch | modules/module-mongodb/src/replication/ChangeStream.ts:714-949 | the loop over a batch, aborted anywhere, takes exactly the protocol's read steps and then its batch end |
| StreamLoop.BatchIsRun | modules/module-mongodb/src/replication/ChangeStream.ts:932-949 | what the loop does over a batch is a run of the protocol, so the theorems about runs hold of it |
| SnapshotQuery.ChunkedSnapshotQuery.NextChunk | modules/module-mongodb/src/replication/MongoSnapshotQuery.ts:34-72 | a chunk is the next documents after the open cursor or the last id, none left out; nothing is returned only when nothing is left |
| SnapshotQuery.CopyAll | modules/module-mongodb/src/replication/MongoSnapshotter.ts:481-528 | copying a stable collection ends and gives every document once, in order, unless null is its last id or the batch size divides the number of ids up to null |
| SnapshotQuery.NullRepeats | modules/module-mongodb/src/replication/MongoSnapshotQuery.ts:48-49 | in exactly those collections it never ends: however many chunks are read, none is empty |
| JsonText.QuotedReadsBack | modules/module-mongodb/src/replication/JsonBufferWriter.ts:173-280 | a written string, read as RFC 8259 section 7 says, is the bytes it was written from, and ends where it was ended |
| JsonWriter.JsonBufferWriter.EnsureCapacity | modules/module-mongodb/src/replication/JsonBufferWriter.ts:316-330 | what is written stays, the capacity doubles until the extra bytes fit, and the rest is zero |
| JsonWriter.JsonBufferWriter.Truncate | modules/module-mongodb/src/replication/JsonBufferWriter.ts:69-73 | the text is cut to the given length and the bytes behind it are zero again |
| JsonWriter.JsonBufferWriter.WriteQuotedUtf8Slice | modules/module-mongodb/src/replication/JsonBufferWriter.ts:173-280 | appends exactly a quote, the escape of each byte, and a quote, within capacity in every prior state |
| JsonWriter.JsonBufferWriter.WriteQuotedJsonString | modules/module-mongodb/src/replication/JsonBufferWriter.ts:112-164 | the same for text given whole |
| JsonWriter.JsonBufferWriter.WriteQuotedHexLower | modules/module-mongodb/src/replication/JsonBufferWriter.ts:285-294 | appends the quoted lower-case hexadecimal of a slice |
| JsonWriter.JsonBufferWriter.WriteQuotedUuid | modules/module-mongodb/src/replication/JsonBufferWriter.ts:299-314 | appends the five groups of a UUID, each in hexadecimal |
| JsonWriter.JsonBufferWriter.WriteDateTime | modules/module-mongodb/src/replication/JsonBufferWriter.ts:332-390 | appends the date and time digit by digit |
| JsonWriter.DateTimeReadsBack | modules/module-mongodb/src/replication/JsonBufferWriter.ts:332-390 | every field reads back from its place in that text |
| Bson.SkipFindsEnd | modules/module-mongodb/src/replication/bufferToSqlite.ts:372-438 | skipping any well-formed value lands exactly on its end |
| Bson.FindId | modules/module-mongodb/src/replication/bufferToSqlite.ts:905-930 | finds the first element named _id wherever it is |
| Bson.ParseDocumentId | modules/module-mongodb/src/replication/bufferToSqlite.ts:905-944 | the id document is the one-element document of the first _id, its element bytes those of the original; there is none exactly when no element has that name |
| Bson.IdDocumentIsWellFormed | modules/module-mongodb/src/replication/bufferToSqlite.ts:926-941 | that document is well-formed, and no longer than the original |
| SimpleForm.StrictIsLenient | modules/module-mongodb/src/replication/MongoRelation.ts:105-168 | what the simple form accepts with its depth check on every value, the check on documents alone accepts with the same result |
| BsonToJson.SerializeObject | modules/module-mongodb/src/replication/bufferToSqlite.ts:440-495 | writes the print of the filtered document, commas right after members that vanish, and returns its end; it fails exactly as the filter does; on any bytes at all it ends |
| BsonToJson.SerializeArray | modules/module-mongodb/src/replication/bufferToSqlite.ts:497-542 | the same for arrays, where undefined values are null |
| BsonToJson.SerializeMember | modules/module-mongodb/src/replication/bufferToSqlite.ts:460-491 | a member whose value is undefined leaves the text as it was before its name |
| BsonToJson.SerializeValue | modules/module-mongodb/src/replication/bufferToSqlite.ts:544-611 | the same for a value of any type |
| BsonToJson.SerializeBinary | modules/module-mongodb/src/replication/bufferToSqlite.ts:825-850 | binary data is dropped unless it is a UUID |
| BsonToJson.SerializePointer | modules/module-mongodb/src/replication/bufferToSqlite.ts:808-823 | a pointer prints as its record, split at the first dot |
| BsonToJson.SerializeScope | modules/module-mongodb/src/replication/bufferToSqlite.ts:789-806 | code with scope prints as its record, the scope as a nested document |
| JsonColumns.ColumnToJson | modules/module-mongodb/src/replication/bufferToSqlite.ts:117-130 | every well-formed column is written as the print of its filtered members, or fails as the filter does; whenever the simple form with its JavaScript records accepts the column, and no document in it has both names of a database reference, the text is the simple form's if and only if the kept members of every document in it are in record order |
| RecordForm.ColumnAgreesIff | modules/module-mongodb/src/replication/MongoRelation.ts:151-156 | the same between the two forms as functions, for any column in which no document has both names `$ref` and `$id`, which the BSON library decodes into records: no kept member assigned over, none the prototype, integer names first and ascending, other names in the order of their first assignment |
| RecordForm.RecordAgrees | modules/module-mongodb/src/replication/MongoRelation.ts:151-156 | for a document of any nesting the record's text is never longer, and equal exactly when its members are in order at every level |
| RecordOrder.AssignAllIsRecord | modules/module-mongodb/src/replication/MongoRelation.ts:151-154 | assigning the members one by one gives the last of each name, in the order a record enumerates them |
| RecordForm.RecordsReorder | modules/module-mongodb/src/replication/MongoRelation.ts:151-154 | an integer name after another, and a name that comes twice, are not in order |
| BsonToJson.SkipAndSerializeAgree | modules/module-mongodb/src/replication/bufferToSqlite.ts:372-438 | skipping and serializing advance to the same offset |
| Buckets.ReduceBucket | test-client/src/util.ts:62-102 | the map, remainder and sort of the client give the reduced bucket: one PUT for each row by id, behind the remainder |
| Buckets.ReduceComposes | test-client/src/util.ts:62-102 | reducing a reduced bucket with more operations is reducing all of them |
| Buckets.ChecksumIsKept | test-client/src/util.ts:108-110 | what is kept sums, modulo 2^32, to the checksums from the last CLEAR on |
| Compaction.StoredReducesToHistory | docs/storage/bucket-properties.md:75-79 | a bucket compacted any number of times reduces to the same as its history |
| Compaction.EveryClientConverges | docs/storage/bucket-properties.md:81-92 | a client that has reduced the history up to any checkpoint and goes on with the compacted bucket ends with the whole bucket, also across CLEAR operations |
| Compaction.CheckpointIsGoodWhenNoTargetIsPast | packages/service-core/src/sync/sync.ts:473-480 | a checkpoint may still be downloaded when no operation up to it refers to one past it |
| Compaction.AppendKeepsStored | modules/module-mongodb-storage/src/storage/implementation/v1/MongoCompactorV1.ts:432-436 | operations added at any time keep what the bucket stores |
| BucketCompactor.MoveKeepsStored | modules/module-mongodb-storage/src/storage/implementation/v1/MongoCompactorV1.ts:463-495 | turning a superseded operation into a MOVE keeps the bucket what it was |
| BucketCompactor.ClearKeepsStored | modules/module-mongodb-storage/src/storage/implementation/v1/MongoCompactorV1.ts:625-642 | replacing a start without PUTs by one CLEAR of its summed checksums keeps it too |
| BucketCompactor.Compactor.Visit | modules/module-mongodb-storage/src/storage/implementation/v1/MongoCompactorV1.ts:452-518 | looking at one operation, newest first, with limited memory for rows, keeps what the pass relies on |
| BucketCompactor.Compactor.ClearBucket | modules/module-mongodb-storage/src/storage/implementation/v1/MongoCompactorV1.ts:562-655 | clearing in batches never meets a PUT, ends, leaves at most one operation when a batch holds more than one, and keeps the count right |
| BucketCompactor.Compactor.CompactSingleBucket | modules/module-mongodb-storage/src/storage/implementation/v1/MongoCompactorV1.ts:379-541 | a whole compaction keeps the bucket what it was, and its counters are those of the operations left; of those up to the bound no row has two unless memory ran out, and no start of more than one operation is free of PUTs |
| BucketCompactor.ClearIsSafeIff | modules/module-mongodb-storage/src/storage/implementation/v1/MongoCompactorV1.ts:602-616 | clearing a start keeps the reduction if and only if what precedes its last CLEAR sums to nothing |
| BucketCompactor.ClearInTheMiddleIsUnsafe | modules/module-mongodb-storage/src/storage/implementation/v1/MongoCompactorV1.ts:602-604 | a start with a CLEAR between MOVEs that clearing would change |
| Lifecycle.UpdateKeepsInv | modules/module-mongodb-storage/src/storage/MongoBucketStorage.ts:262-394 | a deploy, into a new stream or appended to the active one, keeps the lifecycle invariant |
| Lifecycle.ErrorActiveKeeps | modules/module-mongodb-storage/src/storage/MongoBucketStorage.ts:190-260 | the update of the active stream always finds it; the same config is served afterwards, and the stream is ERRORED with no work in progress |
| Lifecycle.RestartReplaces | modules/module-mongodb-storage/src/storage/MongoBucketStorage.ts:145-181 | a restart of the deploying or active stream keeps the active lookup, takes the stream out of the replicating set and leaves a deploying config; any other id is left alone |
| Activation.FirstActivates | modules/module-mongodb-storage/src/storage/implementation/v3/MongoBucketBatchV3.ts:494-526 | a ready stream takes over: the active lookup gives what was deploying, and nothing is deploying |
| Activation.NextActivates | modules/module-mongodb-storage/src/storage/implementation/v3/MongoBucketBatchV3.ts:527-546 | a ready appended config replaces the active one of its stream in the same way |
| Activation.ActivateV1KeepsInv | modules/module-mongodb-storage/src/storage/implementation/v1/MongoBucketBatchV1.ts:471-512 | the same invariant when a stream of the first version takes over |
| Activation.AtMostOneProcessing | modules/module-mongodb-storage/src/storage/MongoBucketStorage.ts:604-636 | in every run of deploys, restarts, activations and cleanups at most one config is PROCESSING, at most one stream serves, and a serving V3 stream has exactly one ACTIVE or ERRORED config |
| StoppedStreams.NextLoses | modules/module-mongodb-storage/src/storage/implementation/v3/MongoStoppedSyncConfigCleanup.ts:441-466 | told before each step, the streams it loses: a serving one of the newer version without a stopped config when a first-version stream takes over, and a stopped one when all its stopped configs are pruned; no other, and none is found again |
| StoppedStreams.AllFoundIff | modules/module-mongodb-storage/src/storage/MongoBucketStorage.ts:730-744 | after any run all stopped streams are found if and only if no step of it lost one |
| StoppedStreams.LostForEver | modules/module-mongodb-storage/src/storage/implementation/v1/MongoBucketBatchV1.ts:501-512 | a lost stream stays lost whatever is done from then on |
| StoppedStreams.ReplacedStreamIsLost | modules/module-mongodb-storage/src/storage/implementation/v1/MongoBucketBatchV1.ts:501-512 | a run in which a first-version stream takes over and the replaced stream is lost |
| StoppedStreams.PrunedStreamIsLost | modules/module-mongodb-storage/src/storage/implementation/v3/MongoStoppedSyncConfigCleanup.ts:66-78 | a run without first-version streams in which a cleanup loses a stream |
| SyncConfigStorage.BucketStorage.UpdateSyncRules | modules/module-mongodb-storage/src/storage/MongoBucketStorage.ts:526-535 | a deploy leaves a config deploying, and clients on what they had |
| SyncConfigStorage.BucketStorage.RestartReplication | modules/module-mongodb-storage/src/storage/MongoBucketStorage.ts:145-181 | the restart transaction, step by step, with its promises about both lookups and the replicating set |
| SyncConfigStorage.AppendDeploys | modules/module-mongodb-storage/src/storage/MongoBucketStorage.ts:442-524 | after an append the deploying lookup gives the appended config |
| ScalarMap.BuildPlain | packages/sync-rules/src/yaml_scalar_map.ts:238-329 | the map of a plain scalar rises, stays in the source and ends in the sentinel; for a scalar that starts and ends in content it has one entry for each character of the folded text, pointing at that character |
| ScalarMap.MapBlanks | packages/sync-rules/src/yaml_scalar_map.ts:299-315 | blank lines give one entry each, at line breaks |
| ScalarLines.Peek | packages/sync-rules/src/yaml_scalar_map.ts:272-297 | the lookahead finds the number of blank lines and where content goes on |
| ScalarQuoted.BuildQuoted | packages/sync-rules/src/yaml_scalar_map.ts:52-134 | the map of a quoted scalar rises, stays in the source and ends in the sentinel; one on one line, without backslash escapes, has one entry for each character of its value |
| ScalarQuoted.BuildBlock | packages/sync-rules/src/yaml_scalar_map.ts:135-237 | the same for block scalars; a literal one has one entry for each character of its value, pointing at that character |
| ScalarQuoted.DetectIndentation | packages/sync-rules/src/yaml_scalar_map.ts:136-152 | the indentation of the first line that is not only whitespace |
| StructureParser.Parser.QuotedString | packages/jpgwire/src/structure_parser.ts:70-115 | a quoted value reads back, unless quotes are doubled and it begins with one; on any input it ends |
| StructureParser.Parser.UnquotedString | packages/jpgwire/src/structure_parser.ts:117-132 | bare text reads back up to what ends it |
| StructureParser.Parser.ParseArrayInner | packages/jpgwire/src/structure_parser.ts:148-174 | a printed array of any nesting reads back, and parsing ends on every input |
| StructureParser.Parser.ParseArray | packages/jpgwire/src/structure_parser.ts:141-145 | a printed array is parsed to itself |
| StructureParser.Parser.ParseComposite | packages/jpgwire/src/structure_parser.ts:177-200 | a printed composite value is parsed to its fields if and only if none of them begins with a double quote; otherwise parsing fails |
| Lsn.OrderIsNumeric | modules/module-mongodb/src/common/MongoLSN.ts:61-74 | string order is numeric order, within and across both forms, with or without tokens |
| Lsn.SortsRightIffInRange | modules/module-mongodb/src/common/MongoLSN.ts:64-65 | a timestamp sorts right among ordinary positions if and only if both halves are below 2^31 |
| Lsn.LateTimestampsSortFirst | modules/module-mongodb/src/common/MongoLSN.ts:64-65 | a time from 2038 on sorts before every ordinary position |
| Lsn.ParseUndoesPrint | modules/module-mongodb/src/common/SentinelLSN.ts:43-69 | parsing undoes printing for both forms |
| Lsn.SentinelIsFixed | modules/module-mongodb/src/common/SentinelLSN.ts:62-73 | a sentinel prints as sixteen digits |
| SentinelCounter.Counter.CreateLsn | modules/module-mongodb/src/replication/MongoRelation.ts:258-338 | advances the counter, or seeds it first; fails only if the document is deleted before each further attempt |
| SentinelCounter.CoordinatesIncrease | modules/module-mongodb/src/replication/MongoRelation.ts:308-321 | coordinates strictly increase over every run with deletions in which no document is created behind what was handed out |
| SentinelCounter.PacedRunsIncrease | modules/module-mongodb/src/replication/MongoRelation.ts:308-321 | in particular over every run with fewer than 2^32 coordinates a second in which no document is created in a second in which one was handed out |
| SentinelCounter.CreateIsSafeIff | modules/module-mongodb/src/replication/MongoRelation.ts:308-321 | creating the document keeps that if and only if the clock has reached the last coordinate |
| SentinelCounter.SameSecondRepeats | modules/module-mongodb/src/replication/MongoRelation.ts:308-321 | in the same second one coordinate is handed out twice |
| Leases.MongoLock.GetHandle | libs/lib-mongodb/src/locks/MongoLockManager.ts:62-106 | the conditional update is the abstract acquire |
| Leases.MongoLock.RefreshHandle | libs/lib-mongodb/src/locks/MongoLockManager.ts:42-60 | the update is the abstract refresh; it reports success if and only if the lease is owned and its time changes |
| Leases.MongoLock.ReleaseHandle | libs/lib-mongodb/src/locks/MongoLockManager.ts:108-123 | the update is the abstract release |
| Leases.PostgresLock.AcquireId | libs/lib-postgres/src/locks/PostgresLockManager.ts:53-100 | the conditional upsert is the abstract acquire |
| Leases.PostgresLock.RefreshHandle | libs/lib-postgres/src/locks/PostgresLockManager.ts:102-115 | the update is the abstract refresh |
| Leases.PostgresLock.ReleaseHandle | libs/lib-postgres/src/locks/PostgresLockManager.ts:117-129 | the delete is the abstract release |
| Leases.LeaseIsSafe | libs/lib-postgres/src/locks/PostgresLockManager.ts:53-127 | in every run, a handle whose last acknowledged time has not expired and that is not being released owns the row |
| Leases.LostForGood | libs/lib-mongodb/src/locks/MongoLockManager.ts:42-122 | after a takeover the old handle's refreshes fail, and neither they nor its release alter the new owner's row |
| Migrations.Agent.StartIndex | libs/lib-services/src/migrations/AbstractMigrationAgent.ts:99-152 | the start index, across the reversal, is the first migration that is not applied, or the last that is, if and only if the log tells which way the last run went |
| Migrations.Agent.Run | libs/lib-services/src/migrations/AbstractMigrationAgent.ts:154-207 | at whatever times the clock shows: when the log tells which way the last run went, each step up runs the first migration not applied, each step down the last applied, and a prefix stays applied; when it does not, the first migration run is a wrong one; the log always gets one entry for each migration run |
| Migrations.LastDirection | libs/lib-services/src/migrations/AbstractMigrationAgent.ts:120-132 | the direction read from any log is that of its last entry if and only if the first of the latest-timed entries of the migration run last has it |
| Migrations.LaterTells | libs/lib-services/src/migrations/AbstractMigrationAgent.ts:120-127 | it has whenever the last entry is later than all entries of its name that went the other way, in particular when times increase |
| Migrations.RunIsPrefix | libs/lib-services/src/migrations/AbstractMigrationAgent.ts:198-207 | a run in order, saved step by step, leaves a prefix of the list applied |
| Migrations.RunsCompose | libs/lib-services/src/migrations/AbstractMigrationAgent.ts:99-207 | after any sequence of runs, either way and whenever, each going on from where it found the store: a prefix is applied, as many migrations longer as were run upwards than downwards |
| Migrations.SameInstantIsMisread | libs/lib-services/src/migrations/AbstractMigrationAgent.ts:123-127 | two log entries of one name and one time: the earlier is taken for the last, and the log does not tell |
| Clearing.Collection.ClearInBatches | modules/module-mongodb-storage/src/utils/util.ts:206-251 | clearing ends whatever is answered, batch sizes stay within 100 to 10000, nothing is left on normal return, and the count is what was removed less what timed-out batches removed |
| Clearing.Collection.DeleteIdRange | modules/module-mongodb-storage/src/utils/util.ts:261-298 | a range batch removes the next documents in id order and tells how many |
| Clearing.SevenTimeoutsReachTheSmallest | modules/module-mongodb-storage/src/utils/util.ts:236-244 | from any size seven timeouts reach the smallest batch |
| ResumableStream.RawChangeStream | modules/module-mongodb/src/replication/RawChangeStream.ts:88-149 | with errors on any commands, the batches are one stretch of the log from the start to the last token, nothing dropped and nothing twice, and sizes asked for stay within 1 and max(maxBatchSize, 2) |
| ResumableStream.AdaptiveBatchSize.Next | modules/module-mongodb/src/replication/RawChangeStream.ts:340-344 | the next size doubles up to the maximum |
| ResumableStream.RampDoubles | modules/module-mongodb/src/replication/RawChangeStream.ts:328-352 | after an error sizes double until the maximum is reached |
| Convex.StepKeepsInv | modules/module-convex/src/replication/ConvexStream.ts:327-484 | every step of the paged copy and of polling, crashes included, keeps: each stored row is as the source had it after the last delta stored of its key, and none before the polling's position is missing |
| Convex.CommitIsExactIff | modules/module-convex/src/replication/ConvexStream.ts:257-276 | in any run, committing a page is exact if and only if no row is left from beyond it, unless the rest of the page rewrites it or it has there the value it has at the page |
| Convex.ReplayIsExactIff | modules/module-convex/src/replication/ConvexStream.ts:169-190 | in terms of the log alone: stored up to q and replayed from r to p is exact at p if and only if q is not past p or every key that only the deltas from p to q touch has one value at both |
| Convex.NoRowIsLost | modules/module-convex/src/replication/ConvexStream.ts:169-292 | whatever crashes come where, every checkpoint is the snapshot with exactly the deltas up to it as long as no page is committed while a row is ahead of it; in any run the stored rows are that again once the polling has passed all that was stored |
| Convex.ShorterPageIsInexact | modules/module-convex/src/replication/ConvexStream.ts:257-266 | a run in which a shorter page after a crash publishes rows of later deltas |

## Left out

- Replication.EveryCheckpointIsExact: about clean runs; the ways out of them are shown to fail by concrete runs, and
  `Replication.BatchIsResumableIffClean`, `Replication.KeepaliveIsResumableIffClean` and `DroppedCopy.DropIsSafeIff`
  have the exact conditions.
- Replication.KeepaliveIsResumableIffClean: every fragment of a change is taken to carry its cluster time, so that
  the rest of a change is skipped when the stored position is inside it.
- Replication.RunsConverge: post-image mode only, where an event carries the document as of that event; an
  `updateLookup` may carry a later one.
- StreamLoop.ChangeStream.ProcessBatch: a batch without other steps in between; the interleavings are the
  state machine's.
- SnapshotQuery.CopyAll: ids are the least key, null, and numbers, which stand for all values that sort after null,
  in their order. In `Protocol` ids are numbers.
- RecordForm.ColumnAgreesIff: columns with a document that has both names `$ref` and `$id` are left out; what the BSON
  library makes of such a document is foreign.
- BsonToJson.SerializePointer: the simple side splits at the first dot as well; the BSON library it uses is
  not part of this model.
- BsonToJson.SerializeValue: reading past the end of the buffer is an error; the original writes zeros for
  some malformed values. Regular expressions print their pattern and options as they are in both forms, where the
  simple form of the original converts them.
- Bson.ParseDocumentId: well-formed documents only; on malformed lengths the original may not end.
- JsonWriter.JsonBufferWriter.EnsureCapacity: a capacity of zero is excluded, because doubling it never ends.
- JsonText.QuotedReadsBack: the reader takes no pairs of surrogate escapes, which the writer never writes.
- ScalarQuoted.BuildQuoted: backslash escapes and line folding in quoted scalars only have the general shape proved.
- ScalarQuoted.BuildBlock: folded blocks only have the general shape proved.
- StructureParser.Parser.ParseArray: elements stay text; their conversion is a callback of the caller. Ranges and
  multiranges are left out.
- BucketCompactor.Compactor.CompactSingleBucket: the size estimate in bytes and reading in pages are left out; operations
  added meanwhile have ids above the bound and are covered by `Compaction.AppendKeepsStored`.
- Lifecycle.UpdateKeepsInv: one storage version of each kind; whether a config is compatible is an input.
- Migrations.Agent.Run: a migration that fails leaves nothing behind.
- Leases.LeaseIsSafe: ids are fresh, the clock is shared and never goes back, a handle has one refresh outstanding.
- Clearing.Collection.ClearInBatches: no document is inserted meanwhile; a timed-out batch removes from its start.
- ResumableStream.RawChangeStream: followed for any finite number of commands; positions count filtered events.
- Convex.NoRowIsLost: deltas of tables that are not synced, and the time stamps inside a page, are left out.
- Tokens of positions are base64 text without a bar; the BSON in them is foreign.
- Printing of numbers, decimals and dates outside the years 0 to 9999, and UTF-8 decoding, are foreign.
- Rename events, a process that runs on after its replacement has started, several sync configs on one stream,
  metrics, tracing, retries of transient database errors, HTTP, TLS and the SQL compiler.
- A drop is one storage step.
