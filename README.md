# DeleteEdgesProcessor, modelled in Dafny

This project models the storage service's edge-deletion processor, `DeleteEdgesProcessor`, from nebula-storage. It covers two operations.

`process` serves one delete-edges request:
- It looks up the space's vertex-id length and its edge indexes.
- If either lookup fails, every partition of the request gets the same error code.
- If the space has no edge index, each partition checks its edges' vertex-id lengths and removes the edge keys directly.
- Otherwise each partition does three things: it plans a mutation batch with `deleteEdges`, takes the in-memory edge locks, and appends the batch to the store.
- Every partition reports exactly one result code.

`deleteEdges` plans the batch for one partition. For each edge, in request order, it does a prefix scan and then:
- it removes the leading lock markers;
- when the current edge record follows, it emits the operations of every index over the edge's type, then removes the record;
- it removes every trailing row.

Each index operation depends on the index state:
- rebuilding: a put into the rebuild log;
- locked: an abort with a data conflict;
- otherwise: the remove of the index key.

The record is decoded at most once per edge, and only when some index covers the edge's type. The model counts the decoder's calls in a ghost out-parameter, so this is proved of the loop itself.

Files:
- `types.dfy` (module `StorageTypes`) holds the values of this path:
  - keys, scanned rows, index definitions, result codes, batch operations;
  - `Env`, the collaborators the processor calls. These are metadata lookups, key codecs, the prefix scan, row decoding, index-value collection, index state, the lock guard's outcome and the codes the store's commits complete with. Each one is an uninterpreted, deterministic function; for `deleteOperationKey`, which the source calls afresh for every rebuild-log put, this is a simplification listed under "Left out".
- `planner.dfy` (module `DeletePlan`) specifies `deleteEdges` as functions: `PlanEdge` for one edge and `PlanEdges` for a partition. It also holds the lemmas about them.
- `dispatch.dfy` (module `PartitionDispatch`) specifies what `process` decides for each partition, and for the whole request, as functions. It also holds the lemmas about them.
- `processor.dfy` (module `Processor`) holds the class `DeleteEdgesProcessor`. Its fields are the processor's: space id, vid length, pending-partition count, indexes, the result-code map, what was handed to the store, and whether the response is complete. Its methods build keys and batches step by step, in loops. The loop methods are proved equal to the specification functions above. `PushResultCode`, `OnFinished`, `HandleAsync` and `DoRemove` stand for base-class helpers and state their effect on the fields directly.

Points to note about the code:
- The edge locks are taken after the batch is planned (`deleteEdges` at line 97, the guard at line 103), not before.
- Within one edge, the index operations come before the remove of the edge record (lines 150-199).
- In the index path no vertex-id length is checked (lines 83-101).
- A request with no partitions and valid metadata never completes its response: `onFinished` is only reached through the last partition's `handleAsync`.

## Model

| member | source | states |
|---|---|---|
| Processor.DeleteEdgesProcessor.Process | src/storage/mutate/DeleteEdgesProcessor.cpp:18-125 | The result codes recorded are the previous ones updated with `ExpectedCodes`, and what reaches the store is `ExpectedSubmissions`. A failed vid-length lookup completes the response without setting the pending count. A failed index lookup sets the count to the number of partitions and completes. Otherwise the count ends at 0 and the response is complete exactly when the request has a partition. |
| Processor.DeleteEdgesProcessor.PushToAllParts | src/storage/mutate/DeleteEdgesProcessor.cpp:26-28 | Every partition of the request gets the same code, added to the codes already recorded. |
| Processor.DeleteEdgesProcessor.PushResultCode | src/storage/mutate/DeleteEdgesProcessor.cpp:27 | Records one partition's code, leaving the other partitions' codes unchanged. |
| Processor.DeleteEdgesProcessor.OnFinished | src/storage/mutate/DeleteEdgesProcessor.cpp:29 | Completes the response. |
| Processor.DeleteEdgesProcessor.HandleAsync | src/storage/mutate/DeleteEdgesProcessor.cpp:77 | A partition reports its code. The pending count drops by one, and the response is complete once it reaches 0. |
| Processor.DeleteEdgesProcessor.DoRemove | src/storage/mutate/DeleteEdgesProcessor.cpp:80 | Hands the keys to the store as one multi-remove, appended after earlier submissions. The partition reports the store's code. |
| Processor.DeleteEdgesProcessor.RemoveWithoutIndexes | src/storage/mutate/DeleteEdgesProcessor.cpp:48-81 | Without edge indexes, every partition is visited once, in the iteration order of the request's partition map, which the model fixes as the given sequence. The codes and the submissions are exactly `Codes` and `Submissions` of the request, every partition reports, and the response is complete when there was a partition. |
| Processor.DeleteEdgesProcessor.RemovePart | src/storage/mutate/DeleteEdgesProcessor.cpp:50-81 | One partition without indexes. It records exactly that partition's `Dispatch` code, submits what its outcome submits and reports once. |
| Processor.DeleteEdgesProcessor.EdgeKeys | src/storage/mutate/DeleteEdgesProcessor.cpp:51-75 | The keys built for a partition are `DirectRemoveKeys`: InvalidVid at the first edge with a bad vertex-id length, otherwise one edge key per edge in request order. |
| Processor.DeleteEdgesProcessor.DeleteWithIndexes | src/storage/mutate/DeleteEdgesProcessor.cpp:82-124 | With edge indexes, every partition is visited once, in the iteration order of the request's partition map, which the model fixes as the given sequence. The codes and submissions are exactly `Codes` and `Submissions` of the request, and every partition reports. |
| Processor.DeleteEdgesProcessor.DeletePart | src/storage/mutate/DeleteEdgesProcessor.cpp:83-123 | One partition with indexes. A planning error reports that error, and a lock conflict reports DataConflict; in both cases nothing is appended. Otherwise the planned batch is appended and the commit's code is reported. |
| Processor.DeleteEdgesProcessor.EdgeLocks | src/storage/mutate/DeleteEdgesProcessor.cpp:86-96 | One lock key per edge, in request order, holding the space, the partition and the edge's source, type, rank and destination. |
| Processor.DeleteEdgesProcessor.DeleteEdges | src/storage/mutate/DeleteEdgesProcessor.cpp:128-205 | The batch equals `PlanEdges`. The decoder's calls, counted by the loop, are at most one per edge. On success they are exactly the number of edges that have a current record and an index over their type. |
| Processor.DeleteEdgesProcessor.DeleteEdge | src/storage/mutate/DeleteEdgesProcessor.cpp:131-201 | Appends exactly `PlanEdge` of the edge to the batch so far, or fails with its error. The decoder is called once when the edge has a current record and some index covers its type, and not at all otherwise. |
| Processor.DeleteEdgesProcessor.RemoveLeadingLocks | src/storage/mutate/DeleteEdgesProcessor.cpp:145-148 | Removes the lock markers before the first non-lock row, in scan order, and stops at `LeadingLocks`. |
| Processor.DeleteEdgesProcessor.RemoveRemaining | src/storage/mutate/DeleteEdgesProcessor.cpp:198-201 | Removes every row from the given position on, in scan order. |
| Processor.DeleteEdgesProcessor.AppendIndexOps | src/storage/mutate/DeleteEdgesProcessor.cpp:150-192 | Appends `IndexOps` of the record, or fails with its error. The decoder is called once, at the first covering index, when some index covers the edge's type, and not at all otherwise. |
| Processor.DeleteEdgesProcessor.VisitCoveringIndex | src/storage/mutate/DeleteEdgesProcessor.cpp:159-190 | At a covering index, the decoder is called only if no earlier index decoded the record, and its reader is kept. An undecodable record fails with InvalidData. Otherwise the index's disposition is appended to the batch. |
| Processor.DeleteEdgesProcessor.AppendIndexOp | src/storage/mutate/DeleteEdgesProcessor.cpp:169-190 | Appends exactly what `IndexDisposition` gives for one index: nothing, a rebuild-log put, the remove of the index key, or DataConflict. |
| DeletePlan.Prefix | src/storage/mutate/DeleteEdgesProcessor.cpp:136 | The scan prefix of an edge: the edge-prefix codec applied to the vid length, the partition and the edge's source, type, rank and destination. It has no contract of its own. |
| DeletePlan.ScanOf | src/storage/mutate/DeleteEdgesProcessor.cpp:137-138 | The store's prefix scan of the space and partition under that prefix, giving a code and the rows. It has no contract of its own; `PlanEdgeFailure` states how its code is used. |
| DeletePlan.LeadingLocks | src/storage/mutate/DeleteEdgesProcessor.cpp:145-148 | The lock markers removed first are exactly the rows before the first non-lock row. |
| DeletePlan.Matching | src/storage/mutate/DeleteEdgesProcessor.cpp:155-156 | No more indexes are consulted than the catalog holds. |
| DeletePlan.MatchingMembers | src/storage/mutate/DeleteEdgesProcessor.cpp:155-156 | An index is consulted exactly when it is in the catalog and its edge type equals the edge's. |
| DeletePlan.MatchingConcat | src/storage/mutate/DeleteEdgesProcessor.cpp:155-156 | The indexes consulted for two catalogs in a row are those of each, in order. |
| DeletePlan.ForeignIndexIsIgnored | src/storage/mutate/DeleteEdgesProcessor.cpp:156 | Adding an index over another edge type to the catalog changes no index operation and no error. |
| DeletePlan.IndexKeyOf | src/storage/mutate/DeleteEdgesProcessor.cpp:169-179 | The index key built from the vid length, the partition, the index id, the edge's source, rank and destination, and the collected field values; None when `collectIndexValues` fails, which is the skip at lines 171-173. It has no contract of its own; `SkippedIndexAddsNothing`, `IndexDisposition` and `DispositionsByState` state its use. |
| DeletePlan.IndexDisposition | src/storage/mutate/DeleteEdgesProcessor.cpp:169-190 | One index yields at most one operation, and only when its field values are collected. It fails only with DataConflict, and only when a key was built and the state is locked and not rebuilding. |
| DeletePlan.CollectedKeys | src/storage/mutate/DeleteEdgesProcessor.cpp:169-179 | At most one index key per consulted index. |
| DeletePlan.IndexOps | src/storage/mutate/DeleteEdgesProcessor.cpp:150-192 | With no index over the edge's type, the record adds no index operation and cannot fail. Failures are only InvalidData or DataConflict, and there are at most as many operations as covering indexes. |
| DeletePlan.Dispositions | src/storage/mutate/DeleteEdgesProcessor.cpp:169-190 | Index operations fail only with DataConflict, and there is at most one operation per consulted index. |
| DeletePlan.DispositionsByState | src/storage/mutate/DeleteEdgesProcessor.cpp:169-190 | By index state: while rebuilding, which is checked first, there is one rebuild-log put per collected key and nothing else, each under the partition's rebuild-log key. Otherwise, a locked state with any collected key is DataConflict. Otherwise there is one remove per collected key, in catalog order. |
| DeletePlan.DispositionsConcat | src/storage/mutate/DeleteEdgesProcessor.cpp:154-191 | The index operations of two runs of indexes are those of each, in order; the first conflict wins. |
| DeletePlan.DispositionsFailureExtends | src/storage/mutate/DeleteEdgesProcessor.cpp:185-187 | A conflict at one index aborts the record's index operations with that conflict, whatever follows. |
| DeletePlan.DispositionsAdvance | src/storage/mutate/DeleteEdgesProcessor.cpp:155-190 | Processing one more covering index appends its disposition to the batch. |
| DeletePlan.SkippedIndexAddsNothing | src/storage/mutate/DeleteEdgesProcessor.cpp:169-173 | An index whose field values cannot be collected is skipped: no operation and no error. |
| DeletePlan.UndecodableRecordIsInvalidData | src/storage/mutate/DeleteEdgesProcessor.cpp:158-166 | When some index covers the edge's type and its current record cannot be decoded, the edge fails with InvalidData. |
| DeletePlan.LockedIndexAbortsEdge | src/storage/mutate/DeleteEdgesProcessor.cpp:181-188 | The edge fails with DataConflict when the index state is locked and not rebuilding and some covering index yields a key. |
| DeletePlan.HasEdgeRecord | src/storage/mutate/DeleteEdgesProcessor.cpp:150 | The edge-record test after the lock loop: the scan succeeded and the row at `LeadingLocks` exists and is an edge record. It has no contract of its own; `EdgeRecordAfterLocks` characterises it. |
| DeletePlan.EdgeRecordAfterLocks | src/storage/mutate/DeleteEdgesProcessor.cpp:145-150 | An edge has a current record exactly when its scan succeeded and some edge record in the scan is preceded only by lock markers. |
| DeletePlan.PlanEdge | src/storage/mutate/DeleteEdgesProcessor.cpp:131-201 | An edge fails only with its scan's error code, InvalidData or DataConflict, never with Succeeded. |
| DeletePlan.PlanEdgeFailure | src/storage/mutate/DeleteEdgesProcessor.cpp:138-143 | A failed prefix scan fails the edge with the scan's code. After a successful scan, the edge fails exactly when it has a current record whose index operations fail, and then with their error. |
| DeletePlan.PlanEdgeParts | src/storage/mutate/DeleteEdgesProcessor.cpp:145-201 | One edge's operations are, in order: the lock-marker removes, the index operations (only when a current record exists), then the removes of the record and of the trailing rows. |
| DeletePlan.EdgeRowsRemovedInScanOrder | src/storage/mutate/DeleteEdgesProcessor.cpp:145-201 | Cutting the index operations out of an edge's operations leaves exactly one remove per scanned key, in scan order. There are at most as many index operations as consulted indexes, and none without a current record. |
| DeletePlan.AbsentEdgeIsNoOp | src/storage/mutate/DeleteEdgesProcessor.cpp:145-199 | An edge with no stored rows adds no operation. |
| DeletePlan.LockedRecordWithTwoIndexes | src/storage/mutate/DeleteEdgesProcessor.cpp:145-195 | Worked case: with one lock marker, a record and two plain covering indexes, the batch is the lock's remove, both index keys' removes in catalog order, then the record's remove. |
| DeletePlan.PlanEdges | src/storage/mutate/DeleteEdgesProcessor.cpp:128-205 | A partition's plan never fails with Succeeded. |
| DeletePlan.PlanEdgesConcat | src/storage/mutate/DeleteEdgesProcessor.cpp:131-204 | Across edges, the batch is the edges' operations in request order, and the earlier error wins. |
| DeletePlan.PlanEdgesFirstFailure | src/storage/mutate/DeleteEdgesProcessor.cpp:131-201 | A partition's plan succeeds exactly when every edge does. Otherwise it fails with the error of the first failing edge in request order. |
| DeletePlan.PlanEdgesFailureExtends | src/storage/mutate/DeleteEdgesProcessor.cpp:138-143 | An error while planning the first edges is returned at once as the partition's error. |
| DeletePlan.AbsentEdgesPlanEmptyBatch | src/storage/mutate/DeleteEdgesProcessor.cpp:131-204 | Deleting only edges with no stored rows plans an empty batch. |
| PartitionDispatch.ValidVids | src/storage/mutate/DeleteEdgesProcessor.cpp:56-59 | The vid-length check on an edge's source and destination under the space's vid length. It has no contract of its own; `DirectRemoveKeys` states its use. |
| PartitionDispatch.EdgeKeyOf | src/storage/mutate/DeleteEdgesProcessor.cpp:68-73 | The edge key built from the vid length, the partition and the edge's source, type, rank and destination. It has no contract of its own; `DirectRemoveKeys` states its use. |
| PartitionDispatch.DirectRemoveKeys | src/storage/mutate/DeleteEdgesProcessor.cpp:55-75 | Fails, with InvalidVid, exactly when some edge has a vertex id of the wrong length. Otherwise there is one edge key per edge, in request order. |
| PartitionDispatch.LockKeys | src/storage/mutate/DeleteEdgesProcessor.cpp:86-96 | One lock key per edge, each for the request's space and this partition. |
| PartitionDispatch.DispatchOutcome | src/storage/mutate/DeleteEdgesProcessor.cpp:50-123 | A partition that submits nothing has a code other than Succeeded. A partition's submission is tagged with that partition. |
| PartitionDispatch.DirectOutcome | src/storage/mutate/DeleteEdgesProcessor.cpp:50-81 | Without indexes, a partition that submits nothing has InvalidVid. What it submits is a multi-remove for that partition. |
| PartitionDispatch.IndexedOutcome | src/storage/mutate/DeleteEdgesProcessor.cpp:83-123 | With indexes, a partition that submits nothing has a code other than Succeeded. What it submits is a batch append for that partition. |
| PartitionDispatch.DirectRemovalOutcome | src/storage/mutate/DeleteEdgesProcessor.cpp:50-81 | Without indexes, a partition holding an invalid vid gets InvalidVid and submits nothing. Otherwise it multi-removes its edge keys in request order and gets the store's code. |
| PartitionDispatch.IndexedDeletionOutcome | src/storage/mutate/DeleteEdgesProcessor.cpp:83-123 | With indexes, a partition submits its planned batch exactly when planning succeeds and the locks are taken. A planning error is its code, a lock conflict gives DataConflict, and otherwise it gets the commit's code. |
| PartitionDispatch.Broadcast | src/storage/mutate/DeleteEdgesProcessor.cpp:26-28 | Every partition of the request, and only those, gets the one code. |
| PartitionDispatch.ExpectedCodes | src/storage/mutate/DeleteEdgesProcessor.cpp:18-125 | The partitions with a code are exactly the request's partitions, whichever path is taken. |
| PartitionDispatch.ExpectedSubmissions | src/storage/mutate/DeleteEdgesProcessor.cpp:18-125 | When either metadata lookup fails, nothing reaches the store. |
| PartitionDispatch.Codes | src/storage/mutate/DeleteEdgesProcessor.cpp:50-123 | The partitions with a code are exactly the request's partitions. |
| PartitionDispatch.MetadataFailureReachesEveryPartition | src/storage/mutate/DeleteEdgesProcessor.cpp:23-44 | A failed vid-length lookup gives every partition InvalidSpaceVidLen, and a failed index lookup gives every partition SpaceNotFound. In both cases nothing reaches the store. |
| PartitionDispatch.PartitionIsolation | src/storage/mutate/DeleteEdgesProcessor.cpp:50-123 | Every partition's code is the one its own edges determine, whatever the other partitions hold. |
| PartitionDispatch.SubmissionsPerPartition | src/storage/mutate/DeleteEdgesProcessor.cpp:76-122 | There are no more submissions than partitions, and each submission is the own submission of some partition, tagged with that partition's id. |
| PartitionDispatch.EverySubmissionReachesStore | src/storage/mutate/DeleteEdgesProcessor.cpp:76-122 | Conversely, whatever a partition's outcome submits is among the submissions that reach the store. |
| PartitionDispatch.SubmissionsDistinctParts | src/storage/mutate/DeleteEdgesProcessor.cpp:50-123 | When the request's partition ids are distinct, no two submissions are for the same partition. |

## Left out

- Lock guard internals (lines 103-115): acquiring the edge locks is the abstract boolean `lockEdges`. The locks' release when the commit completes, and cross-request concurrency, are not modelled.
- Asynchrony (lines 116-122): `asyncAppendBatch` and `asyncMultiRemove` complete at once, with the code the environment gives. The callback order across partitions and `IndexCountWrapper` are not modelled.
- The base processor class is not part of this model. `handleAsync`, `pushResultCode`, `doRemove` and `onFinished` are modelled on their use here: a map from partition to code, a pending count, and a completion flag. Any leader-change or failed-partition bookkeeping they do is not modelled.
- Rebuild-log keys (line 183): the source calls `OperationKeyUtils::deleteOperationKey(partId)` afresh for every put, so the markers of one batch can carry different keys; that helper is not part of this model. The model's `deleteOperationKey` is a function of the partition alone, so all rebuild-log puts in one batch share one key, and nothing is stated about the markers being distinct.
- Key layouts and decoding (`NebulaKeyUtils`, `IndexKeyUtils`, `OperationKeyUtils`, `RowReaderWrapper`) are uninterpreted functions. `isLock` and `isEdge` are a tag on each scanned row, and `isValidVidLen` is an uninterpreted predicate.
- `encodeBatchValue` (line 204): the planned batch is a sequence of operations, not its encoding. The `DCHECK` at line 102 is not modelled; `AbsentEdgesPlanEmptyBatch` shows that the batch itself can be empty.
- The store's contents: deletion is modelled as the batch handed to the store, so idempotence against stored data is not stated.
- The index state is read once per covering index whose field values were collected (lines 169-181); an index whose values cannot be collected is skipped before the read. Because `getIndexState` is a function of the space and partition, a state change between two indexes of one edge is not modelled.
- Logging, counters and `CHECK_NOTNULL` are not modelled.
- Processor.DeleteEdgesProcessor.DeleteEdges: the number of decoder calls is stated exactly only for a successful plan. After a failure only the bound of at most one call per edge is stated.
- Partition order: the source iterates the request's partition map, whose iteration order is unspecified. The model takes the partitions as a sequence, so the order of the recorded submissions and of the visits is that sequence's order.
