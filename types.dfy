/** Values shared by the edge-deletion path: keys, scanned rows, index
    definitions, result codes, batch operations, and the collaborators the
    processor calls but whose code lies outside this model. */
module StorageTypes {

  type Bytes = seq<bv8>
  type Key = Bytes
  type SpaceId = int
  type PartId = int
  type EdgeType = int
  type Rank = int
  type IndexId = int
  /** The engine's index-state enum value, as `getIndexState` returns it. */
  type IndexState = int
  /** A decoded edge row: property name to encoded property value. */
  type Props = map<string, Bytes>

  /** The error codes this path produces, plus any other code a store call returns. */
  datatype Code =
    | Succeeded
    | InvalidSpaceVidLen
    | SpaceNotFound
    | InvalidVid
    | InvalidData
    | DataConflict
    | StoreCode(n: int)

  datatype Option<T> = None | Some(value: T)

  /** `ErrorOr<ErrorCode, T>`: a value or the code that aborted the computation. */
  datatype Result<T> = Success(value: T) | Failure(error: Code)

  /** The logical key of one edge in a delete request. */
  datatype EdgeKey = EdgeKey(src: Bytes, edgeType: EdgeType, ranking: Rank, dst: Bytes)

  /** A secondary index definition over edges of one type. */
  datatype IndexItem = IndexItem(indexId: IndexId, edgeType: EdgeType, fields: seq<string>)

  /** What `NebulaKeyUtils::isLock` / `isEdge` say of a scanned key. */
  datatype RowKind = LockRow | EdgeRow | OtherRow

  datatype Row = Row(kind: RowKind, key: Key, value: Bytes)

  /** The outcome of a prefix scan: a code and, when it is `Succeeded`, the rows in key order. */
  datatype Scan = Scan(code: Code, rows: seq<Row>)

  /** One operation of a mutation batch. */
  datatype Op = Put(key: Key, value: Bytes) | Remove(key: Key)

  /** The key of the in-memory edge lock: space, partition, src, type, rank, dst. */
  datatype LockKey = LockKey(space: SpaceId, part: PartId, src: Bytes, edgeType: EdgeType, ranking: Rank, dst: Bytes)

  /** One entry of a request: a partition and the edges to delete in it, in request order. */
  datatype PartEdges = PartEdges(part: PartId, edges: seq<EdgeKey>)

  /** What the processor hands to the store for one partition. */
  datatype Submission =
    | MultiRemove(part: PartId, keys: seq<Key>)
    | AppendBatch(part: PartId, batch: seq<Op>)

  /**
   * The collaborators, each a deterministic function: metadata lookups,
   * key codecs, the store's prefix scan, row decoding, index-value
   * collection, index state, the edge lock guard's acquisition outcome,
   * and the codes the store's asynchronous commits complete with.
   */
  datatype Env = Env(
    getSpaceVidLen: SpaceId -> Option<nat>,
    getEdgeIndexes: SpaceId -> Option<seq<IndexItem>>,
    isValidVidLen: (nat, Bytes, Bytes) -> bool,
    edgeKey: (nat, PartId, Bytes, EdgeType, Rank, Bytes) -> Key,
    edgePrefix: (nat, PartId, Bytes, EdgeType, Rank, Bytes) -> Key,
    prefix: (SpaceId, PartId, Key) -> Scan,
    getEdgePropReader: (SpaceId, EdgeType, Bytes) -> Option<Props>,
    collectIndexValues: (Props, seq<string>) -> Option<seq<Bytes>>,
    edgeIndexKey: (nat, PartId, IndexId, Bytes, Rank, Bytes, seq<Bytes>) -> Key,
    deleteOperationKey: PartId -> Key,
    getIndexState: (SpaceId, PartId) -> IndexState,
    checkRebuilding: IndexState -> bool,
    checkIndexLocked: IndexState -> bool,
    lockEdges: seq<LockKey> -> bool,
    asyncMultiRemove: (SpaceId, PartId, seq<Key>) -> Code,
    asyncAppendBatch: (SpaceId, PartId, seq<Op>) -> Code)

  /** The processor state one partition's planning reads: collaborators, space, vid length, indexes. */
  datatype Ctx = Ctx(env: Env, space: SpaceId, vidLen: nat, indexes: seq<IndexItem>)

  /** Sequencing of two fallible batch fragments: the first failure wins, else concatenate. */
  function Then(a: Result<seq<Op>>, b: Result<seq<Op>>): Result<seq<Op>>
  {
    if a.Failure? then a
    else if b.Failure? then b
    else Success(a.value + b.value)
  }

  lemma ThenAssoc(a: Result<seq<Op>>, b: Result<seq<Op>>, d: Result<seq<Op>>)
    ensures Then(Then(a, b), d) == Then(a, Then(b, d))
  {
    if a.Success? && b.Success? && d.Success? {
      assert (a.value + b.value) + d.value == a.value + (b.value + d.value);
    }
  }

  lemma ThenEmpty(a: Result<seq<Op>>)
    ensures Then(a, Success([])) == a && Then(Success([]), a) == a
  {
    if a.Success? {
      assert a.value + [] == a.value && [] + a.value == a.value;
    }
  }

  function RemoveRows(rows: seq<Row>): seq<Op>
  {
    seq(|rows|, i requires 0 <= i < |rows| => Remove(rows[i].key))
  }

  function RemoveKeys(keys: seq<Key>): seq<Op>
  {
    seq(|keys|, i requires 0 <= i < |keys| => Remove(keys[i]))
  }

  function PutKeys(key: Key, values: seq<Key>): seq<Op>
  {
    seq(|values|, i requires 0 <= i < |values| => Put(key, values[i]))
  }
}
