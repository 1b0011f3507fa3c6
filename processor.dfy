/**
 * `DeleteEdgesProcessor`: the object that serves one delete-edges request.
 * `Process` reads the space's metadata, then visits every partition; with no
 * edge index it removes the edge keys directly, otherwise it plans a batch
 * with `DeleteEdges`, takes the edge locks and appends the batch. Each
 * partition reports one code through `HandleAsync`.
 */
module Processor {
  import opened StorageTypes
  import opened DeletePlan
  import opened PartitionDispatch

  /** Recording one more partition's code in the codes added to `m`. */
  lemma UnionUpdate<K, V>(m: map<K, V>, n: map<K, V>, k: K, v: V)
    ensures (m + n)[k := v] == m + n[k := v]
  {
  }

  class DeleteEdgesProcessor {
    const env: Env
    var spaceId: SpaceId
    var spaceVidLen: nat
    /** Partitions that have not reported yet. */
    var callingNum: nat
    var indexes: seq<IndexItem>
    /** The code each partition reported. */
    var results: map<PartId, Code>
    /** What was handed to the store, in order. */
    var submitted: seq<Submission>
    /** The response has been completed. */
    var finished: bool

    constructor (env: Env)
      ensures this.env == env
      ensures results == map[] && submitted == [] && callingNum == 0 && !finished
    {
      this.env := env;
      spaceId := 0;
      spaceVidLen := 0;
      callingNum := 0;
      indexes := [];
      results := map[];
      submitted := [];
      finished := false;
    }

    /** The planning context the current fields describe. */
    function Current(): Ctx
      reads this
    {
      Ctx(env, spaceId, spaceVidLen, indexes)
    }

    method PushResultCode(code: Code, part: PartId)
      modifies this`results
      ensures results == old(results)[part := code]
    {
      results := results[part := code];
    }

    method OnFinished()
      modifies this`finished
      ensures finished
    {
      finished := true;
    }

    /** A partition reports its code; the last one to report completes the response. */
    method HandleAsync(part: PartId, code: Code)
      requires callingNum > 0
      modifies this`results, this`callingNum, this`finished
      ensures results == old(results)[part := code]
      ensures callingNum == old(callingNum) - 1
      ensures finished == (old(finished) || callingNum == 0)
    {
      PushResultCode(code, part);
      callingNum := callingNum - 1;
      if callingNum == 0 {
        OnFinished();
      }
    }

    /** Hands the keys to the store's multi-remove; its completion reports the partition's code. */
    method DoRemove(part: PartId, keys: seq<Key>)
      requires callingNum > 0
      modifies this`results, this`callingNum, this`finished, this`submitted
      ensures submitted == old(submitted) + [MultiRemove(part, keys)]
      ensures results == old(results)[part := env.asyncMultiRemove(spaceId, part, keys)]
      ensures callingNum == old(callingNum) - 1
      ensures finished == (old(finished) || callingNum == 0)
    {
      submitted := submitted + [MultiRemove(part, keys)];
      HandleAsync(part, env.asyncMultiRemove(spaceId, part, keys));
    }

    /** The same code for every partition of the request. */
    method PushToAllParts(parts: seq<PartEdges>, code: Code)
      modifies this`results
      ensures results == old(results) + Broadcast(parts, code)
    {
      for i := 0 to |parts|
        invariant results == old(results) + Broadcast(parts[..i], code)
      {
        assert parts[..i + 1][..i] == parts[..i];
        UnionUpdate(old(results), Broadcast(parts[..i], code), parts[i].part, code);
        PushResultCode(code, parts[i].part);
      }
      assert parts[..|parts|] == parts;
    }

    method Process(space: SpaceId, parts: seq<PartEdges>)
      modifies this
      ensures spaceId == space
      ensures results == old(results) + ExpectedCodes(env, space, parts)
      ensures submitted == old(submitted) + ExpectedSubmissions(env, space, parts)
      ensures env.getSpaceVidLen(space).None? ==> finished && callingNum == old(callingNum)
      ensures env.getSpaceVidLen(space).Some? ==> spaceVidLen == env.getSpaceVidLen(space).value
      ensures env.getSpaceVidLen(space).Some? && env.getEdgeIndexes(space).None? ==>
        finished && callingNum == |parts|
      ensures env.getSpaceVidLen(space).Some? && env.getEdgeIndexes(space).Some? ==>
        indexes == env.getEdgeIndexes(space).value && callingNum == 0 && finished == (old(finished) || |parts| > 0)
    {
      spaceId := space;
      var ret := env.getSpaceVidLen(space);
      if ret.None? {
        PushToAllParts(parts, InvalidSpaceVidLen);
        OnFinished();
        return;
      }
      spaceVidLen := ret.value;
      callingNum := |parts|;

      var iRet := env.getEdgeIndexes(space);
      if iRet.None? {
        PushToAllParts(parts, SpaceNotFound);
        OnFinished();
        return;
      }
      indexes := iRet.value;

      if indexes == [] {
        RemoveWithoutIndexes(parts);
      } else {
        DeleteWithIndexes(parts);
      }
    }

    /** Every partition, when the space has no edge index: check vid lengths and remove the edge keys. */
    method RemoveWithoutIndexes(parts: seq<PartEdges>)
      requires indexes == []
      requires callingNum == |parts|
      modifies this`results, this`callingNum, this`finished, this`submitted
      ensures results == old(results) + Codes(Current(), parts)
      ensures submitted == old(submitted) + Submissions(Current(), parts)
      ensures callingNum == 0
      ensures finished == (old(finished) || |parts| > 0)
    {
      ghost var c := Current();
      for i := 0 to |parts|
        invariant Current() == c
        invariant results == old(results) + Codes(c, parts[..i])
        invariant submitted == old(submitted) + Submissions(c, parts[..i])
        invariant callingNum == |parts| - i
        invariant finished == (old(finished) || (0 < i == |parts|))
      {
        assert parts[..i + 1][..i] == parts[..i];
        UnionUpdate(old(results), Codes(c, parts[..i]), parts[i].part, Dispatch(c, parts[i].part, parts[i].edges).code);
        RemovePart(parts[i].part, parts[i].edges);
      }
      assert parts[..|parts|] == parts;
    }

    /** One partition without edge indexes: InvalidVid at the first bad edge, else remove the edge keys. */
    method RemovePart(partId: PartId, edges: seq<EdgeKey>)
      requires indexes == []
      requires callingNum > 0
      modifies this`results, this`callingNum, this`finished, this`submitted
      ensures results == old(results)[partId := Dispatch(Current(), partId, edges).code]
      ensures submitted == old(submitted) + Submitted(Dispatch(Current(), partId, edges))
      ensures callingNum == old(callingNum) - 1
      ensures finished == (old(finished) || callingNum == 0)
    {
      var keys := EdgeKeys(partId, edges);
      if keys.Failure? {
        HandleAsync(partId, keys.error);
        return;
      }
      DoRemove(partId, keys.value);
    }

    /** The edge keys of a partition's edges, checking each edge's vertex-id lengths first. */
    method EdgeKeys(partId: PartId, edges: seq<EdgeKey>) returns (r: Result<seq<Key>>)
      ensures r == DirectRemoveKeys(Current(), partId, edges)
    {
      var keys: seq<Key> := [];
      for j := 0 to |edges|
        invariant DirectRemoveKeys(Current(), partId, edges[..j]) == Success(keys)
      {
        var edgeKey := edges[j];
        assert edges[..j + 1][..j] == edges[..j];
        if !env.isValidVidLen(spaceVidLen, edgeKey.src, edgeKey.dst) {
          assert DirectRemoveKeys(Current(), partId, edges[..j + 1]).Failure?;
          assert !ValidVids(Current(), edges[j]);
          return Failure(InvalidVid);
        }
        var edge := env.edgeKey(spaceVidLen, partId, edgeKey.src, edgeKey.edgeType, edgeKey.ranking, edgeKey.dst);
        keys := keys + [edge];
      }
      assert edges[..|edges|] == edges;
      return Success(keys);
    }

    /** Every partition, when the space has edge indexes: plan, lock, append. */
    method DeleteWithIndexes(parts: seq<PartEdges>)
      requires indexes != []
      requires callingNum == |parts|
      modifies this`results, this`callingNum, this`finished, this`submitted
      ensures results == old(results) + Codes(Current(), parts)
      ensures submitted == old(submitted) + Submissions(Current(), parts)
      ensures callingNum == 0
      ensures finished == (old(finished) || |parts| > 0)
    {
      ghost var c := Current();
      for i := 0 to |parts|
        invariant Current() == c
        invariant results == old(results) + Codes(c, parts[..i])
        invariant submitted == old(submitted) + Submissions(c, parts[..i])
        invariant callingNum == |parts| - i
        invariant finished == (old(finished) || (0 < i == |parts|))
      {
        assert parts[..i + 1][..i] == parts[..i];
        UnionUpdate(old(results), Codes(c, parts[..i]), parts[i].part, Dispatch(c, parts[i].part, parts[i].edges).code);
        DeletePart(parts[i].part, parts[i].edges);
      }
      assert parts[..|parts|] == parts;
    }

    /** One partition with edge indexes: plan the batch, take the edge locks, append the batch. */
    method DeletePart(partId: PartId, edges: seq<EdgeKey>)
      requires indexes != []
      requires callingNum > 0
      modifies this`results, this`callingNum, this`finished, this`submitted
      ensures results == old(results)[partId := Dispatch(Current(), partId, edges).code]
      ensures submitted == old(submitted) + Submitted(Dispatch(Current(), partId, edges))
      ensures callingNum == old(callingNum) - 1
      ensures finished == (old(finished) || callingNum == 0)
    {
      var dummyLock := EdgeLocks(partId, edges);
      var batch;
      ghost var decodes;
      batch, decodes := DeleteEdges(partId, edges);
      if batch.Failure? {
        HandleAsync(partId, batch.error);
        return;
      }
      if !env.lockEdges(dummyLock) {
        HandleAsync(partId, DataConflict);
        return;
      }
      submitted := submitted + [AppendBatch(partId, batch.value)];
      HandleAsync(partId, env.asyncAppendBatch(spaceId, partId, batch.value));
    }

    /** The lock keys of a partition's edges, in request order. */
    method EdgeLocks(partId: PartId, edges: seq<EdgeKey>) returns (locks: seq<LockKey>)
      ensures |locks| == |edges|
      ensures forall j :: 0 <= j < |edges| ==>
        locks[j] == LockKey(spaceId, partId, edges[j].src, edges[j].edgeType, edges[j].ranking, edges[j].dst)
      ensures locks == LockKeys(Current(), partId, edges)
    {
      locks := [];
      for j := 0 to |edges|
        invariant locks == LockKeys(Current(), partId, edges[..j])
      {
        var edgeKey := edges[j];
        locks := locks + [LockKey(spaceId, partId, edgeKey.src, edgeKey.edgeType, edgeKey.ranking, edgeKey.dst)];
      }
      assert edges[..|edges|] == edges;
    }

    /**
     * Plans the batch for one partition's edges, in request order; the first
     * edge that fails aborts the plan with its code.
     */
    method DeleteEdges(partId: PartId, edges: seq<EdgeKey>) returns (r: Result<seq<Op>>, ghost decodes: nat)
      ensures r == PlanEdges(Current(), partId, edges)
      ensures decodes <= |edges|
      ensures r.Success? ==> decodes == DecodeCount(Current(), partId, edges)
    {
      var batch: seq<Op> := [];
      decodes := 0;
      for i := 0 to |edges|
        invariant PlanEdges(Current(), partId, edges[..i]) == Success(batch)
        invariant decodes == DecodeCount(Current(), partId, edges[..i]) && decodes <= i
      {
        assert edges[..i + 1][..i] == edges[..i];
        var next;
        ghost var calls;
        next, calls := DeleteEdge(partId, edges[i], batch);
        decodes := decodes + calls;
        if next.Failure? {
          PlanEdgesFailureExtends(Current(), partId, edges, i + 1);
          return next, decodes;
        }
        batch := next.value;
      }
      assert edges[..|edges|] == edges;
      return Success(batch), decodes;
    }

    /**
     * Appends one edge's operations to `batch`: the removes of its leading
     * lock markers, then, when its current record follows, the record's index
     * operations and its remove, then the removes of the trailing rows.
     * `calls` counts the calls to the row decoder.
     */
    method DeleteEdge(partId: PartId, edge: EdgeKey, batch: seq<Op>) returns (r: Result<seq<Op>>, ghost calls: nat)
      ensures r == Then(Success(batch), PlanEdge(Current(), partId, edge))
      ensures calls == if NeedsDecode(Current(), partId, edge) then 1 else 0
    {
      var prefix := env.edgePrefix(spaceVidLen, partId, edge.src, edge.edgeType, edge.ranking, edge.dst);
      var scan := env.prefix(spaceId, partId, prefix);
      assert scan == ScanOf(Current(), partId, edge);
      calls := 0;
      if scan.code != Succeeded {
        return Failure(scan.code), calls;
      }
      var rows := scan.rows;
      var ops, j := RemoveLeadingLocks(rows, batch);
      ghost var k := j;
      ghost var mid: seq<Op> := [];
      ghost var record := false;
      if j < |rows| && rows[j].kind == EdgeRow {
        var withIndex;
        withIndex, calls := AppendIndexOps(partId, edge, rows[j].value, ops);
        if withIndex.Failure? {
          return withIndex, calls;
        }
        mid := IndexOps(Current(), partId, edge, rows[j].value).value;
        record := true;
        ops := withIndex.value + [Remove(rows[j].key)];
        j := j + 1;
      }
      ghost var head := ops;
      ops := RemoveRemaining(rows, j, ops);
      PlanEdgeParts(Current(), partId, edge, mid);
      AssembleEdgeOps(rows, k, record, batch, mid, head, ops);
      return Success(ops), calls;
    }

    /** Removes the lock markers the scan starts with; `j` is where they end. */
    method RemoveLeadingLocks(rows: seq<Row>, batch: seq<Op>) returns (ops: seq<Op>, j: nat)
      ensures j == LeadingLocks(rows)
      ensures ops == batch + RemoveRows(rows[..j])
    {
      ops := batch;
      j := 0;
      while j < |rows| && rows[j].kind == LockRow
        invariant j <= |rows|
        invariant forall x :: 0 <= x < j ==> rows[x].kind == LockRow
        invariant ops == batch + RemoveRows(rows[..j])
      {
        RemoveRowsSnoc(rows, 0, j);
        assert rows[0..j] == rows[..j] && rows[0..j + 1] == rows[..j + 1];
        ops := ops + [Remove(rows[j].key)];
        j := j + 1;
      }
    }

    /** Removes every row from `j` on, in scan order. */
    method RemoveRemaining(rows: seq<Row>, j: nat, batch: seq<Op>) returns (ops: seq<Op>)
      requires j <= |rows|
      ensures ops == batch + RemoveRows(rows[j..])
    {
      ops := batch;
      var x := j;
      while x < |rows|
        invariant j <= x <= |rows|
        invariant ops == batch + RemoveRows(rows[j..x])
      {
        RemoveRowsSnoc(rows, j, x);
        ops := ops + [Remove(rows[x].key)];
        x := x + 1;
      }
      assert rows[j..x] == rows[j..];
    }

    /**
     * Appends to `batch` the operations of every index over the edge's type,
     * in catalog order, for the edge record with stored value `value`. The
     * record is decoded at the first such index, and only then: `calls`
     * counts the calls to the row decoder.
     */
    method AppendIndexOps(partId: PartId, edge: EdgeKey, value: Bytes, batch: seq<Op>) returns (r: Result<seq<Op>>, ghost calls: nat)
      ensures r == Then(Success(batch), IndexOps(Current(), partId, edge, value))
      ensures calls == if Matching(indexes, edge.edgeType) != [] then 1 else 0
    {
      calls := 0;
      ghost var c := Current();
      ghost var t := edge.edgeType;
      var ops := batch;
      var reader: Option<Props> := None;
      ghost var props: Props := map[];
      ghost var ms: seq<IndexItem> := [];
      assert Matching(indexes[..0], t) == [];
      ThenEmpty(Success(batch));
      for x := 0 to |indexes|
        invariant ms == Matching(indexes[..x], t)
        invariant reader.None? <==> ms == []
        invariant calls == if reader.Some? then 1 else 0
        invariant reader.Some? ==> reader == env.getEdgePropReader(spaceId, t, value) && props == reader.value
        invariant Then(Success(batch), Dispositions(c, partId, edge, ms, props)) == Success(ops)
      {
        var index := indexes[x];
        MatchingStep(indexes, x, t);
        if edge.edgeType != index.edgeType {
          assert ms + [] == ms;
          continue;
        }
        ghost var wasNone := reader.None?;
        var res;
        ghost var decodes;
        reader, res, decodes := VisitCoveringIndex(partId, edge, value, index, reader, ops);
        calls := calls + decodes;
        MatchingPrefixNonEmpty(indexes, x + 1, t);
        if reader.None? {
          return res, calls;
        }
        if wasNone {
          props := reader.value;
          ThenEmpty(Success(batch));
        }
        DispositionsAdvance(c, partId, edge, ms, index, props, batch, ops);
        ms := ms + [index];
        if res.Failure? {
          DispositionsFailureExtends(c, partId, edge, indexes, x + 1, props);
          return res, calls;
        }
        ops := res.value;
      }
      assert indexes[..|indexes|] == indexes;
      return Success(ops), calls;
    }

    /**
     * One index over the edge's type: decodes the record if no earlier index
     * has (`calls` counts the decoder calls), fails with InvalidData when it
     * cannot be decoded, and otherwise appends the index's operations.
     */
    method VisitCoveringIndex(partId: PartId, edge: EdgeKey, value: Bytes, index: IndexItem, reader: Option<Props>, ops: seq<Op>)
      returns (next: Option<Props>, r: Result<seq<Op>>, ghost calls: nat)
      ensures reader.Some? ==> next == reader && calls == 0
      ensures reader.None? ==> next == env.getEdgePropReader(spaceId, edge.edgeType, value) && calls == 1
      ensures next.None? ==> r == Failure(InvalidData)
      ensures next.Some? ==> r == Then(Success(ops), IndexDisposition(Current(), partId, edge, index, next.value))
    {
      next := reader;
      calls := 0;
      if next.None? {
        next := env.getEdgePropReader(spaceId, edge.edgeType, value);
        calls := calls + 1;
        if next.None? {
          return next, Failure(InvalidData), calls;
        }
      }
      r := AppendIndexOp(partId, edge, index, next.value, ops);
    }

    /**
     * Appends what one index over the edge's type contributes: nothing when
     * its field values cannot be collected, else a rebuild-log put while the
     * index is rebuilding, a conflict while it is locked, and otherwise the
     * remove of the edge's index key.
     */
    method AppendIndexOp(partId: PartId, edge: EdgeKey, index: IndexItem, props: Props, ops: seq<Op>) returns (r: Result<seq<Op>>)
      ensures r == Then(Success(ops), IndexDisposition(Current(), partId, edge, index, props))
    {
      var valuesRet := env.collectIndexValues(props, index.fields);
      if valuesRet.None? {
        assert ops + [] == ops;
        return Success(ops);
      }
      var indexKey := env.edgeIndexKey(spaceVidLen, partId, index.indexId, edge.src, edge.ranking, edge.dst, valuesRet.value);
      var indexState := env.getIndexState(spaceId, partId);
      if env.checkRebuilding(indexState) {
        var deleteOpKey := env.deleteOperationKey(partId);
        return Success(ops + [Put(deleteOpKey, indexKey)]);
      } else if env.checkIndexLocked(indexState) {
        return Failure(DataConflict);
      } else {
        return Success(ops + [Remove(indexKey)]);
      }
    }
  }
}
