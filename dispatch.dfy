/**
 * What `DeleteEdgesProcessor::process` decides for each partition of a
 * request, as functions, and what is proved about it: metadata failures
 * reach every partition, the direct-removal path when the space has no edge
 * index, the planning path otherwise, and the isolation of partitions.
 */
module PartitionDispatch {
  import opened StorageTypes
  import opened DeletePlan

  function EdgeKeyOf(c: Ctx, part: PartId, e: EdgeKey): Key
  {
    c.env.edgeKey(c.vidLen, part, e.src, e.edgeType, e.ranking, e.dst)
  }

  predicate ValidVids(c: Ctx, e: EdgeKey)
  {
    c.env.isValidVidLen(c.vidLen, e.src, e.dst)
  }

  /**
   * The keys removed directly for a partition when the space has no edge
   * index: the edge keys in request order, or InvalidVid when any edge has a
   * vertex id of the wrong length.
   */
  function DirectRemoveKeys(c: Ctx, part: PartId, edges: seq<EdgeKey>): (r: Result<seq<Key>>)
    ensures r.Failure? <==> exists i :: 0 <= i < |edges| && !ValidVids(c, edges[i])
    ensures r.Failure? ==> r.error == InvalidVid
    ensures r.Success? ==> |r.value| == |edges| && forall i :: 0 <= i < |edges| ==> r.value[i] == EdgeKeyOf(c, part, edges[i])
    decreases |edges|
  {
    if edges == [] then Success([])
    else
      var init := edges[..|edges| - 1];
      var last := edges[|edges| - 1];
      assert forall i :: 0 <= i < |init| ==> init[i] == edges[i];
      match DirectRemoveKeys(c, part, init)
      case Failure(err) => Failure(err)
      case Success(keys) =>
        if !ValidVids(c, last) then Failure(InvalidVid) else Success(keys + [EdgeKeyOf(c, part, last)])
  }

  /** The lock keys of a partition's edges, one per edge in request order. */
  function LockKeys(c: Ctx, part: PartId, edges: seq<EdgeKey>): (locks: seq<LockKey>)
    ensures |locks| == |edges|
    ensures forall i :: 0 <= i < |edges| ==> locks[i].space == c.space && locks[i].part == part
  {
    seq(|edges|, i requires 0 <= i < |edges| => LockKey(c.space, part, edges[i].src, edges[i].edgeType, edges[i].ranking, edges[i].dst))
  }

  /** A partition's result code, and what was handed to the store for it, if anything. */
  datatype PartOutcome = PartOutcome(code: Code, submission: Option<Submission>)

  /** The outcome of one partition once the space's vid length and indexes are known. */
  function Dispatch(c: Ctx, part: PartId, edges: seq<EdgeKey>): (o: PartOutcome)
  {
    if c.indexes == [] then DirectOutcome(c, part, edges) else IndexedOutcome(c, part, edges)
  }

  /** Without edge indexes: the edge keys go to the store's multi-remove. */
  function DirectOutcome(c: Ctx, part: PartId, edges: seq<EdgeKey>): (o: PartOutcome)
    ensures o.submission.None? ==> o.code == InvalidVid
    ensures o.submission.Some? ==> o.submission.value.MultiRemove? && o.submission.value.part == part
  {
    match DirectRemoveKeys(c, part, edges)
    case Failure(err) => PartOutcome(err, None)
    case Success(keys) => PartOutcome(c.env.asyncMultiRemove(c.space, part, keys), Some(MultiRemove(part, keys)))
  }

  /** With edge indexes: the planned batch is appended once the edge locks are taken. */
  function IndexedOutcome(c: Ctx, part: PartId, edges: seq<EdgeKey>): (o: PartOutcome)
    ensures o.submission.None? ==> o.code != Succeeded
    ensures o.submission.Some? ==> o.submission.value.AppendBatch? && o.submission.value.part == part
  {
    match PlanEdges(c, part, edges)
    case Failure(err) => PartOutcome(err, None)
    case Success(batch) =>
      if !c.env.lockEdges(LockKeys(c, part, edges)) then PartOutcome(DataConflict, None)
      else PartOutcome(c.env.asyncAppendBatch(c.space, part, batch), Some(AppendBatch(part, batch)))
  }

  /**
   * A partition that submits nothing reports an error; a submission carries
   * the partition's own id.
   */
  lemma DispatchOutcome(c: Ctx, part: PartId, edges: seq<EdgeKey>)
    ensures Dispatch(c, part, edges).submission.None? ==> Dispatch(c, part, edges).code != Succeeded
    ensures Dispatch(c, part, edges).submission.Some? ==> Dispatch(c, part, edges).submission.value.part == part
  {
  }

  /** What a partition outcome hands to the store: nothing or its one submission. */
  function Submitted(o: PartOutcome): seq<Submission>
  {
    match o.submission
    case None => []
    case Some(s) => [s]
  }

  function PartIds(parts: seq<PartEdges>): set<PartId>
  {
    set i | 0 <= i < |parts| :: parts[i].part
  }

  /** The request's partitions are the keys of a map: no partition appears twice. */
  predicate DistinctParts(parts: seq<PartEdges>)
  {
    forall i, j :: 0 <= i < j < |parts| ==> parts[i].part != parts[j].part
  }

  /** The same code for every partition of the request. */
  function Broadcast(parts: seq<PartEdges>, code: Code): (m: map<PartId, Code>)
    ensures m.Keys == PartIds(parts)
    ensures forall p :: p in m ==> m[p] == code
    decreases |parts|
  {
    if parts == [] then map[]
    else
      var init := parts[..|parts| - 1];
      assert PartIds(parts) == PartIds(init) + {parts[|parts| - 1].part} by {
        assert forall i :: 0 <= i < |init| ==> init[i] == parts[i];
      }
      Broadcast(init, code)[parts[|parts| - 1].part := code]
  }

  /** Each partition's code, in the order the partitions are visited. */
  function Codes(c: Ctx, parts: seq<PartEdges>): (m: map<PartId, Code>)
    ensures m.Keys == PartIds(parts)
    decreases |parts|
  {
    if parts == [] then map[]
    else
      var init := parts[..|parts| - 1];
      var last := parts[|parts| - 1];
      assert PartIds(parts) == PartIds(init) + {last.part} by {
        assert forall i :: 0 <= i < |init| ==> init[i] == parts[i];
      }
      Codes(c, init)[last.part := Dispatch(c, last.part, last.edges).code]
  }

  /** What is handed to the store, partition by partition, in the order they are visited. */
  function Submissions(c: Ctx, parts: seq<PartEdges>): (subs: seq<Submission>)
    decreases |parts|
  {
    if parts == [] then []
    else
      var last := parts[|parts| - 1];
      Submissions(c, parts[..|parts| - 1]) + Submitted(Dispatch(c, last.part, last.edges))
  }

  /** The result codes of a whole request. */
  function ExpectedCodes(env: Env, space: SpaceId, parts: seq<PartEdges>): (m: map<PartId, Code>)
    ensures m.Keys == PartIds(parts)
  {
    match env.getSpaceVidLen(space)
    case None => Broadcast(parts, InvalidSpaceVidLen)
    case Some(vidLen) =>
      match env.getEdgeIndexes(space)
      case None => Broadcast(parts, SpaceNotFound)
      case Some(indexes) => Codes(Ctx(env, space, vidLen, indexes), parts)
  }

  /** Everything a whole request hands to the store. */
  function ExpectedSubmissions(env: Env, space: SpaceId, parts: seq<PartEdges>): (subs: seq<Submission>)
    ensures env.getSpaceVidLen(space).None? || env.getEdgeIndexes(space).None? ==> subs == []
  {
    match env.getSpaceVidLen(space)
    case None => []
    case Some(vidLen) =>
      match env.getEdgeIndexes(space)
      case None => []
      case Some(indexes) => Submissions(Ctx(env, space, vidLen, indexes), parts)
  }

  // ---------------------------------------------------------------------

  /**
   * A failed vid-length lookup gives every partition InvalidSpaceVidLen, a
   * failed index lookup every partition SpaceNotFound; nothing reaches the store.
   */
  lemma MetadataFailureReachesEveryPartition(env: Env, space: SpaceId, parts: seq<PartEdges>)
    requires env.getSpaceVidLen(space).None? || env.getEdgeIndexes(space).None?
    ensures ExpectedSubmissions(env, space, parts) == []
    ensures ExpectedCodes(env, space, parts).Keys == PartIds(parts)
    ensures forall p :: p in ExpectedCodes(env, space, parts) ==>
      ExpectedCodes(env, space, parts)[p] == if env.getSpaceVidLen(space).None? then InvalidSpaceVidLen else SpaceNotFound
  {
  }

  /**
   * Every partition gets exactly the code its own edges determine, whatever
   * the other partitions hold.
   */
  lemma {:induction false} PartitionIsolation(c: Ctx, parts: seq<PartEdges>, i: nat)
    requires DistinctParts(parts)
    requires i < |parts|
    ensures parts[i].part in Codes(c, parts)
    ensures Codes(c, parts)[parts[i].part] == Dispatch(c, parts[i].part, parts[i].edges).code
    decreases |parts|
  {
    var n := |parts| - 1;
    if i < n {
      var init := parts[..n];
      assert init[i] == parts[i];
      assert DistinctParts(init);
      PartitionIsolation(c, init, i);
      assert parts[i].part != parts[n].part;
    }
  }

  /**
   * Without indexes: a partition holding an edge whose vertex ids have the
   * wrong length gets InvalidVid and submits nothing; otherwise it removes
   * its edge keys in request order and gets the store's code.
   */
  lemma DirectRemovalOutcome(c: Ctx, part: PartId, edges: seq<EdgeKey>)
    requires c.indexes == []
    ensures (exists i :: 0 <= i < |edges| && !ValidVids(c, edges[i])) ==>
      Dispatch(c, part, edges) == PartOutcome(InvalidVid, None)
    ensures (forall i :: 0 <= i < |edges| ==> ValidVids(c, edges[i])) ==>
      var keys := seq(|edges|, i requires 0 <= i < |edges| => EdgeKeyOf(c, part, edges[i]));
      Dispatch(c, part, edges) == PartOutcome(c.env.asyncMultiRemove(c.space, part, keys), Some(MultiRemove(part, keys)))
  {
    var r := DirectRemoveKeys(c, part, edges);
    if r.Success? {
      assert r.value == seq(|edges|, i requires 0 <= i < |edges| => EdgeKeyOf(c, part, edges[i]));
    }
  }

  /**
   * With indexes: no vertex-id length is checked; the partition submits its
   * planned batch exactly when planning succeeds and the edge locks are
   * acquired. A planning error is the partition's code; a lock conflict gives
   * DataConflict; otherwise the code is the commit's.
   */
  lemma IndexedDeletionOutcome(c: Ctx, part: PartId, edges: seq<EdgeKey>)
    requires c.indexes != []
    ensures var o := Dispatch(c, part, edges);
      && (o.submission.Some? <==> PlanEdges(c, part, edges).Success? && c.env.lockEdges(LockKeys(c, part, edges)))
      && (PlanEdges(c, part, edges).Failure? ==> o.code == PlanEdges(c, part, edges).error)
      && (PlanEdges(c, part, edges).Success? && !c.env.lockEdges(LockKeys(c, part, edges)) ==> o.code == DataConflict)
      && (o.submission.Some? ==>
            o.submission == Some(AppendBatch(part, PlanEdges(c, part, edges).value)) &&
            o.code == c.env.asyncAppendBatch(c.space, part, PlanEdges(c, part, edges).value))
  {
  }

  /**
   * Nothing reaches the store but the partitions' own submissions, one at
   * most per partition, each carrying its partition's id.
   */
  lemma {:induction false} SubmissionsPerPartition(c: Ctx, parts: seq<PartEdges>)
    ensures |Submissions(c, parts)| <= |parts|
    ensures forall s :: s in Submissions(c, parts) ==>
      exists i :: 0 <= i < |parts| && Dispatch(c, parts[i].part, parts[i].edges).submission == Some(s) && s.part == parts[i].part
    decreases |parts|
  {
    if parts != [] {
      var init := parts[..|parts| - 1];
      SubmissionsPerPartition(c, init);
      assert forall i :: 0 <= i < |init| ==> init[i] == parts[i];
    }
  }

  /**
   * A partition whose own outcome submits reaches the store, whatever the
   * other partitions of the request do.
   */
  lemma {:induction false} EverySubmissionReachesStore(c: Ctx, parts: seq<PartEdges>, i: nat)
    requires i < |parts|
    ensures Dispatch(c, parts[i].part, parts[i].edges).submission.Some? ==>
      Dispatch(c, parts[i].part, parts[i].edges).submission.value in Submissions(c, parts)
    decreases |parts|
  {
    var n := |parts| - 1;
    var init := parts[..n];
    var last := Dispatch(c, parts[n].part, parts[n].edges);
    assert Submissions(c, parts) == Submissions(c, init) + Submitted(last);
    if i < n {
      assert init[i] == parts[i];
      EverySubmissionReachesStore(c, init, i);
    } else {
      SubmittedIsLast(Submissions(c, init), last);
    }
  }

  /** An outcome's own submission is in any sequence that ends with what it submits. */
  lemma SubmittedIsLast(subs: seq<Submission>, o: PartOutcome)
    ensures o.submission.Some? ==> o.submission.value in subs + Submitted(o)
  {
    if o.submission.Some? {
      assert (subs + Submitted(o))[|subs|] == o.submission.value;
    }
  }

  /** With the partitions of a request distinct, no two submissions are for the same partition. */
  lemma {:induction false} SubmissionsDistinctParts(c: Ctx, parts: seq<PartEdges>)
    requires DistinctParts(parts)
    ensures forall i, j :: 0 <= i < j < |Submissions(c, parts)| ==> Submissions(c, parts)[i].part != Submissions(c, parts)[j].part
    decreases |parts|
  {
    if parts != [] {
      var n := |parts| - 1;
      var init := parts[..n];
      assert forall i :: 0 <= i < n ==> init[i] == parts[i];
      assert DistinctParts(init);
      SubmissionsDistinctParts(c, init);
      SubmissionsPerPartition(c, init);
      var subs0 := Submissions(c, init);
      forall s | s in subs0
        ensures s.part != parts[n].part
      {
        var i :| 0 <= i < n && Dispatch(c, init[i].part, init[i].edges).submission == Some(s) && s.part == init[i].part;
        assert s.part == parts[i].part;
      }
      var subs := Submissions(c, parts);
      assert subs == subs0 + Submitted(Dispatch(c, parts[n].part, parts[n].edges));
      forall i, j | 0 <= i < j < |subs|
        ensures subs[i].part != subs[j].part
      {
        if j >= |subs0| {
          assert subs[i] in subs0;
        }
      }
    }
  }
}
