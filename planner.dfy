/**
 * The batch that `DeleteEdgesProcessor::deleteEdges` plans for one partition,
 * as functions of the planning context, and what is proved about it.
 *
 * Each edge's prefix scan yields leading lock markers, then possibly the
 * current edge record, then trailing rows. Every scanned key is removed in
 * scan order; when the current record exists, the index operations of every
 * index over the edge's type sit between the lock removes and the record's
 * remove.
 */
module DeletePlan {
  import opened StorageTypes

  function Prefix(c: Ctx, part: PartId, e: EdgeKey): Key
  {
    c.env.edgePrefix(c.vidLen, part, e.src, e.edgeType, e.ranking, e.dst)
  }

  function ScanOf(c: Ctx, part: PartId, e: EdgeKey): Scan
  {
    c.env.prefix(c.space, part, Prefix(c, part, e))
  }

  /** The number of lock markers the scan starts with. */
  function LeadingLocks(rows: seq<Row>): (k: nat)
    ensures k <= |rows|
    ensures forall i :: 0 <= i < k ==> rows[i].kind == LockRow
    ensures k < |rows| ==> rows[k].kind != LockRow
  {
    if rows == [] || rows[0].kind != LockRow then 0 else 1 + LeadingLocks(rows[1..])
  }

  /** The indexes over edge type `t`, in catalog order. */
  function Matching(indexes: seq<IndexItem>, t: EdgeType): (ms: seq<IndexItem>)
    ensures |ms| <= |indexes|
    decreases |indexes|
  {
    if indexes == [] then []
    else
      var last := indexes[|indexes| - 1];
      assert indexes == indexes[..|indexes| - 1] + [last];
      Matching(indexes[..|indexes| - 1], t) + (if last.edgeType == t then [last] else [])
  }

  /** The index key of `e` under `index`, or None when its field values cannot be collected. */
  function IndexKeyOf(c: Ctx, part: PartId, e: EdgeKey, index: IndexItem, props: Props): Option<Key>
  {
    match c.env.collectIndexValues(props, index.fields)
    case None => None
    case Some(values) => Some(c.env.edgeIndexKey(c.vidLen, part, index.indexId, e.src, e.ranking, e.dst, values))
  }

  /** What one matching index contributes: nothing, a rebuild-log put, a remove, or a conflict. */
  function IndexDisposition(c: Ctx, part: PartId, e: EdgeKey, index: IndexItem, props: Props): (r: Result<seq<Op>>)
    ensures r.Success? ==> |r.value| <= 1
    ensures r.Success? && r.value != [] ==> IndexKeyOf(c, part, e, index, props).Some?
    ensures r.Failure? ==>
      && r.error == DataConflict
      && IndexKeyOf(c, part, e, index, props).Some?
      && !c.env.checkRebuilding(c.env.getIndexState(c.space, part))
      && c.env.checkIndexLocked(c.env.getIndexState(c.space, part))
  {
    match IndexKeyOf(c, part, e, index, props)
    case None => Success([])
    case Some(indexKey) =>
      var state := c.env.getIndexState(c.space, part);
      if c.env.checkRebuilding(state) then Success([Put(c.env.deleteOperationKey(part), indexKey)])
      else if c.env.checkIndexLocked(state) then Failure(DataConflict)
      else Success([Remove(indexKey)])
  }

  /** The index operations of the matching indexes `ms`, in order, given the decoded row. */
  function Dispositions(c: Ctx, part: PartId, e: EdgeKey, ms: seq<IndexItem>, props: Props): (r: Result<seq<Op>>)
    ensures r.Failure? ==> r.error == DataConflict
    ensures r.Success? ==> |r.value| <= |ms|
    decreases |ms|
  {
    if ms == [] then Success([])
    else Then(Dispositions(c, part, e, ms[..|ms| - 1], props), IndexDisposition(c, part, e, ms[|ms| - 1], props))
  }

  /** The index keys of those indexes in `ms` whose field values can be collected. */
  function CollectedKeys(c: Ctx, part: PartId, e: EdgeKey, ms: seq<IndexItem>, props: Props): (keys: seq<Key>)
    ensures |keys| <= |ms|
    decreases |ms|
  {
    if ms == [] then []
    else
      CollectedKeys(c, part, e, ms[..|ms| - 1], props) +
      match IndexKeyOf(c, part, e, ms[|ms| - 1], props)
      case None => []
      case Some(k) => [k]
  }

  /**
   * The index operations for an edge record with stored value `value`:
   * the row is decoded only when some index covers the edge's type.
   */
  function IndexOps(c: Ctx, part: PartId, e: EdgeKey, value: Bytes): (r: Result<seq<Op>>)
    ensures Matching(c.indexes, e.edgeType) == [] ==> r == Success([])
    ensures r.Failure? ==> r.error == InvalidData || r.error == DataConflict
    ensures r.Success? ==> |r.value| <= |Matching(c.indexes, e.edgeType)|
  {
    var ms := Matching(c.indexes, e.edgeType);
    if ms == [] then Success([])
    else
      match c.env.getEdgePropReader(c.space, e.edgeType, value)
      case None => Failure(InvalidData)
      case Some(props) => Dispositions(c, part, e, ms, props)
  }

  /** The operations one edge adds to the batch. */
  function PlanEdge(c: Ctx, part: PartId, e: EdgeKey): (r: Result<seq<Op>>)
    ensures r.Failure? ==> r.error != Succeeded
    ensures r.Failure? ==> r.error == ScanOf(c, part, e).code || r.error == InvalidData || r.error == DataConflict
  {
    var scan := ScanOf(c, part, e);
    if scan.code != Succeeded then Failure(scan.code)
    else
      var rows := scan.rows;
      var k := LeadingLocks(rows);
      if k < |rows| && rows[k].kind == EdgeRow then
        Then(Then(Success(RemoveRows(rows[..k])), IndexOps(c, part, e, rows[k].value)), Success(RemoveRows(rows[k..])))
      else
        Success(RemoveRows(rows))
  }

  /** The batch for a partition's edges in request order, or the first edge's error. */
  function PlanEdges(c: Ctx, part: PartId, edges: seq<EdgeKey>): (r: Result<seq<Op>>)
    ensures r.Failure? ==> r.error != Succeeded
    decreases |edges|
  {
    if edges == [] then Success([])
    else Then(PlanEdges(c, part, edges[..|edges| - 1]), PlanEdge(c, part, edges[|edges| - 1]))
  }

  /** The scan succeeded and a current edge record follows the lock markers. */
  predicate HasEdgeRecord(c: Ctx, part: PartId, e: EdgeKey)
  {
    var scan := ScanOf(c, part, e);
    var k := LeadingLocks(scan.rows);
    scan.code == Succeeded && k < |scan.rows| && scan.rows[k].kind == EdgeRow
  }

  /**
   * The record test after the lock loop, read without `LeadingLocks`: the
   * scan succeeded and some edge record is preceded only by lock markers.
   */
  lemma EdgeRecordAfterLocks(c: Ctx, part: PartId, e: EdgeKey)
    ensures HasEdgeRecord(c, part, e) <==>
      var scan := ScanOf(c, part, e);
      && scan.code == Succeeded
      && exists j :: 0 <= j < |scan.rows| && scan.rows[j].kind == EdgeRow && forall i :: 0 <= i < j ==> scan.rows[i].kind == LockRow
  {
    var scan := ScanOf(c, part, e);
    var k := LeadingLocks(scan.rows);
    if exists j :: 0 <= j < |scan.rows| && scan.rows[j].kind == EdgeRow && forall i :: 0 <= i < j ==> scan.rows[i].kind == LockRow {
      var j :| 0 <= j < |scan.rows| && scan.rows[j].kind == EdgeRow && forall i :: 0 <= i < j ==> scan.rows[i].kind == LockRow;
      assert scan.rows[j].kind != LockRow;
    }
  }

  /** Planning `e` decodes its row: it has an edge record and some index covers its type. */
  predicate NeedsDecode(c: Ctx, part: PartId, e: EdgeKey)
  {
    HasEdgeRecord(c, part, e) && Matching(c.indexes, e.edgeType) != []
  }

  function DecodeCount(c: Ctx, part: PartId, edges: seq<EdgeKey>): nat
    decreases |edges|
  {
    if edges == [] then 0
    else DecodeCount(c, part, edges[..|edges| - 1]) + (if NeedsDecode(c, part, edges[|edges| - 1]) then 1 else 0)
  }

  // ---------------------------------------------------------------------
  // Index dispositions

  lemma {:induction false} MatchingConcat(a: seq<IndexItem>, b: seq<IndexItem>, t: EdgeType)
    ensures Matching(a + b, t) == Matching(a, t) + Matching(b, t)
    decreases |b|
  {
    if b == [] {
      assert a + b == a;
    } else {
      var b' := b[..|b| - 1];
      assert (a + b)[..|a + b| - 1] == a + b';
      assert (a + b)[|a + b| - 1] == b[|b| - 1];
      MatchingConcat(a, b', t);
    }
  }

  /** The matching indexes are exactly the catalog's indexes over `t`. */
  lemma {:induction false} MatchingMembers(indexes: seq<IndexItem>, t: EdgeType)
    ensures forall m :: m in Matching(indexes, t) <==> m in indexes && m.edgeType == t
    decreases |indexes|
  {
    if indexes != [] {
      var init := indexes[..|indexes| - 1];
      MatchingMembers(init, t);
      assert indexes == init + [indexes[|indexes| - 1]];
    }
  }

  /** An index over `t` in a catalog prefix is an index over `t` in the whole catalog. */
  lemma MatchingPrefixNonEmpty(indexes: seq<IndexItem>, x: nat, t: EdgeType)
    requires x <= |indexes|
    requires Matching(indexes[..x], t) != []
    ensures Matching(indexes, t) != []
  {
    assert indexes == indexes[..x] + indexes[x..];
    MatchingConcat(indexes[..x], indexes[x..], t);
  }

  lemma {:induction false} DispositionsConcat(c: Ctx, part: PartId, e: EdgeKey, a: seq<IndexItem>, b: seq<IndexItem>, props: Props)
    ensures Dispositions(c, part, e, a + b, props) == Then(Dispositions(c, part, e, a, props), Dispositions(c, part, e, b, props))
    decreases |b|
  {
    if b == [] {
      assert a + b == a;
      assert Dispositions(c, part, e, a, props).Success? ==> Dispositions(c, part, e, a, props).value + [] == Dispositions(c, part, e, a, props).value;
    } else {
      var b' := b[..|b| - 1];
      assert (a + b)[..|a + b| - 1] == a + b';
      assert (a + b)[|a + b| - 1] == b[|b| - 1];
      DispositionsConcat(c, part, e, a, b', props);
      ThenAssoc(Dispositions(c, part, e, a, props), Dispositions(c, part, e, b', props), IndexDisposition(c, part, e, b[|b| - 1], props));
    }
  }

  /** One more catalog entry: the matching indexes grow by that entry when it covers `t`. */
  lemma MatchingStep(indexes: seq<IndexItem>, x: nat, t: EdgeType)
    requires x < |indexes|
    ensures Matching(indexes[..x + 1], t) == Matching(indexes[..x], t) + (if indexes[x].edgeType == t then [indexes[x]] else [])
  {
    assert indexes[..x + 1][..x] == indexes[..x];
  }

  /**
   * A batch that ends with the dispositions of the indexes `ms`, extended by
   * the disposition of one more index `m`.
   */
  lemma DispositionsAdvance(c: Ctx, part: PartId, e: EdgeKey, ms: seq<IndexItem>, m: IndexItem, props: Props,
                            batch: seq<Op>, ops: seq<Op>)
    requires Then(Success(batch), Dispositions(c, part, e, ms, props)) == Success(ops)
    ensures Then(Success(batch), Dispositions(c, part, e, ms + [m], props)) ==
      Then(Success(ops), IndexDisposition(c, part, e, m, props))
  {
    assert (ms + [m])[..|ms|] == ms;
    ThenAssoc(Success(batch), Dispositions(c, part, e, ms, props), IndexDisposition(c, part, e, m, props));
  }

  /** A conflict on a catalog prefix is the conflict of the whole catalog. */
  lemma DispositionsFailureExtends(c: Ctx, part: PartId, e: EdgeKey, indexes: seq<IndexItem>, x: nat, props: Props)
    requires x <= |indexes|
    requires Dispositions(c, part, e, Matching(indexes[..x], e.edgeType), props).Failure?
    ensures Dispositions(c, part, e, Matching(indexes, e.edgeType), props) == Dispositions(c, part, e, Matching(indexes[..x], e.edgeType), props)
  {
    assert indexes == indexes[..x] + indexes[x..];
    MatchingConcat(indexes[..x], indexes[x..], e.edgeType);
    DispositionsConcat(c, part, e, Matching(indexes[..x], e.edgeType), Matching(indexes[x..], e.edgeType), props);
  }

  /**
   * The index operations by index state: while rebuilding (checked first),
   * one rebuild-log put per collected key and no direct remove; otherwise a
   * locked state with any collected key is a conflict; otherwise one remove
   * per collected key. Indexes whose values cannot be collected add nothing.
   */
  lemma {:induction false} DispositionsByState(c: Ctx, part: PartId, e: EdgeKey, ms: seq<IndexItem>, props: Props)
    ensures
      var keys := CollectedKeys(c, part, e, ms, props);
      var state := c.env.getIndexState(c.space, part);
      Dispositions(c, part, e, ms, props) ==
        if c.env.checkRebuilding(state) then Success(PutKeys(c.env.deleteOperationKey(part), keys))
        else if c.env.checkIndexLocked(state) && keys != [] then Failure(DataConflict)
        else Success(RemoveKeys(keys))
    decreases |ms|
  {
    if ms != [] {
      var init := ms[..|ms| - 1];
      DispositionsByState(c, part, e, init, props);
      var keys0 := CollectedKeys(c, part, e, init, props);
      var del := c.env.deleteOperationKey(part);
      match IndexKeyOf(c, part, e, ms[|ms| - 1], props)
      case None =>
        ThenEmpty(Dispositions(c, part, e, init, props));
        assert CollectedKeys(c, part, e, ms, props) == keys0;
      case Some(k) =>
        assert CollectedKeys(c, part, e, ms, props) == keys0 + [k];
        assert PutKeys(del, keys0 + [k]) == PutKeys(del, keys0) + [Put(del, k)];
        assert RemoveKeys(keys0 + [k]) == RemoveKeys(keys0) + [Remove(k)];
    } else {
      assert PutKeys(c.env.deleteOperationKey(part), []) == [];
      assert RemoveKeys([]) == [];
    }
  }

  /** An index whose field values cannot be collected is skipped: it adds no operation and no error. */
  lemma SkippedIndexAddsNothing(c: Ctx, part: PartId, e: EdgeKey, a: seq<IndexItem>, m: IndexItem, b: seq<IndexItem>, props: Props)
    requires c.env.collectIndexValues(props, m.fields).None?
    ensures Dispositions(c, part, e, a + [m] + b, props) == Dispositions(c, part, e, a + b, props)
  {
    DispositionsConcat(c, part, e, a + [m], b, props);
    DispositionsConcat(c, part, e, a, [m], props);
    DispositionsConcat(c, part, e, a, b, props);
    assert [m][..0] == [];
    var da := Dispositions(c, part, e, a, props);
    assert da.Success? ==> da.value + [] == da.value;
  }

  /** With some index over the edge's type, an undecodable edge record fails the edge with InvalidData. */
  lemma UndecodableRecordIsInvalidData(c: Ctx, part: PartId, e: EdgeKey)
    requires HasEdgeRecord(c, part, e)
    requires exists m :: m in c.indexes && m.edgeType == e.edgeType
    requires
      var rows := ScanOf(c, part, e).rows;
      c.env.getEdgePropReader(c.space, e.edgeType, rows[LeadingLocks(rows)].value).None?
    ensures PlanEdge(c, part, e) == Failure(InvalidData)
  {
    var m :| m in c.indexes && m.edgeType == e.edgeType;
    MatchingMembers(c.indexes, e.edgeType);
    assert m in Matching(c.indexes, e.edgeType);
  }

  /** An index over another edge type changes nothing: the catalog without it yields the same operations. */
  lemma ForeignIndexIsIgnored(c: Ctx, part: PartId, e: EdgeKey, value: Bytes, a: seq<IndexItem>, m: IndexItem, b: seq<IndexItem>)
    requires m.edgeType != e.edgeType
    ensures IndexOps(c.(indexes := a + [m] + b), part, e, value) == IndexOps(c.(indexes := a + b), part, e, value)
  {
    var t := e.edgeType;
    MatchingConcat(a + [m], b, t);
    MatchingConcat(a, [m], t);
    MatchingConcat(a, b, t);
    assert [m][..0] == [];
    assert Matching([m], t) == [];
    assert Matching(a + [m] + b, t) == Matching(a, t) + [] + Matching(b, t);
    assert Matching(a, t) + [] == Matching(a, t);
    var reader := c.env.getEdgePropReader(c.space, t, value);
    if reader.Some? {
      DispositionsIgnoreCatalog(c.(indexes := a + [m] + b), c.(indexes := a + b), part, e, Matching(a + b, t), reader.value);
    }
  }

  /** The dispositions of given indexes do not depend on the rest of the catalog. */
  lemma {:induction false} DispositionsIgnoreCatalog(c: Ctx, d: Ctx, part: PartId, e: EdgeKey, ms: seq<IndexItem>, props: Props)
    requires c.env == d.env && c.space == d.space && c.vidLen == d.vidLen
    ensures Dispositions(c, part, e, ms, props) == Dispositions(d, part, e, ms, props)
    decreases |ms|
  {
    if ms != [] {
      DispositionsIgnoreCatalog(c, d, part, e, ms[..|ms| - 1], props);
    }
  }

  /**
   * A locked index state aborts the edge with DataConflict as soon as one
   * index over the edge's type yields a key, unless the state is rebuilding.
   */
  lemma LockedIndexAbortsEdge(c: Ctx, part: PartId, e: EdgeKey, props: Props)
    requires HasEdgeRecord(c, part, e)
    requires
      var rows := ScanOf(c, part, e).rows;
      c.env.getEdgePropReader(c.space, e.edgeType, rows[LeadingLocks(rows)].value) == Some(props)
    requires CollectedKeys(c, part, e, Matching(c.indexes, e.edgeType), props) != []
    requires !c.env.checkRebuilding(c.env.getIndexState(c.space, part))
    requires c.env.checkIndexLocked(c.env.getIndexState(c.space, part))
    ensures PlanEdge(c, part, e) == Failure(DataConflict)
  {
    DispositionsByState(c, part, e, Matching(c.indexes, e.edgeType), props);
  }

  // ---------------------------------------------------------------------
  // One edge

  // The removes of runs of scanned rows, used to assemble one edge's operations.

  lemma RemoveRowsSnoc(rows: seq<Row>, i: nat, j: nat)
    requires i <= j < |rows|
    ensures RemoveRows(rows[i..j + 1]) == RemoveRows(rows[i..j]) + [Remove(rows[j].key)]
  {
  }

  lemma RemoveRowsCons(rows: seq<Row>, k: nat)
    requires k < |rows|
    ensures RemoveRows(rows[k..]) == [Remove(rows[k].key)] + RemoveRows(rows[k + 1..])
  {
  }

  /**
   * The operations of one edge put together: `head` holds the batch so far,
   * the lock removes, the index operations `mid` and, when a record follows
   * the locks, its remove; `ops` adds the removes of the rows after that.
   */
  lemma AssembleEdgeOps(rows: seq<Row>, k: nat, record: bool, batch: seq<Op>, mid: seq<Op>, head: seq<Op>, ops: seq<Op>)
    requires k <= |rows| && (record ==> k < |rows|) && (!record ==> mid == [])
    requires head == batch + RemoveRows(rows[..k]) + mid + (if record then [Remove(rows[k].key)] else [])
    requires ops == head + RemoveRows(rows[if record then k + 1 else k..])
    ensures ops == batch + (RemoveRows(rows[..k]) + mid + RemoveRows(rows[k..]))
  {
    if record {
      RemoveRowsCons(rows, k);
    }
  }

  lemma RemoveRowsSplit(rows: seq<Row>, k: nat)
    requires k <= |rows|
    ensures RemoveRows(rows[..k]) + RemoveRows(rows[k..]) == RemoveRows(rows)
  {
  }

  /**
   * The operations for one edge: cutting out the index operations, which
   * follow the leading lock-marker removes and exist only when a current
   * edge record follows them, leaves exactly one remove per scanned key, in
   * scan order.
   */
  lemma EdgeRowsRemovedInScanOrder(c: Ctx, part: PartId, e: EdgeKey)
    requires PlanEdge(c, part, e).Success?
    ensures
      var rows := ScanOf(c, part, e).rows;
      var ops := PlanEdge(c, part, e).value;
      var k := LeadingLocks(rows);
      var n := |ops| - |rows|;
      && 0 <= n <= |Matching(c.indexes, e.edgeType)|
      && ops[..k] + ops[k + n..] == RemoveRows(rows)
      && (n > 0 ==> k < |rows| && rows[k].kind == EdgeRow)
      && (k < |rows| && rows[k].kind == EdgeRow ==> IndexOps(c, part, e, rows[k].value) == Success(ops[k..k + n]))
  {
    var rows := ScanOf(c, part, e).rows;
    var ops := PlanEdge(c, part, e).value;
    var k := LeadingLocks(rows);
    if k < |rows| && rows[k].kind == EdgeRow {
      var iops := IndexOps(c, part, e, rows[k].value).value;
      assert ops == RemoveRows(rows[..k]) + iops + RemoveRows(rows[k..]);
      assert ops[..k] == RemoveRows(rows[..k]);
      assert ops[k..k + |iops|] == iops;
      assert ops[k + |iops|..] == RemoveRows(rows[k..]);
      RemoveRowsSplit(rows, k);
    } else {
      assert ops[..k] + ops[k..] == ops;
    }
  }

  /** The operations for one edge, from its index operations `mid` (empty when it has no edge record). */
  lemma PlanEdgeParts(c: Ctx, part: PartId, e: EdgeKey, mid: seq<Op>)
    requires ScanOf(c, part, e).code == Succeeded
    requires
      var rows := ScanOf(c, part, e).rows;
      HasEdgeRecord(c, part, e) ==> IndexOps(c, part, e, rows[LeadingLocks(rows)].value) == Success(mid)
    requires !HasEdgeRecord(c, part, e) ==> mid == []
    ensures
      var rows := ScanOf(c, part, e).rows;
      var k := LeadingLocks(rows);
      PlanEdge(c, part, e) == Success(RemoveRows(rows[..k]) + mid + RemoveRows(rows[k..]))
  {
    var rows := ScanOf(c, part, e).rows;
    var k := LeadingLocks(rows);
    if !HasEdgeRecord(c, part, e) {
      RemoveRowsSplit(rows, k);
      assert RemoveRows(rows[..k]) + mid == RemoveRows(rows[..k]);
    }
  }

  /**
   * An edge fails exactly when its prefix scan fails, with the scan's code,
   * or when the index operations of its current record fail, with theirs.
   */
  lemma PlanEdgeFailure(c: Ctx, part: PartId, e: EdgeKey)
    ensures ScanOf(c, part, e).code != Succeeded ==> PlanEdge(c, part, e) == Failure(ScanOf(c, part, e).code)
    ensures ScanOf(c, part, e).code == Succeeded ==>
      var rows := ScanOf(c, part, e).rows;
      && (PlanEdge(c, part, e).Failure? <==> HasEdgeRecord(c, part, e) && IndexOps(c, part, e, rows[LeadingLocks(rows)].value).Failure?)
      && (PlanEdge(c, part, e).Failure? ==> PlanEdge(c, part, e) == IndexOps(c, part, e, rows[LeadingLocks(rows)].value))
  {
  }

  /** An edge with no stored rows adds nothing to the batch. */
  lemma AbsentEdgeIsNoOp(c: Ctx, part: PartId, e: EdgeKey)
    requires ScanOf(c, part, e) == Scan(Succeeded, [])
    ensures PlanEdge(c, part, e) == Success([])
  {
    assert RemoveRows([]) == [];
  }

  /**
   * A record behind one lock marker, with two indexes over its type whose
   * values collect and whose state is neither rebuilding nor locked: the
   * lock is removed, then both index keys in catalog order, then the record.
   */
  lemma LockedRecordWithTwoIndexes(c: Ctx, part: PartId, e: EdgeKey, lock: Key, record: Key, value: Bytes,
                                   i1: IndexItem, i2: IndexItem, props: Props, v1: seq<Bytes>, v2: seq<Bytes>)
    requires ScanOf(c, part, e) == Scan(Succeeded, [Row(LockRow, lock, []), Row(EdgeRow, record, value)])
    requires c.indexes == [i1, i2] && i1.edgeType == e.edgeType && i2.edgeType == e.edgeType
    requires c.env.getEdgePropReader(c.space, e.edgeType, value) == Some(props)
    requires c.env.collectIndexValues(props, i1.fields) == Some(v1)
    requires c.env.collectIndexValues(props, i2.fields) == Some(v2)
    requires !c.env.checkRebuilding(c.env.getIndexState(c.space, part))
    requires !c.env.checkIndexLocked(c.env.getIndexState(c.space, part))
    ensures PlanEdge(c, part, e) == Success([
      Remove(lock),
      Remove(c.env.edgeIndexKey(c.vidLen, part, i1.indexId, e.src, e.ranking, e.dst, v1)),
      Remove(c.env.edgeIndexKey(c.vidLen, part, i2.indexId, e.src, e.ranking, e.dst, v2)),
      Remove(record)])
  {
    var rows := [Row(LockRow, lock, []), Row(EdgeRow, record, value)];
    var k1 := c.env.edgeIndexKey(c.vidLen, part, i1.indexId, e.src, e.ranking, e.dst, v1);
    var k2 := c.env.edgeIndexKey(c.vidLen, part, i2.indexId, e.src, e.ranking, e.dst, v2);
    assert LeadingLocks(rows[1..]) == 0;
    assert LeadingLocks(rows) == 1;
    assert [i1, i2][..1] == [i1];
    assert [i1][..0] == [];
    assert Matching([i1], e.edgeType) == [i1];
    assert Matching(c.indexes, e.edgeType) == [i1, i2];
    assert IndexDisposition(c, part, e, i1, props) == Success([Remove(k1)]);
    assert IndexDisposition(c, part, e, i2, props) == Success([Remove(k2)]);
    assert Dispositions(c, part, e, [i1][..0], props) == Success([]);
    ThenEmpty(Success([Remove(k1)]));
    assert Dispositions(c, part, e, [i1], props) == Success([Remove(k1)]);
    assert [Remove(k1)] + [Remove(k2)] == [Remove(k1), Remove(k2)];
    assert Dispositions(c, part, e, [i1, i2], props) == Then(Dispositions(c, part, e, [i1], props), IndexDisposition(c, part, e, i2, props));
    assert Dispositions(c, part, e, [i1, i2], props) == Success([Remove(k1), Remove(k2)]);
    assert IndexOps(c, part, e, value) == Success([Remove(k1), Remove(k2)]);
    assert RemoveRows(rows[..1]) == [Remove(lock)];
    assert RemoveRows(rows[1..]) == [Remove(record)];
    assert [Remove(lock)] + [Remove(k1), Remove(k2)] + [Remove(record)] == [Remove(lock), Remove(k1), Remove(k2), Remove(record)];
  }

  // ---------------------------------------------------------------------
  // The whole partition

  /** The batch of a request is the batches of its parts in request order; the earlier error wins. */
  lemma {:induction false} PlanEdgesConcat(c: Ctx, part: PartId, a: seq<EdgeKey>, b: seq<EdgeKey>)
    ensures PlanEdges(c, part, a + b) == Then(PlanEdges(c, part, a), PlanEdges(c, part, b))
    decreases |b|
  {
    if b == [] {
      assert a + b == a;
      assert PlanEdges(c, part, a).Success? ==> PlanEdges(c, part, a).value + [] == PlanEdges(c, part, a).value;
    } else {
      var b' := b[..|b| - 1];
      assert (a + b)[..|a + b| - 1] == a + b';
      assert (a + b)[|a + b| - 1] == b[|b| - 1];
      PlanEdgesConcat(c, part, a, b');
      ThenAssoc(PlanEdges(c, part, a), PlanEdges(c, part, b'), PlanEdge(c, part, b[|b| - 1]));
    }
  }

  /** Every edge before position `i` plans successfully. */
  predicate SucceedsBefore(c: Ctx, part: PartId, edges: seq<EdgeKey>, i: nat)
    requires i <= |edges|
  {
    forall j :: 0 <= j < i ==> PlanEdge(c, part, edges[j]).Success?
  }

  /**
   * Planning fails exactly when some edge fails, and then with the error of
   * the first failing edge in request order.
   */
  lemma {:induction false} PlanEdgesFirstFailure(c: Ctx, part: PartId, edges: seq<EdgeKey>)
    ensures PlanEdges(c, part, edges).Success? <==> SucceedsBefore(c, part, edges, |edges|)
    ensures PlanEdges(c, part, edges).Failure? ==>
      exists i :: 0 <= i < |edges| && PlanEdge(c, part, edges[i]) == PlanEdges(c, part, edges) && SucceedsBefore(c, part, edges, i)
    decreases |edges|
  {
    if edges != [] {
      var n := |edges| - 1;
      var init := edges[..n];
      PlanEdgesFirstFailure(c, part, init);
      assert forall i :: 0 <= i < n ==> init[i] == edges[i];
      assert forall i :: 0 <= i <= n ==> (SucceedsBefore(c, part, init, i) <==> SucceedsBefore(c, part, edges, i));
      if PlanEdges(c, part, init).Failure? {
        var i :| 0 <= i < n && PlanEdge(c, part, init[i]) == PlanEdges(c, part, init) && SucceedsBefore(c, part, init, i);
        assert PlanEdge(c, part, edges[i]) == PlanEdges(c, part, edges);
      }
    }
  }

  /** An error while planning a prefix of the edges is the error of the whole plan. */
  lemma PlanEdgesFailureExtends(c: Ctx, part: PartId, edges: seq<EdgeKey>, n: nat)
    requires n <= |edges|
    requires PlanEdges(c, part, edges[..n]).Failure?
    ensures PlanEdges(c, part, edges) == PlanEdges(c, part, edges[..n])
  {
    assert edges == edges[..n] + edges[n..];
    PlanEdgesConcat(c, part, edges[..n], edges[n..]);
  }

  /** Deleting only edges that have no stored rows plans an empty batch. */
  lemma {:induction false} AbsentEdgesPlanEmptyBatch(c: Ctx, part: PartId, edges: seq<EdgeKey>)
    requires forall i :: 0 <= i < |edges| ==> ScanOf(c, part, edges[i]) == Scan(Succeeded, [])
    ensures PlanEdges(c, part, edges) == Success([])
    decreases |edges|
  {
    if edges != [] {
      var init := edges[..|edges| - 1];
      assert forall i :: 0 <= i < |init| ==> init[i] == edges[i];
      AbsentEdgesPlanEmptyBatch(c, part, init);
      AbsentEdgeIsNoOp(c, part, edges[|edges| - 1]);
      ThenEmpty(Success([]));
    }
  }
}
