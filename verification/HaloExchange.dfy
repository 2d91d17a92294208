/** The three transports of the baselines; each leaves exactly the planned rows in the halo. */
module HaloExchange {
  import opened Csr
  import opened Serial
  import opened Partition
  import opened RowPlan
  import opened Slots
  import opened Halo

  /** The stretch of the two arrays that holds a row. */
  lemma StoredSlices(local: CsrMatrix, r: nat, first: nat, last: nat, row: Row)
    requires Shaped(local) && r < local.rows && row == RowOf(local, r) && first == local.rowPtr[r] && last == local.rowPtr[r + 1]
    ensures first <= last <= |local.columnIndices| == |local.values| && |row| == last - first
    ensures local.columnIndices[first..last] == Columns(row) && local.values[first..last] == Values(row)
  {
    hide RowOf;
    RowExtent(local, r);
    forall p | first <= p < last ensures row[p - first] == Entry(local.columnIndices[p], local.values[p]) {
      RowOfAt(local, r, p);
    }
    forall q | 0 <= q < |row| ensures row[q] == Entry(local.columnIndices[first + q], local.values[first + q]) {
      assert row[first + q - first] == Entry(local.columnIndices[first + q], local.values[first + q]);
    }
  }

  /** The stored arrays of one local row. */
  method LocalSparseRow(local: CsrMatrix, r: nat, ghost row: Row) returns (columns: seq<int>, values: seq<Value>)
    requires Shaped(local) && r < local.rows && row == RowOf(local, r)
    ensures columns == Columns(row) && values == Values(row)
  {
    var first, last := local.rowPtr[r], local.rowPtr[r + 1];
    StoredSlices(local, r, first, last, row);
    columns, values := local.columnIndices[first..last], local.values[first..last];
  }

  /** What every transport is given: the consumer's plan and the row blocks of B. */
  ghost predicate Given(plan: RemoteRowPlan, columns: seq<int>, rank: nat, bLocals: seq<CsrMatrix>, blocks: seq<RowBlock>,
                        bRows: seq<Row>, total: nat, cols: nat)
  {
    && |bLocals| > 0 && |blocks| == |bLocals| && (forall t :: 0 <= t < |blocks| ==> blocks[t] == Block(total, |blocks|, t))
    && PlanOk(plan, columns, total, |bLocals|, rank) && Owned(bLocals, bRows, total, cols)
  }

  /** A rank that owns every row of a request list. */
  ghost predicate Owns(local: CsrMatrix, block: RowBlock, requests: seq<int>, bRows: seq<Row>) {
    && LocalRows(local, bRows, block, local.cols)
    && forall x :: 0 <= x < |requests| ==> block.firstRow <= requests[x] < block.firstRow + block.rows
  }

  lemma PeerOwns(plan: RemoteRowPlan, columns: seq<int>, rank: nat, bLocals: seq<CsrMatrix>, blocks: seq<RowBlock>,
                 bRows: seq<Row>, total: nat, cols: nat, p: nat)
    requires Given(plan, columns, rank, bLocals, blocks, bRows, total, cols) && p < |bLocals|
    ensures Owns(bLocals[p], blocks[p], plan.rowsByPeer[p], bRows)
  {
    RequestsAreLocal(plan, columns, total, |bLocals|, rank, p);
    assert LocalRows(bLocals[p], bRows, Block(total, |bLocals|, p), cols);
    forall x | 0 <= x < |plan.rowsByPeer[p]| ensures plan.rowsByPeer[p][x] in plan.rowsByPeer[p] {
    }
  }

  /** A requested row, as its owner stores it. */
  method OwnedRow(local: CsrMatrix, block: RowBlock, requests: seq<int>, index: nat, ghost bRows: seq<Row>)
    returns (columns: seq<int>, values: seq<Value>)
    requires Owns(local, block, requests, bRows) && index < |requests|
    ensures columns == Columns(BRow(bRows, requests[index])) && values == Values(BRow(bRows, requests[index]))
  {
    var localRow := requests[index] - block.firstRow;
    assert RowOf(local, localRow) == BRow(bRows, block.firstRow + localRow);
    columns, values := LocalSparseRow(local, localRow, BRow(bRows, requests[index]));
  }

  // ----- two-sided: owners pack, consumers receive whole segments

  /** Rows base, base + 1, ... of a list. */
  ghost predicate Span(rows: seq<Row>, base: nat, own: seq<Row>) {
    base + |own| <= |rows| && forall x :: 0 <= x < |own| ==> rows[base + x] == own[x]
  }

  lemma {:induction false} FlattenSpan(rows: seq<Row>, base: nat, own: seq<Row>, x: nat)
    requires Span(rows, base, own) && x <= |own|
    ensures Flatten(rows, base + x) == Flatten(rows, base) + Flatten(own, x)
  {
    if x > 0 {
      FlattenSpan(rows, base, own, x - 1);
    }
  }

  /** A segment in place fills every slot of its span. */
  lemma SegmentFills(rows: seq<Row>, base: nat, own: seq<Row>, x: nat, columns: seq<int>, values: seq<Value>)
    requires Span(rows, base, own) && x < |own|
    requires FilledAt(columns, values, |Flatten(rows, base)|, Flatten(own, |own|))
    ensures FilledSlot(columns, values, rows, base + x)
  {
    hide Flatten, FilledAt;
    FlattenSpan(rows, base, own, x);
    SlotEnds(own, x, |own|);
    forall q | 0 <= q < |own[x]| ensures Flatten(own, |own|)[|Flatten(own, x)| + q] == own[x][q] {
      FlattenAt(own, x, q);
    }
    InSegment(columns, values, |Flatten(rows, base)|, Flatten(own, |own|), |Flatten(own, x)|, own[x]);
  }

  lemma InSegment(columns: seq<int>, values: seq<Value>, at: nat, segment: Row, inside: nat, row: Row)
    requires FilledAt(columns, values, at, segment) && inside + |row| <= |segment|
    requires forall q :: 0 <= q < |row| ==> segment[inside + q] == row[q]
    ensures FilledAt(columns, values, at + inside, row)
  {
    forall q | 0 <= q < |row|
      ensures columns[at + inside + q] == row[q].column && values[at + inside + q] == row[q].value
    {
      assert columns[at + (inside + q)] == segment[inside + q].column;
    }
  }

  lemma PeerInside(plan: RemoteRowPlan, wanted: seq<int>, total: nat, ranks: nat, rank: nat, p: nat)
    requires ranks > 0 && PlanOk(plan, wanted, total, ranks, rank) && p < ranks
    ensures plan.peerOffsets[p] + |plan.rowsByPeer[p]| == plan.peerOffsets[p + 1] <= |plan.flatRows|
  {
    hide SlotsOk, PeerRows;
    FlatMonotone(plan.rowsByPeer, p + 1, ranks);
  }

  /** The slots of a peer hold its requests in order. */
  lemma PeerSpan(plan: RemoteRowPlan, wanted: seq<int>, total: nat, ranks: nat, rank: nat, bRows: seq<Row>, rows: seq<Row>, p: nat)
    requires ranks > 0 && PlanOk(plan, wanted, total, ranks, rank) && p < ranks
    requires rows == HaloRows(bRows, plan.flatRows, |plan.flatRows|)
    ensures Span(rows, plan.peerOffsets[p], HaloRows(bRows, plan.rowsByPeer[p], |plan.rowsByPeer[p]|))
  {
    hide BRow, SlotsOk, PeerRows, FlatBefore, HaloRows;
    PeerInside(plan, wanted, total, ranks, rank, p);
    forall x | 0 <= x < |plan.rowsByPeer[p]|
      ensures plan.peerOffsets[p] + x < |rows| && rows[plan.peerOffsets[p] + x] == BRow(bRows, plan.rowsByPeer[p][x])
    {
      FlatAt(plan.rowsByPeer, p, x);
    }
  }

  /** The owner copies the requested rows one after another. */
  method PackRows(local: CsrMatrix, block: RowBlock, requests: seq<int>, payload: nat, ghost bRows: seq<Row>, ghost own: seq<Row>)
    returns (columns: seq<int>, values: seq<Value>)
    requires Owns(local, block, requests, bRows)
    requires own == HaloRows(bRows, requests, |requests|) && payload == |Flatten(own, |own|)|
    ensures columns == Columns(Flatten(own, |own|)) && values == Values(Flatten(own, |own|))
  {
    hide Owns, HaloRows, ColumnsBefore;
    columns, values := seq(payload, _ => 0), seq(payload, _ => 0);
    var offset: nat := 0;
    for index := 0 to |requests|
      invariant |columns| == |values| == payload && offset == |Flatten(own, index)| <= payload
      invariant columns[..offset] == Columns(Flatten(own, index))
      invariant values[..offset] == Values(Flatten(own, index))
    {
      var rowColumns, rowValues := OwnedRow(local, block, requests, index, bRows);
      SlotEnds(own, index, |own|);
      PackOne(columns, values, own, index);
      OffsetsMonotone(own, index + 1, |own|);
      columns, values := CopyAt(columns, offset, rowColumns), CopyAt(values, offset, rowValues);
      offset := offset + |rowColumns|;
    }
  }

  lemma PackOne(columns: seq<int>, values: seq<Value>, rows: seq<Row>, s: nat)
    requires s < |rows| && |Flatten(rows, s)| + |rows[s]| <= |columns| == |values|
    requires columns[..|Flatten(rows, s)|] == Columns(Flatten(rows, s)) && values[..|Flatten(rows, s)|] == Values(Flatten(rows, s))
    ensures |Flatten(rows, s + 1)| == |Flatten(rows, s)| + |rows[s]|
    ensures CopyAt(columns, |Flatten(rows, s)|, Columns(rows[s]))[..|Flatten(rows, s + 1)|] == Columns(Flatten(rows, s + 1))
    ensures CopyAt(values, |Flatten(rows, s)|, Values(rows[s]))[..|Flatten(rows, s + 1)|] == Values(Flatten(rows, s + 1))
  {
    ColumnsAppend(Flatten(rows, s), rows[s]);
  }

  /** A received segment fills its own slots and disturbs no other slot. */
  lemma ReceiveSlot(columns: seq<int>, values: seq<Value>, rows: seq<Row>, base: nat, own: seq<Row>, t: nat)
    requires |columns| == |values| == |Flatten(rows, |rows|)| && Span(rows, base, own) && t < |rows|
    requires |Flatten(rows, base)| + |Flatten(own, |own|)| <= |columns|
    requires base <= t < base + |own| || FilledSlot(columns, values, rows, t)
    ensures FilledSlot(CopyAt(columns, |Flatten(rows, base)|, Columns(Flatten(own, |own|))),
                       CopyAt(values, |Flatten(rows, base)|, Values(Flatten(own, |own|))), rows, t)
  {
    hide Flatten, CopyAt, FilledAt, FilledSlot, Columns, Values, Span;
    if base <= t < base + |own| {
      var at, segment := |Flatten(rows, base)|, Flatten(own, |own|);
      CopyFillsAt(columns, values, at, segment, at, segment);
      SegmentFills(rows, base, own, t - base, CopyAt(columns, at, Columns(segment)), CopyAt(values, at, Values(segment)));
    } else {
      ReceiveKeeps(columns, values, rows, base, own, t);
    }
  }

  lemma SegmentFits(rows: seq<Row>, base: nat, own: seq<Row>)
    requires Span(rows, base, own)
    ensures |Flatten(rows, base)| + |Flatten(own, |own|)| == |Flatten(rows, base + |own|)| <= |Flatten(rows, |rows|)|
  {
    FlattenSpan(rows, base, own, |own|);
    OffsetsMonotone(rows, base + |own|, |rows|);
  }

  lemma ReceiveKeeps(columns: seq<int>, values: seq<Value>, rows: seq<Row>, base: nat, own: seq<Row>, t: nat)
    requires |columns| == |values| && Span(rows, base, own) && t < |rows| && (t < base || base + |own| <= t)
    requires |Flatten(rows, base)| + |Flatten(own, |own|)| <= |columns| && FilledSlot(columns, values, rows, t)
    ensures FilledSlot(CopyAt(columns, |Flatten(rows, base)|, Columns(Flatten(own, |own|))),
                       CopyAt(values, |Flatten(rows, base)|, Values(Flatten(own, |own|))), rows, t)
  {
    FlattenSpan(rows, base, own, |own|);
    if t < base {
      SlotEnds(rows, t, base);
    } else {
      OffsetsMonotone(rows, base + |own|, t);
    }
    CopyFillsAt(columns, values, |Flatten(rows, base)|, Flatten(own, |own|), |Flatten(rows, t)|, rows[t]);
  }

  /** One peer's packed payload, copied to its segment of the halo. */
  method ReceivePeer(local: CsrMatrix, block: RowBlock, requests: seq<int>, receiveOffset: nat, receiveCount: nat,
                     columns0: seq<int>, values0: seq<Value>, ghost bRows: seq<Row>, ghost rows: seq<Row>, ghost base: nat)
    returns (columns: seq<int>, values: seq<Value>)
    requires Owns(local, block, requests, bRows) && Span(rows, base, HaloRows(bRows, requests, |requests|))
    requires |columns0| == |values0| == |Flatten(rows, |rows|)| && receiveOffset == |Flatten(rows, base)|
    requires receiveOffset + receiveCount == |Flatten(rows, base + |requests|)|
    ensures |columns| == |values| == |columns0|
    ensures forall t :: 0 <= t < |rows| && (base <= t < base + |requests| || FilledSlot(columns0, values0, rows, t)) ==>
      FilledSlot(columns, values, rows, t)
  {
    ghost var own := HaloRows(bRows, requests, |requests|);
    SegmentFits(rows, base, own);
    var packedColumns, packedValues := PackRows(local, block, requests, receiveCount, bRows, own);
    columns, values := CopyAt(columns0, receiveOffset, packedColumns), CopyAt(values0, receiveOffset, packedValues);
    forall t | 0 <= t < |rows| && (base <= t < base + |requests| || FilledSlot(columns0, values0, rows, t))
      ensures FilledSlot(columns, values, rows, t)
    {
      ReceiveSlot(columns0, values0, rows, base, own, t);
    }
  }

  /** Slots of the peers received so far. */
  ghost predicate ReceivedFrom(columns: seq<int>, values: seq<Value>, rows: seq<Row>, offsets: seq<nat>, p: nat)
    requires p + 1 < |offsets|
  {
    forall t :: offsets[p] <= t < offsets[p + 1] && t < |rows| ==> FilledSlot(columns, values, rows, t)
  }

  /** Packed payload from every peer, arriving in any order, each at its peer's offset. */
  method ExchangeTwoSided(plan: RemoteRowPlan, rowPtr: seq<nat>, nnz: nat, bLocals: seq<CsrMatrix>, blocks: seq<RowBlock>,
                          order: seq<nat>, ghost wanted: seq<int>, ghost rank: nat, ghost bRows: seq<Row>,
                          ghost total: nat, ghost cols: nat, ghost rows: seq<Row>)
    returns (columns: seq<int>, values: seq<Value>)
    requires Given(plan, wanted, rank, bLocals, blocks, bRows, total, cols)
    requires rows == HaloRows(bRows, plan.flatRows, |plan.flatRows|) && PrefixTo(rowPtr, rows, |rows|, nnz)
    requires (forall l :: 0 <= l < |order| ==> order[l] < |bLocals|) && forall p :: 0 <= p < |bLocals| ==> p in order
    ensures Hold(rowPtr, columns, values, rows, |rows|)
  {
    hide Owned, Owns, FilledSlot, Hold, BRow, SlotsOk, PeerRows, Span, FlatBefore;
    columns, values := seq(nnz, _ => 0), seq(nnz, _ => 0);
    for k := 0 to |order|
      invariant |columns| == |values| == nnz
      invariant forall l :: 0 <= l < k ==> ReceivedFrom(columns, values, rows, plan.peerOffsets, order[l])
    {
      var peer := order[k];
      PeerSpan(plan, wanted, total, |bLocals|, rank, bRows, rows, peer);
      PeerOwns(plan, wanted, rank, bLocals, blocks, bRows, total, cols, peer);
      PeerInside(plan, wanted, total, |bLocals|, rank, peer);
      OffsetsMonotone(rows, plan.peerOffsets[peer], plan.peerOffsets[peer + 1]);
      var receiveOffset := rowPtr[plan.peerOffsets[peer]];
      var receiveCount: nat := rowPtr[plan.peerOffsets[peer + 1]] - receiveOffset;
      columns, values := ReceivePeer(bLocals[peer], blocks[peer], plan.rowsByPeer[peer], receiveOffset, receiveCount,
                                     columns, values, bRows, rows, plan.peerOffsets[peer]);
    }
    AllReceived(plan, rowPtr, columns, values, rows, order, nnz);
  }

  lemma AllReceived(plan: RemoteRowPlan, rowPtr: seq<nat>, columns: seq<int>, values: seq<Value>, rows: seq<Row>,
                    order: seq<nat>, nnz: nat)
    requires |columns| == |values| == nnz && PrefixTo(rowPtr, rows, |rows|, nnz)
    requires |plan.peerOffsets| == |plan.rowsByPeer| + 1 && |rows| == |FlatBefore(plan.rowsByPeer, |plan.rowsByPeer|)|
    requires forall p :: 0 <= p <= |plan.rowsByPeer| ==> plan.peerOffsets[p] == |FlatBefore(plan.rowsByPeer, p)|
    requires forall p :: 0 <= p < |plan.rowsByPeer| ==> p in order
    requires forall l :: 0 <= l < |order| ==> order[l] < |plan.rowsByPeer|
    requires forall l :: 0 <= l < |order| ==> ReceivedFrom(columns, values, rows, plan.peerOffsets, order[l])
    ensures Hold(rowPtr, columns, values, rows, |rows|)
  {
    forall s | 0 <= s < |rows| ensures FilledSlot(columns, values, rows, s) {
      var p, index := SlotPeer(plan.rowsByPeer, |plan.rowsByPeer|, s);
      assert p in order;
      var l :| 0 <= l < |order| && order[l] == p;
      assert ReceivedFrom(columns, values, rows, plan.peerOffsets, order[l]);
    }
    AllFilled(rowPtr, columns, values, rows);
  }

  // ----- one-sided put: owners write each row at the offset the consumer gave them

  ghost predicate OffsetsOk(rowPtr: seq<nat>, rows: seq<Row>) {
    |rowPtr| == |rows| + 1 && forall s :: 0 <= s <= |rows| ==> rowPtr[s] == |Flatten(rows, s)|
  }

  /** The offsets a consumer sends to a peer: where its rows belong in the halo. */
  method TargetOffsets(plan: RemoteRowPlan, rowPtr: seq<nat>, peer: nat, ghost rows: seq<Row>,
                       ghost wanted: seq<int>, ghost rank: nat, ghost total: nat, ghost ranks: nat)
    returns (offsets: seq<nat>)
    requires ranks > 0 && PlanOk(plan, wanted, total, ranks, rank) && peer < ranks
    requires |rows| == |plan.flatRows| && OffsetsOk(rowPtr, rows)
    ensures |offsets| == |plan.rowsByPeer[peer]| && plan.peerOffsets[peer] + |offsets| <= |rows|
    ensures forall x :: 0 <= x < |offsets| ==> offsets[x] == |Flatten(rows, plan.peerOffsets[peer] + x)|
  {
    offsets := [];
    FlatMonotone(plan.rowsByPeer, peer + 1, ranks);
    for index := 0 to |plan.rowsByPeer[peer]|
      invariant |offsets| == index
      invariant forall x :: 0 <= x < index ==> offsets[x] == |Flatten(rows, plan.peerOffsets[peer] + x)|
    {
      FlatAt(plan.rowsByPeer, peer, index);
      var slot := plan.rowToSlot[plan.rowsByPeer[peer][index]];
      offsets := offsets + [rowPtr[slot]];
    }
  }

  /** One owner's writes into the halo; rows without entries are skipped. */
  method PushSparseRows(local: CsrMatrix, block: RowBlock, requests: seq<int>, targetOffsets: seq<nat>,
                        transfers0: seq<Transfer>, ghost slots0: seq<nat>, ghost bRows: seq<Row>, ghost rows: seq<Row>, ghost base: nat)
    returns (transfers: seq<Transfer>, ghost slots: seq<nat>)
    requires Owns(local, block, requests, bRows) && Span(rows, base, HaloRows(bRows, requests, |requests|))
    requires |targetOffsets| == |requests| && CarryTo(transfers0, slots0, rows, base)
    requires forall x :: 0 <= x < |requests| ==> targetOffsets[x] == |Flatten(rows, base + x)|
    ensures CarryTo(transfers, slots, rows, base + |requests|)
  {
    hide Owns, HaloRows, CarryTo, Flatten, LocalRows, BRow;
    hide Owns, Flatten, CarryTo, HaloRows, BRow, Columns, Values;
    transfers, slots := transfers0, slots0;
    for index := 0 to |requests|
      invariant CarryTo(transfers, slots, rows, base + index)
    {
      var columns, values := OwnedRow(local, block, requests, index, bRows);
      var transfer := Transfer(targetOffsets[index], columns, values);
      CarryOneMore(transfers, slots, rows, base + index, transfer);
      if |columns| != 0 {
        transfers, slots := transfers + [transfer], slots + [base + index];
      }
    }
  }

  method PushAll(plan: RemoteRowPlan, rowPtr: seq<nat>, bLocals: seq<CsrMatrix>, blocks: seq<RowBlock>,
                 ghost wanted: seq<int>, ghost rank: nat, ghost bRows: seq<Row>, ghost total: nat, ghost cols: nat, ghost rows: seq<Row>)
    returns (transfers: seq<Transfer>, ghost slots: seq<nat>)
    requires Given(plan, wanted, rank, bLocals, blocks, bRows, total, cols)
    requires rows == HaloRows(bRows, plan.flatRows, |plan.flatRows|) && OffsetsOk(rowPtr, rows)
    ensures CarryAll(transfers, slots, rows)
  {
    hide PlanOk, OffsetsOk, Owned, Owns, BRow, SlotsOk, PeerRows, Span, Carries;
    PlanShape(plan, wanted, total, |bLocals|, rank);
    transfers, slots := [], [];
    for peer := 0 to |bLocals|
      invariant CarryTo(transfers, slots, rows, plan.peerOffsets[peer])
    {
      PeerSpan(plan, wanted, total, |bLocals|, rank, bRows, rows, peer);
      PeerOwns(plan, wanted, rank, bLocals, blocks, bRows, total, cols, peer);
      var targetOffsets := TargetOffsets(plan, rowPtr, peer, rows, wanted, rank, total, |bLocals|);
      transfers, slots := PushSparseRows(bLocals[peer], blocks[peer], plan.rowsByPeer[peer], targetOffsets,
                                         transfers, slots, bRows, rows, plan.peerOffsets[peer]);
    }
  }

  /** Slots before `n` are carried, as far as they have entries. */
  ghost predicate CarryTo(transfers: seq<Transfer>, slots: seq<nat>, rows: seq<Row>, n: nat) {
    && |slots| == |transfers| && n <= |rows|
    && (forall t :: 0 <= t < |transfers| ==> Carries(transfers[t], rows, slots[t]))
    && (forall s :: 0 <= s < n && rows[s] != [] ==> s in slots)
  }

  lemma CarryOneMore(transfers: seq<Transfer>, slots: seq<nat>, rows: seq<Row>, s: nat, transfer: Transfer)
    requires CarryTo(transfers, slots, rows, s) && Carries(transfer, rows, s)
    ensures if transfer.columns == [] then CarryTo(transfers, slots, rows, s + 1)
            else CarryTo(transfers + [transfer], slots + [s], rows, s + 1)
  {
    assert |transfer.columns| == |rows[s]|;
  }

  // ----- one-sided get: the consumer reads each row at the bounds it read before

  /** Where the owner stores the first n requested rows, remembered by the consumer slot by slot. */
  ghost predicate PeerBounds(bounds: seq<int>, local: CsrMatrix, block: RowBlock, requests: seq<int>, base: nat, n: nat) {
    && 2 * (base + |requests|) <= |bounds| && n <= |requests|
    && forall x :: 0 <= x < n ==>
         var localRow := requests[x] - block.firstRow;
         && 0 <= localRow && localRow + 1 < |local.rowPtr|
         && bounds[2 * (base + x)] == local.rowPtr[localRow] && bounds[2 * (base + x) + 1] == local.rowPtr[localRow + 1]
  }

  /** Reads the two row pointers around each row wanted from a peer. */
  method ReadBounds(bounds0: seq<int>, local: CsrMatrix, block: RowBlock, requests: seq<int>, base: nat, ghost bRows: seq<Row>)
    returns (bounds: seq<int>)
    requires Owns(local, block, requests, bRows) && 2 * (base + |requests|) <= |bounds0|
    ensures |bounds| == |bounds0| && PeerBounds(bounds, local, block, requests, base, |requests|)
    ensures forall y :: 0 <= y < |bounds| && !(2 * base <= y < 2 * (base + |requests|)) ==> bounds[y] == bounds0[y]
  {
    bounds := bounds0;
    for index := 0 to |requests|
      invariant |bounds| == |bounds0| && PeerBounds(bounds, local, block, requests, base, index)
      invariant forall y :: 0 <= y < |bounds| && !(2 * base <= y < 2 * (base + index)) ==> bounds[y] == bounds0[y]
    {
      var localRow, slot := requests[index] - block.firstRow, base + index;
      bounds := bounds[2 * slot := local.rowPtr[localRow]];
      bounds := bounds[2 * slot + 1 := local.rowPtr[localRow + 1]];
    }
  }

  lemma BoundsKept(bounds: seq<int>, bounds': seq<int>, local: CsrMatrix, block: RowBlock, requests: seq<int>,
                   base: nat, from: nat, to: nat)
    requires PeerBounds(bounds, local, block, requests, base, |requests|) && |bounds'| == |bounds|
    requires base + |requests| <= from || to <= base
    requires forall y :: 0 <= y < |bounds| && !(2 * from <= y < 2 * to) ==> bounds'[y] == bounds[y]
    ensures PeerBounds(bounds', local, block, requests, base, |requests|)
  {
  }

  ghost predicate AllBounds(bounds: seq<int>, plan: RemoteRowPlan, bLocals: seq<CsrMatrix>, blocks: seq<RowBlock>, n: nat) {
    && n <= |bLocals| && |blocks| == |bLocals| == |plan.rowsByPeer| && |plan.peerOffsets| == |bLocals| + 1
    && forall p :: 0 <= p < n ==>
         PeerBounds(bounds, bLocals[p], blocks[p], plan.rowsByPeer[p], plan.peerOffsets[p], |plan.rowsByPeer[p]|)
  }

  method ReadAllBounds(plan: RemoteRowPlan, bLocals: seq<CsrMatrix>, blocks: seq<RowBlock>,
                       ghost wanted: seq<int>, ghost rank: nat, ghost bRows: seq<Row>, ghost total: nat, ghost cols: nat)
    returns (bounds: seq<int>)
    requires Given(plan, wanted, rank, bLocals, blocks, bRows, total, cols)
    ensures |bounds| == 2 * |plan.flatRows| && AllBounds(bounds, plan, bLocals, blocks, |bLocals|)
  {
    bounds := seq(2 * |plan.flatRows|, _ => 0);
    for peer := 0 to |bLocals|
      invariant |bounds| == 2 * |plan.flatRows| && AllBounds(bounds, plan, bLocals, blocks, peer)
    {
      PeerOwns(plan, wanted, rank, bLocals, blocks, bRows, total, cols, peer);
      PeersApart(plan, wanted, total, |bLocals|, rank, peer, peer + 1);
      ghost var before := bounds;
      bounds := ReadBounds(bounds, bLocals[peer], blocks[peer], plan.rowsByPeer[peer], plan.peerOffsets[peer], bRows);
      AllBoundsKept(before, bounds, plan, bLocals, blocks, wanted, total, rank, peer);
    }
  }

  lemma AllBoundsKept(before: seq<int>, after: seq<int>, plan: RemoteRowPlan, bLocals: seq<CsrMatrix>, blocks: seq<RowBlock>,
                      wanted: seq<int>, total: nat, rank: nat, peer: nat)
    requires peer < |bLocals| && PlanOk(plan, wanted, total, |bLocals|, rank)
    requires AllBounds(before, plan, bLocals, blocks, peer) && |after| == |before|
    requires PeerBounds(after, bLocals[peer], blocks[peer], plan.rowsByPeer[peer], plan.peerOffsets[peer], |plan.rowsByPeer[peer]|)
    requires var first, end := plan.peerOffsets[peer], plan.peerOffsets[peer] + |plan.rowsByPeer[peer]|;
             forall y :: 0 <= y < |after| && !(2 * first <= y < 2 * end) ==> after[y] == before[y]
    ensures AllBounds(after, plan, bLocals, blocks, peer + 1)
  {
    hide PlanOk, PeerBounds, PeerRows;
    forall p | 0 <= p < peer
      ensures PeerBounds(after, bLocals[p], blocks[p], plan.rowsByPeer[p], plan.peerOffsets[p], |plan.rowsByPeer[p]|)
    {
      PeersApart(plan, wanted, total, |bLocals|, rank, p, peer);
      BoundsKept(before, after, bLocals[p], blocks[p], plan.rowsByPeer[p], plan.peerOffsets[p],
                 plan.peerOffsets[peer], plan.peerOffsets[peer] + |plan.rowsByPeer[peer]|);
    }
  }

  ghost predicate BoundsOk(bounds: seq<int>, s: nat, row: Row) {
    2 * s + 1 < |bounds| && 0 <= bounds[2 * s] <= bounds[2 * s + 1] && bounds[2 * s + 1] - bounds[2 * s] == |row|
  }

  /** Remembered bounds are as far apart as the row is long. */
  lemma BoundsOfRequest(bounds: seq<int>, local: CsrMatrix, block: RowBlock, requests: seq<int>, base: nat, x: nat, bRows: seq<Row>)
    requires Owns(local, block, requests, bRows) && PeerBounds(bounds, local, block, requests, base, |requests|) && x < |requests|
    ensures BoundsOk(bounds, base + x, BRow(bRows, requests[x]))
  {
    RowLength(local, block, requests, x, bRows);
  }

  lemma BoundsOfSlot(plan: RemoteRowPlan, bounds: seq<int>, wanted: seq<int>, rank: nat, bLocals: seq<CsrMatrix>,
                     blocks: seq<RowBlock>, bRows: seq<Row>, total: nat, cols: nat, s: nat)
    requires Given(plan, wanted, rank, bLocals, blocks, bRows, total, cols)
    requires AllBounds(bounds, plan, bLocals, blocks, |bLocals|) && s < |plan.flatRows|
    ensures BoundsOk(bounds, s, BRow(bRows, plan.flatRows[s]))
  {
    hide PlanOk, Owned, Owns, BoundsOk, PeerBounds, BRow;
    var p, x := SlotOfPlan(plan, wanted, total, |bLocals|, rank, s);
    PeerOwns(plan, wanted, rank, bLocals, blocks, bRows, total, cols, p);
    BoundsOfRequest(bounds, bLocals[p], blocks[p], plan.rowsByPeer[p], plan.peerOffsets[p], x, bRows);
  }

  lemma RowLength(local: CsrMatrix, block: RowBlock, requests: seq<int>, x: nat, bRows: seq<Row>)
    requires Owns(local, block, requests, bRows) && x < |requests|
    ensures var localRow := requests[x] - block.firstRow;
            && local.rowPtr[localRow] <= local.rowPtr[localRow + 1] <= |local.values| == |local.columnIndices|
            && local.rowPtr[localRow + 1] - local.rowPtr[localRow] == |BRow(bRows, requests[x])|
  {
    hide BRow;
    LocalLength(local, block, requests[x], bRows);
  }

  /** Row lengths from the bounds, summed slot by slot; decreasing bounds would be an error. */
  method PrefixOfBounds(bounds: seq<int>, slots: nat, ghost rows: seq<Row>) returns (prefix: Result<(seq<nat>, nat)>)
    requires |rows| == slots && forall s :: 0 <= s < slots ==> BoundsOk(bounds, s, rows[s])
    ensures prefix.Ok? && PrefixTo(prefix.value.0, rows, |rows|, prefix.value.1)
  {
    var rowPtr: seq<nat>, nnz: nat := seq(slots + 1, _ => 0), 0;
    for slot := 0 to slots
      invariant PrefixTo(rowPtr, rows, slot, nnz)
    {
      assert BoundsOk(bounds, slot, rows[slot]);
      var first, last := bounds[2 * slot], bounds[2 * slot + 1];
      assert !(first < 0 || last < first);
      rowPtr := rowPtr[slot := nnz];
      nnz := nnz + (last - first);
      rowPtr := rowPtr[slot + 1 := nnz];
    }
    prefix := Ok((rowPtr, nnz));
  }

  /** The consumer's reads from one peer; rows without entries are skipped. */
  method FetchSparseRows(local: CsrMatrix, block: RowBlock, requests: seq<int>, bounds: seq<int>, rowPtr: seq<nat>, base: nat,
                         transfers0: seq<Transfer>, ghost slots0: seq<nat>, ghost bRows: seq<Row>, ghost rows: seq<Row>)
    returns (transfers: seq<Transfer>, ghost slots: seq<nat>)
    requires Owns(local, block, requests, bRows) && Span(rows, base, HaloRows(bRows, requests, |requests|))
    requires PeerBounds(bounds, local, block, requests, base, |requests|) && OffsetsOk(rowPtr, rows)
    requires CarryTo(transfers0, slots0, rows, base)
    ensures CarryTo(transfers, slots, rows, base + |requests|)
  {
    transfers, slots := transfers0, slots0;
    for index := 0 to |requests|
      invariant CarryTo(transfers, slots, rows, base + index)
    {
      var slot := base + index;
      var receiveOffset, remoteOffset := rowPtr[slot], bounds[2 * slot];
      var count := rowPtr[slot + 1] - rowPtr[slot];
      var transfer := ReadRow(local, block, requests, index, receiveOffset, remoteOffset, count, bRows);
      CarryOneMore(transfers, slots, rows, slot, transfer);
      if count != 0 {
        transfers, slots := transfers + [transfer], slots + [slot];
      }
    }
  }

  /** `count` entries of the owner's arrays from a remembered offset on are the row. */
  method ReadRow(local: CsrMatrix, block: RowBlock, requests: seq<int>, index: nat, receiveOffset: nat, remoteOffset: int,
                 count: int, ghost bRows: seq<Row>)
    returns (transfer: Transfer)
    requires Owns(local, block, requests, bRows) && index < |requests|
    requires 0 <= requests[index] - block.firstRow < |local.rowPtr| && remoteOffset == local.rowPtr[requests[index] - block.firstRow]
    requires count == |BRow(bRows, requests[index])|
    ensures transfer == Transfer(receiveOffset, Columns(BRow(bRows, requests[index])), Values(BRow(bRows, requests[index])))
  {
    hide RowOf, BRow, Columns, Values, Shaped;
    OwnedRowIs(local, block, requests, index, bRows);
    ghost var localRow := requests[index] - block.firstRow;
    StoredSlices(local, localRow, local.rowPtr[localRow], local.rowPtr[localRow + 1], BRow(bRows, requests[index]));
    transfer := Transfer(receiveOffset, local.columnIndices[remoteOffset..remoteOffset + count],
                         local.values[remoteOffset..remoteOffset + count]);
  }

  lemma OwnedRowIs(local: CsrMatrix, block: RowBlock, requests: seq<int>, index: nat, bRows: seq<Row>)
    requires Owns(local, block, requests, bRows) && index < |requests|
    ensures var localRow := requests[index] - block.firstRow;
            && Shaped(local) && 0 <= localRow < local.rows && localRow + 1 < |local.rowPtr|
            && RowOf(local, localRow) == BRow(bRows, requests[index])
  {
    hide RowOf, BRow;
    var localRow := requests[index] - block.firstRow;
    assert RowOf(local, localRow) == BRow(bRows, block.firstRow + localRow);
  }

  method FetchAll(plan: RemoteRowPlan, bounds: seq<int>, rowPtr: seq<nat>, bLocals: seq<CsrMatrix>, blocks: seq<RowBlock>,
                  ghost wanted: seq<int>, ghost rank: nat, ghost bRows: seq<Row>, ghost total: nat, ghost cols: nat, ghost rows: seq<Row>)
    returns (transfers: seq<Transfer>, ghost slots: seq<nat>)
    requires Given(plan, wanted, rank, bLocals, blocks, bRows, total, cols)
    requires rows == HaloRows(bRows, plan.flatRows, |plan.flatRows|) && OffsetsOk(rowPtr, rows)
    requires AllBounds(bounds, plan, bLocals, blocks, |bLocals|)
    ensures CarryAll(transfers, slots, rows)
  {
    hide PlanOk, OffsetsOk, Owned, Owns, BRow, SlotsOk, PeerRows, Span, Carries, PeerBounds;
    PlanShape(plan, wanted, total, |bLocals|, rank);
    transfers, slots := [], [];
    for peer := 0 to |bLocals|
      invariant CarryTo(transfers, slots, rows, plan.peerOffsets[peer])
    {
      PeerSpan(plan, wanted, total, |bLocals|, rank, bRows, rows, peer);
      PeerOwns(plan, wanted, rank, bLocals, blocks, bRows, total, cols, peer);
      transfers, slots := FetchSparseRows(bLocals[peer], blocks[peer], plan.rowsByPeer[peer], bounds, rowPtr,
                                          plan.peerOffsets[peer], transfers, slots, bRows, rows);
    }
  }

  // ----- the three transports

  datatype Transport = TwoSided | PutTransport | GetTransport

  /** Every element once or more, nothing else: the order in which a transport's messages arrive. */
  ghost predicate Arrivals(order: seq<nat>, n: nat) {
    (forall l :: 0 <= l < |order| ==> order[l] < n) && forall t :: 0 <= t < n ==> t in order
  }

  /** Some arrival order: the contract promises nothing about it but that every message arrives. */
  method ArrivalOrder(n: nat) returns (order: seq<nat>)
    ensures Arrivals(order, n)
  {
    order := [];
    var pending := n;
    while pending > 0
      invariant pending <= n
      invariant forall l :: 0 <= l < |order| ==> pending <= order[l] < n
      invariant forall t :: pending <= t < n ==> t in order
    {
      pending := pending - 1;
      order := order + [pending];
    }
  }

  /** Two-sided: row counts, then packed payload. */
  method TwoSidedHalo(plan: RemoteRowPlan, bLocals: seq<CsrMatrix>, blocks: seq<RowBlock>,
                      ghost wanted: seq<int>, ghost rank: nat, ghost bRows: seq<Row>, ghost total: nat, ghost cols: nat)
    returns (halo: RemoteSparseRows)
    requires Given(plan, wanted, rank, bLocals, blocks, bRows, total, cols)
    ensures HaloOk(halo, bRows, plan.flatRows)
  {
    ghost var rows := HaloRows(bRows, plan.flatRows, |plan.flatRows|);
    var incoming := IncomingNonZeros(plan, bLocals, blocks, wanted, rank, total, cols, bRows);
    var rowPtr, nnz := HaloPrefix(plan, incoming, rows, wanted, rank, total, bRows);
    var order := ArrivalOrder(|bLocals|);
    var columns, values := ExchangeTwoSided(plan, rowPtr, nnz, bLocals, blocks, order, wanted, rank, bRows, total, cols, rows);
    halo := RemoteSparseRows(rowPtr, columns, values);
  }

  /** One-sided put: row counts and target offsets, then the owners' writes. */
  method PutHalo(plan: RemoteRowPlan, bLocals: seq<CsrMatrix>, blocks: seq<RowBlock>,
                 ghost wanted: seq<int>, ghost rank: nat, ghost bRows: seq<Row>, ghost total: nat, ghost cols: nat)
    returns (halo: RemoteSparseRows)
    requires Given(plan, wanted, rank, bLocals, blocks, bRows, total, cols)
    ensures HaloOk(halo, bRows, plan.flatRows)
  {
    ghost var rows := HaloRows(bRows, plan.flatRows, |plan.flatRows|);
    var incoming := IncomingNonZeros(plan, bLocals, blocks, wanted, rank, total, cols, bRows);
    var rowPtr, nnz := HaloPrefix(plan, incoming, rows, wanted, rank, total, bRows);
    var transfers, slots := PushAll(plan, rowPtr, bLocals, blocks, wanted, rank, bRows, total, cols, rows);
    var order := ArrivalOrder(|transfers|);
    var columns, values := LandAll(seq(nnz, _ => 0), seq(nnz, _ => 0), transfers, order, slots, rows);
    AllFilled(rowPtr, columns, values, rows);
    halo := RemoteSparseRows(rowPtr, columns, values);
  }

  /** One-sided get: row bounds, then the consumer's reads. */
  method GetHalo(plan: RemoteRowPlan, bLocals: seq<CsrMatrix>, blocks: seq<RowBlock>,
                 ghost wanted: seq<int>, ghost rank: nat, ghost bRows: seq<Row>, ghost total: nat, ghost cols: nat)
    returns (halo: RemoteSparseRows)
    requires Given(plan, wanted, rank, bLocals, blocks, bRows, total, cols)
    ensures HaloOk(halo, bRows, plan.flatRows)
  {
    ghost var rows := HaloRows(bRows, plan.flatRows, |plan.flatRows|);
    var bounds := ReadAllBounds(plan, bLocals, blocks, wanted, rank, bRows, total, cols);
    forall s | 0 <= s < |rows| ensures BoundsOk(bounds, s, rows[s]) {
      BoundsOfSlot(plan, bounds, wanted, rank, bLocals, blocks, bRows, total, cols, s);
    }
    var prefix := PrefixOfBounds(bounds, |plan.flatRows|, rows);
    var rowPtr, nnz := prefix.value.0, prefix.value.1;
    var transfers, slots := FetchAll(plan, bounds, rowPtr, bLocals, blocks, wanted, rank, bRows, total, cols, rows);
    var order := ArrivalOrder(|transfers|);
    var columns, values := LandAll(seq(nnz, _ => 0), seq(nnz, _ => 0), transfers, order, slots, rows);
    AllFilled(rowPtr, columns, values, rows);
    halo := RemoteSparseRows(rowPtr, columns, values);
  }

  method FetchHalo(transport: Transport, plan: RemoteRowPlan, bLocals: seq<CsrMatrix>, blocks: seq<RowBlock>,
                   ghost wanted: seq<int>, ghost rank: nat, ghost bRows: seq<Row>, ghost total: nat, ghost cols: nat)
    returns (halo: RemoteSparseRows)
    requires Given(plan, wanted, rank, bLocals, blocks, bRows, total, cols)
    ensures HaloOk(halo, bRows, plan.flatRows)
  {
    match transport
    case TwoSided => halo := TwoSidedHalo(plan, bLocals, blocks, wanted, rank, bRows, total, cols);
    case PutTransport => halo := PutHalo(plan, bLocals, blocks, wanted, rank, bRows, total, cols);
    case GetTransport => halo := GetHalo(plan, bLocals, blocks, wanted, rank, bRows, total, cols);
  }

  /** All three transports leave the same halo. */
  lemma HalosAgree(h: RemoteSparseRows, h': RemoteSparseRows, bRows: seq<Row>, flatRows: seq<int>)
    requires HaloOk(h, bRows, flatRows) && HaloOk(h', bRows, flatRows)
    ensures h == h'
  {
    assert h.rowPtr == h'.rowPtr;
  }
}
