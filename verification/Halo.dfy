/** The halo of a row-distributed baseline: the remote rows of B, fetched by three transports. */
module Halo {
  import opened Csr
  import opened Serial
  import opened Partition
  import opened RowPlan
  import opened Slots

  datatype RemoteSparseRows = RemoteSparseRows(rowPtr: seq<nat>, columnIndices: seq<int>, values: seq<Value>)

  // ----- what a halo must hold

  /** The rows of B behind the first n slots. */
  ghost function HaloRows(bRows: seq<Row>, flatRows: seq<int>, n: nat): (rows: seq<Row>)
    requires n <= |flatRows|
    ensures |rows| == n && forall s :: 0 <= s < n ==> rows[s] == BRow(bRows, flatRows[s])
  {
    if n == 0 then [] else HaloRows(bRows, flatRows, n - 1) + [BRow(bRows, flatRows[n - 1])]
  }

  /** Exactly the planned rows, in slot order, each in stored order. */
  ghost predicate HaloOk(halo: RemoteSparseRows, bRows: seq<Row>, flatRows: seq<int>) {
    Hold(halo.rowPtr, halo.columnIndices, halo.values, HaloRows(bRows, flatRows, |flatRows|), |flatRows|)
  }

  /** Row blocks of B as the ranks own them. */
  ghost predicate LocalRows(local: CsrMatrix, bRows: seq<Row>, block: RowBlock, cols: nat) {
    && Shaped(local) && local.rows == block.rows && local.cols == cols
    && forall r :: 0 <= r < block.rows ==> RowOf(local, r) == BRow(bRows, block.firstRow + r)
  }

  ghost predicate Owned(bLocals: seq<CsrMatrix>, bRows: seq<Row>, total: nat, cols: nat)
    requires |bLocals| > 0
  {
    forall p :: 0 <= p < |bLocals| ==> LocalRows(bLocals[p], bRows, Block(total, |bLocals|, p), cols)
  }

  // ----- one-sided transfers, landing in any order

  /** A put or get of one row: where it goes in the halo, and what it carries. */
  datatype Transfer = Transfer(offset: nat, columns: seq<int>, values: seq<Value>)

  ghost predicate Carries(transfer: Transfer, rows: seq<Row>, s: nat) {
    && s < |rows| && transfer.offset == |Flatten(rows, s)|
    && transfer.columns == Columns(rows[s]) && transfer.values == Values(rows[s])
  }

  /** Transfer t carries slot slots[t]; every slot with entries is carried. */
  ghost predicate CarryAll(transfers: seq<Transfer>, slots: seq<nat>, rows: seq<Row>) {
    && |slots| == |transfers|
    && (forall t :: 0 <= t < |transfers| ==> Carries(transfers[t], rows, slots[t]))
    && (forall s :: 0 <= s < |rows| && rows[s] != [] ==> s in slots)
  }

  /** Until the flush the transfers land in any order. */
  method LandAll(columns0: seq<int>, values0: seq<Value>, transfers: seq<Transfer>, order: seq<nat>,
                 ghost slots: seq<nat>, ghost rows: seq<Row>)
    returns (columns: seq<int>, values: seq<Value>)
    requires |columns0| == |values0| == |Flatten(rows, |rows|)| && CarryAll(transfers, slots, rows)
    requires forall t :: 0 <= t < |transfers| ==> t in order
    requires forall k :: 0 <= k < |order| ==> order[k] < |transfers|
    ensures |columns| == |values| == |Flatten(rows, |rows|)|
    ensures forall s :: 0 <= s < |rows| ==> FilledSlot(columns, values, rows, s)
  {
    columns, values := columns0, values0;
    for k := 0 to |order|
      invariant |columns| == |values| == |Flatten(rows, |rows|)|
      invariant forall l :: 0 <= l < k ==> FilledSlot(columns, values, rows, slots[order[l]])
    {
      var transfer := transfers[order[k]];
      ghost var s := slots[order[k]];
      assert Carries(transfer, rows, s);
      SlotEnds(rows, s, |rows|);
      ghost var columns', values' := columns, values;
      columns := CopyAt(columns, transfer.offset, transfer.columns);
      values := CopyAt(values, transfer.offset, transfer.values);
      forall l | 0 <= l <= k ensures FilledSlot(columns, values, rows, slots[order[l]]) {
        CopyFills(columns', values', rows, s, slots[order[l]]);
      }
    }
    forall s | 0 <= s < |rows| ensures FilledSlot(columns, values, rows, s) {
      SlotEnds(rows, s, |rows|);
      if rows[s] != [] {
        var t :| 0 <= t < |slots| && slots[t] == s;
        assert t in order;
        var l :| 0 <= l < |order| && order[l] == t;
        assert FilledSlot(columns, values, rows, slots[order[l]]);
      }
    }
  }

  // ----- row counts and the halo's row pointer

  /** The owner's side of a request list: entries per requested row; a row it does not own is an error. */
  lemma LocalLength(local: CsrMatrix, block: RowBlock, row: int, bRows: seq<Row>)
    requires LocalRows(local, bRows, block, local.cols) && block.firstRow <= row < block.firstRow + block.rows
    ensures row - block.firstRow + 1 < |local.rowPtr|
    ensures local.rowPtr[row - block.firstRow + 1] - local.rowPtr[row - block.firstRow] == |BRow(bRows, row)|
  {
    var r := row - block.firstRow;
    assert RowOf(local, r) == BRow(bRows, block.firstRow + r);
  }

  method RequestedNonZeros(local: CsrMatrix, block: RowBlock, requests: seq<int>, ghost bRows: seq<Row>)
    returns (counts: Result<seq<nat>>)
    requires LocalRows(local, bRows, block, local.cols)
    ensures counts.Ok? <==> forall c :: c in requests ==> block.firstRow <= c < block.firstRow + block.rows
    ensures counts.Ok? ==> |counts.value| == |requests|
    ensures counts.Ok? ==> forall x :: 0 <= x < |requests| ==> counts.value[x] == |BRow(bRows, requests[x])|
  {
    hide LocalRows, BRow;
    var nonZeros: seq<nat> := [];
    for index := 0 to |requests|
      invariant |nonZeros| == index
      invariant forall x :: 0 <= x < index ==> block.firstRow <= requests[x] < block.firstRow + block.rows
      invariant forall x :: 0 <= x < index ==> nonZeros[x] == |BRow(bRows, requests[x])|
    {
      var globalRow := requests[index];
      if globalRow < block.firstRow || globalRow >= block.firstRow + block.rows {
        assert requests[index] in requests;
        return Error("received a request for a non-local sparse row of B");
      }
      LocalLength(local, block, globalRow, bRows);
      var localRow := globalRow - block.firstRow;
      nonZeros := nonZeros + [local.rowPtr[localRow + 1] - local.rowPtr[localRow]];
    }
    counts := Ok(nonZeros);
  }

  /** Every request of a plan is local to the peer it is sent to. */
  lemma RequestsAreLocal(plan: RemoteRowPlan, columns: seq<int>, total: nat, ranks: nat, rank: nat, p: nat)
    requires ranks > 0 && PlanOk(plan, columns, total, ranks, rank) && p < ranks
    ensures forall c :: c in plan.rowsByPeer[p] ==> InBlock(total, ranks, p, c)
    ensures forall c :: c in plan.rowsByPeer[p] ==>
      Block(total, ranks, p).firstRow <= c < Block(total, ranks, p).firstRow + Block(total, ranks, p).rows
  {
    StartStep(total, ranks, p);
    assert PeerRows(plan.rowsByPeer[p], columns, total, ranks, rank, p);
  }

  /** Asks every peer for the sizes of the rows wanted from it. */
  method IncomingNonZeros(plan: RemoteRowPlan, bLocals: seq<CsrMatrix>, blocks: seq<RowBlock>,
                          ghost columns: seq<int>, ghost rank: nat, ghost total: nat, ghost cols: nat, ghost bRows: seq<Row>)
    returns (incoming: seq<seq<nat>>)
    requires |bLocals| > 0 && |blocks| == |bLocals| && forall t :: 0 <= t < |blocks| ==> blocks[t] == Block(total, |blocks|, t)
    requires PlanOk(plan, columns, total, |bLocals|, rank) && Owned(bLocals, bRows, total, cols)
    ensures |incoming| == |bLocals|
    ensures forall p :: 0 <= p < |incoming| ==> SizesOf(incoming[p], plan.rowsByPeer[p], bRows)
  {
    incoming := [];
    for peer := 0 to |bLocals|
      invariant |incoming| == peer
      invariant forall p :: 0 <= p < peer ==> SizesOf(incoming[p], plan.rowsByPeer[p], bRows)
    {
      RequestsAreLocal(plan, columns, total, |bLocals|, rank, peer);
      assert LocalRows(bLocals[peer], bRows, Block(total, |bLocals|, peer), cols);
      var counts := RequestedNonZeros(bLocals[peer], blocks[peer], plan.rowsByPeer[peer], bRows);
      incoming := incoming + [counts.value];
    }
  }

  ghost predicate SizesOf(counts: seq<nat>, requests: seq<int>, bRows: seq<Row>) {
    |counts| == |requests| && forall x :: 0 <= x < |counts| ==> counts[x] == |BRow(bRows, requests[x])|
  }

  /** Slots before `slot` have their offsets, and the running total is the next offset. */
  ghost predicate PrefixTo(rowPtr: seq<nat>, rows: seq<Row>, slot: nat, total: nat) {
    && slot <= |rows| && |rowPtr| == |rows| + 1 && total == |Flatten(rows, slot)|
    && forall s :: 0 <= s <= slot ==> rowPtr[s] == |Flatten(rows, s)|
  }

  lemma PrefixOneMore(rowPtr: seq<nat>, rows: seq<Row>, slot: nat, total: nat, count: nat)
    requires PrefixTo(rowPtr, rows, slot, total) && slot < |rows| && count == |rows[slot]|
    ensures PrefixTo(rowPtr[slot := total][slot + 1 := total + count], rows, slot + 1, total + count)
  {
  }

  /** Offsets of one peer's slots. */
  method PrefixPeer(rowPtr0: seq<nat>, nnz0: nat, peerOffset: nat, counts: seq<nat>, ghost rows: seq<Row>)
    returns (rowPtr: seq<nat>, nnz: nat)
    requires PrefixTo(rowPtr0, rows, peerOffset, nnz0) && peerOffset + |counts| <= |rows|
    requires forall x :: 0 <= x < |counts| ==> counts[x] == |rows[peerOffset + x]|
    ensures PrefixTo(rowPtr, rows, peerOffset + |counts|, nnz)
  {
    rowPtr, nnz := rowPtr0, nnz0;
    for index := 0 to |counts|
      invariant |rowPtr| == |rows| + 1 && PrefixTo(rowPtr, rows, peerOffset + index, nnz)
    {
      PrefixOneMore(rowPtr, rows, peerOffset + index, nnz, counts[index]);
      rowPtr := rowPtr[peerOffset + index := nnz];
      nnz := nnz + counts[index];
      rowPtr := rowPtr[peerOffset + index + 1 := nnz];
    }
  }

  /** The rows in a peer's slots have the lengths it reported. */
  lemma SizesInSlots(plan: RemoteRowPlan, counts: seq<nat>, columns: seq<int>, total: nat, ranks: nat, rank: nat,
                     bRows: seq<Row>, rows: seq<Row>, p: nat)
    requires ranks > 0 && PlanOk(plan, columns, total, ranks, rank) && p < ranks
    requires SizesOf(counts, plan.rowsByPeer[p], bRows) && rows == HaloRows(bRows, plan.flatRows, |plan.flatRows|)
    ensures plan.peerOffsets[p] + |counts| == plan.peerOffsets[p + 1] <= |rows|
    ensures forall x :: 0 <= x < |counts| ==> counts[x] == |rows[plan.peerOffsets[p] + x]|
  {
    PeersApart(plan, columns, total, ranks, rank, p, p + 1);
    forall x | 0 <= x < |counts| ensures counts[x] == |rows[plan.peerOffsets[p] + x]| {
      FlatAt(plan.rowsByPeer, p, x);
    }
  }

  method HaloPrefix(plan: RemoteRowPlan, incoming: seq<seq<nat>>, ghost rows: seq<Row>,
                    ghost columns: seq<int>, ghost rank: nat, ghost total: nat, ghost bRows: seq<Row>)
    returns (rowPtr: seq<nat>, nnz: nat)
    requires |incoming| > 0 && PlanOk(plan, columns, total, |incoming|, rank)
    requires forall p :: 0 <= p < |incoming| ==> SizesOf(incoming[p], plan.rowsByPeer[p], bRows)
    requires rows == HaloRows(bRows, plan.flatRows, |plan.flatRows|)
    ensures PrefixTo(rowPtr, rows, |rows|, nnz)
  {
    hide BRow, Flatten, SlotsOk, PeerRows, HaloRows;
    rowPtr := seq(|plan.flatRows| + 1, _ => 0);
    nnz := 0;
    FlattenNone(rows);
    for peer := 0 to |incoming|
      invariant PrefixTo(rowPtr, rows, plan.peerOffsets[peer], nnz)
    {
      SizesInSlots(plan, incoming[peer], columns, total, |incoming|, rank, bRows, rows, peer);
      rowPtr, nnz := PrefixPeer(rowPtr, nnz, plan.peerOffsets[peer], incoming[peer], rows);
    }
  }
}
