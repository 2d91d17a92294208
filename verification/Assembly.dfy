/** Assembly of a full B panel from the row slices of a node. */
module Assembly {
  import opened Csr
  import opened Stages

  ghost function SliceRows(slice: CsrMatrix): seq<Row> {
    if Shaped(slice) then Rows(slice) else []
  }

  /** The rows of the first n slices, one slice after another. */
  ghost function ConcatBefore(slices: seq<CsrMatrix>, n: nat): seq<Row>
    requires n <= |slices|
  {
    if n == 0 then [] else ConcatBefore(slices, n - 1) + SliceRows(slices[n - 1])
  }

  /** The stage was planned for exactly these slices. */
  ghost predicate Planned(stage: Stage, slices: seq<CsrMatrix>) {
    && |slices| == |stage.rowCounts| && PanelOffsets(stage)
    && (forall k :: 0 <= k < |slices| ==> Shaped(slices[k]))
    && (forall k :: 0 <= k < |slices| ==> slices[k].rows == stage.rowCounts[k])
    && (forall k :: 0 <= k < |slices| ==> |slices[k].values| == stage.nnzCounts[k])
  }

  /** Segment k lies inside the panel and ends before any later segment. */
  lemma Segments(stage: Stage, slices: seq<CsrMatrix>, k: nat, l: nat)
    requires Planned(stage, slices) && k < |slices| && k < l <= |slices|
    ensures stage.rowOffsets[k] + slices[k].rows <= SumOf(stage.rowCounts, l) <= stage.panel.rows
    ensures stage.nnzOffsets[k] + |slices[k].values| <= SumOf(stage.nnzCounts, l) <= stage.panel.nnz
  {
    SumOfMonotone(stage.rowCounts, k + 1, l);
    SumOfMonotone(stage.rowCounts, l, |slices|);
    SumOfMonotone(stage.nnzCounts, k + 1, l);
    SumOfMonotone(stage.nnzCounts, l, |slices|);
  }

  ghost predicate RowsCopied(rowPtr: seq<nat>, first: nat, slice: CsrMatrix, base: nat, from: int, to: int)
    requires Shaped(slice)
  {
    forall r :: from <= r < to && 0 <= r < slice.rows && first + r < |rowPtr| ==>
      rowPtr[first + r] == slice.rowPtr[r] + base
  }

  ghost predicate EntriesCopied(columns: seq<int>, values: seq<Value>, first: nat, slice: CsrMatrix)
    requires Shaped(slice)
  {
    && first + |slice.values| <= |columns| == |values|
    && columns[first..first + |slice.values|] == slice.columnIndices
    && values[first..first + |slice.values|] == slice.values
  }

  /** Segment l holds slice l with its own, not yet rebased, row pointers. */
  ghost predicate Arrived(stage: Stage, slices: seq<CsrMatrix>, l: nat,
                          rowPtr: seq<nat>, columns: seq<int>, values: seq<Value>)
    requires Planned(stage, slices) && l < |slices|
  {
    && RowsCopied(rowPtr, stage.rowOffsets[l], slices[l], 0, 0, slices[l].rows)
    && EntriesCopied(columns, values, stage.nnzOffsets[l], slices[l])
  }

  class PanelBuffer {
    var rows: nat
    var cols: nat
    var rowPtr: seq<nat>
    var columnIndices: seq<int>
    var values: seq<Value>

    constructor ()
    {
      rows, cols, rowPtr, columnIndices, values := 0, 0, [0], [], [];
    }

    ghost function Contents(): CsrMatrix
      reads this
    {
      CsrMatrix(rows, cols, rowPtr, columnIndices, values)
    }

    ghost predicate Sized(stage: Stage)
      reads this
    {
      && rows == stage.panel.rows && cols == stage.panel.cols && |rowPtr| == rows + 1
      && |columnIndices| == |values| == stage.panel.nnz
    }

    /** Copies one slice, still with its own row pointers, to its place. */
    method Place(slice: CsrMatrix, k: nat, stage: Stage, ghost slices: seq<CsrMatrix>)
      requires Planned(stage, slices) && k < |slices| && slice == slices[k] && Sized(stage)
      modifies this`rowPtr, this`columnIndices, this`values
      ensures Sized(stage)
      ensures Arrived(stage, slices, k, rowPtr, columnIndices, values)
      ensures forall l :: 0 <= l < |slices| && l != k && old(Arrived(stage, slices, l, rowPtr, columnIndices, values)) ==>
        Arrived(stage, slices, l, rowPtr, columnIndices, values)
    {
      Segments(stage, slices, k, k + 1);
      ghost var rowPtr0, columns0, values0 := rowPtr, columnIndices, values;
      rowPtr := CopyAt(rowPtr, stage.rowOffsets[k], slice.rowPtr[..slice.rows]);
      columnIndices := CopyAt(columnIndices, stage.nnzOffsets[k], slice.columnIndices);
      values := CopyAt(values, stage.nnzOffsets[k], slice.values);
      forall l | 0 <= l < |slices| && l != k
        ensures Arrived(stage, slices, l, rowPtr0, columns0, values0) ==>
                Arrived(stage, slices, l, rowPtr, columnIndices, values)
      {
        OtherSegment(stage, slices, k, l, rowPtr0, columns0, values0);
      }
    }

    /** Adds the segment's offset to its row pointers, one after another. */
    method RebaseSegment(k: nat, stage: Stage, ghost slices: seq<CsrMatrix>)
      requires Planned(stage, slices) && k < |slices| && Sized(stage)
      requires RowsCopied(rowPtr, stage.rowOffsets[k], slices[k], 0, 0, slices[k].rows)
      modifies this`rowPtr
      ensures Sized(stage)
      ensures RowsCopied(rowPtr, stage.rowOffsets[k], slices[k], stage.nnzOffsets[k], 0, slices[k].rows)
      ensures forall x :: 0 <= x < |rowPtr| && !(stage.rowOffsets[k] <= x < stage.rowOffsets[k] + slices[k].rows) ==>
        rowPtr[x] == old(rowPtr[x])
    {
      Segments(stage, slices, k, k + 1);
      var first := stage.rowOffsets[k];
      ghost var before := rowPtr;
      for r := 0 to stage.rowCounts[k]
        invariant Sized(stage)
        invariant forall x :: 0 <= x < |rowPtr| ==>
          rowPtr[x] == (if first <= x < first + r then before[x] + stage.nnzOffsets[k] else before[x])
      {
        rowPtr := rowPtr[first + r := rowPtr[first + r] + stage.nnzOffsets[k]];
      }
    }

    method Rebase(stage: Stage, ghost slices: seq<CsrMatrix>)
      requires Planned(stage, slices) && Sized(stage)
      requires forall l :: 0 <= l < |slices| ==> RowsCopied(rowPtr, stage.rowOffsets[l], slices[l], 0, 0, slices[l].rows)
      modifies this`rowPtr
      ensures Sized(stage)
      ensures forall l :: 0 <= l < |slices| ==>
        RowsCopied(rowPtr, stage.rowOffsets[l], slices[l], stage.nnzOffsets[l], 0, slices[l].rows)
    {
      for peer := 0 to |stage.rowCounts|
        invariant Sized(stage)
        invariant forall l :: 0 <= l < peer ==>
          RowsCopied(rowPtr, stage.rowOffsets[l], slices[l], stage.nnzOffsets[l], 0, slices[l].rows)
        invariant forall l :: peer <= l < |slices| ==>
          RowsCopied(rowPtr, stage.rowOffsets[l], slices[l], 0, 0, slices[l].rows)
      {
        ghost var before := rowPtr;
        RebaseSegment(peer, stage, slices);
        forall l | 0 <= l < |slices| && l != peer
          ensures RowsCopied(rowPtr, stage.rowOffsets[l], slices[l], if l < peer then stage.nnzOffsets[l] else 0, 0, slices[l].rows)
        {
          OtherRows(stage, slices, peer, l, before, rowPtr, if l < peer then stage.nnzOffsets[l] else 0);
        }
      }
    }

    method PlaceAll(slice: CsrMatrix, stage: Stage, local: nat, received: seq<CsrMatrix>)
      requires Planned(stage, received) && local < |received| && slice == received[local] && Sized(stage)
      modifies this`rowPtr, this`columnIndices, this`values
      ensures Sized(stage)
      ensures forall l :: 0 <= l < |received| ==> Arrived(stage, received, l, rowPtr, columnIndices, values)
    {
      Place(slice, local, stage, received);
      for peer := 0 to |received|
        invariant Sized(stage)
        invariant forall l :: (0 <= l < peer || l == local) ==>
          Arrived(stage, received, l, rowPtr, columnIndices, values)
      {
        if peer != local {
          Place(received[peer], peer, stage, received);
        }
      }
    }

    /** Exchanges slices within the node: own slice first, then every peer's, and row pointers
        are rebased once all of them have arrived. */
    method Assemble(slice: CsrMatrix, stage: Stage, local: nat, received: seq<CsrMatrix>)
      requires Planned(stage, received) && local < |received| && slice == received[local]
      modifies this
      ensures Contents() == FromRows(stage.panel.cols, ConcatBefore(received, |received|))
    {
      rows, cols := stage.panel.rows, stage.panel.cols;
      rowPtr := Resized(rowPtr, rows + 1, 0);
      columnIndices := Resized(columnIndices, stage.panel.nnz, 0);
      values := Resized(values, stage.panel.nnz, 0);
      PlaceAll(slice, stage, local, received);
      ArrivedAll(stage, received, rowPtr, columnIndices, values);
      Rebase(stage, received);
      ghost var rebased := rowPtr;
      rowPtr := rowPtr[rows := stage.panel.nnz];
      LastPointer(stage, received, rebased, rowPtr);
      PlacedFromSegments(stage, received, |received|, rowPtr, columnIndices, values);
      AssembledIsConcat(stage, received, |received|, rowPtr, columnIndices, values);
    }
  }

  /** A change inside segment k leaves every other segment as it was. */
  lemma OtherRows(stage: Stage, slices: seq<CsrMatrix>, k: nat, l: nat, before: seq<nat>, after: seq<nat>, base: nat)
    requires Planned(stage, slices) && k < |slices| && l < |slices| && k != l && |before| == |after|
    requires RowsCopied(before, stage.rowOffsets[l], slices[l], base, 0, slices[l].rows)
    requires forall x :: 0 <= x < |after| && !(stage.rowOffsets[k] <= x < stage.rowOffsets[k] + slices[k].rows) ==>
      after[x] == before[x]
    ensures RowsCopied(after, stage.rowOffsets[l], slices[l], base, 0, slices[l].rows)
  {
    if k < l {
      Segments(stage, slices, k, l);
    } else {
      Segments(stage, slices, l, k);
    }
  }

  lemma ArrivedAll(stage: Stage, slices: seq<CsrMatrix>, rowPtr: seq<nat>, columns: seq<int>, values: seq<Value>)
    requires Planned(stage, slices)
    requires forall l :: 0 <= l < |slices| ==> Arrived(stage, slices, l, rowPtr, columns, values)
    ensures forall l :: 0 <= l < |slices| ==> RowsCopied(rowPtr, stage.rowOffsets[l], slices[l], 0, 0, slices[l].rows)
    ensures forall l :: 0 <= l < |slices| ==> EntriesCopied(columns, values, stage.nnzOffsets[l], slices[l])
  {
    forall l | 0 <= l < |slices|
      ensures RowsCopied(rowPtr, stage.rowOffsets[l], slices[l], 0, 0, slices[l].rows)
      ensures EntriesCopied(columns, values, stage.nnzOffsets[l], slices[l])
    {
      assert Arrived(stage, slices, l, rowPtr, columns, values);
    }
  }

  /** Writing the closing pointer touches no segment. */
  lemma LastPointer(stage: Stage, slices: seq<CsrMatrix>, before: seq<nat>, after: seq<nat>)
    requires Planned(stage, slices) && |before| == stage.panel.rows + 1
    requires after == before[stage.panel.rows := stage.panel.nnz]
    requires forall l :: 0 <= l < |slices| ==>
      RowsCopied(before, stage.rowOffsets[l], slices[l], stage.nnzOffsets[l], 0, slices[l].rows)
    ensures forall l :: 0 <= l < |slices| ==>
      RowsCopied(after, stage.rowOffsets[l], slices[l], stage.nnzOffsets[l], 0, slices[l].rows)
  {
    hide RowsCopied, SumOf;
    forall l | 0 <= l < |slices|
      ensures RowsCopied(after, stage.rowOffsets[l], slices[l], stage.nnzOffsets[l], 0, slices[l].rows)
    {
      SegmentInside(stage, slices, l);
      BeyondRows(before, stage.rowOffsets[l], slices[l], stage.nnzOffsets[l], stage.panel.rows, stage.panel.nnz);
    }
  }

  lemma SegmentInside(stage: Stage, slices: seq<CsrMatrix>, l: nat)
    requires Planned(stage, slices) && l < |slices|
    ensures |stage.rowOffsets| == |stage.nnzOffsets| == |slices| && stage.rowOffsets[l] + slices[l].rows <= stage.panel.rows
  {
    Segments(stage, slices, l, l + 1);
  }

  lemma BeyondRows(rowPtr: seq<nat>, first: nat, slice: CsrMatrix, base: nat, x: nat, value: nat)
    requires Shaped(slice) && x < |rowPtr| && first + slice.rows <= x && RowsCopied(rowPtr, first, slice, base, 0, slice.rows)
    ensures RowsCopied(rowPtr[x := value], first, slice, base, 0, slice.rows)
  {
  }

  lemma OtherSegment(stage: Stage, slices: seq<CsrMatrix>, k: nat, l: nat,
                     rowPtr: seq<nat>, columns: seq<int>, values: seq<Value>)
    requires Planned(stage, slices) && k < |slices| && l < |slices| && k != l
    requires |rowPtr| == stage.panel.rows + 1 && |columns| == |values| == stage.panel.nnz
    ensures stage.rowOffsets[k] + slices[k].rows <= stage.panel.rows
    ensures stage.nnzOffsets[k] + |slices[k].values| <= stage.panel.nnz
    ensures Arrived(stage, slices, l, rowPtr, columns, values) ==>
            Arrived(stage, slices, l, CopyAt(rowPtr, stage.rowOffsets[k], slices[k].rowPtr[..slices[k].rows]),
                    CopyAt(columns, stage.nnzOffsets[k], slices[k].columnIndices),
                    CopyAt(values, stage.nnzOffsets[k], slices[k].values))
  {
    hide RowsCopied, EntriesCopied, CopyAt, PanelOffsets, SumOf;
    SegmentsApart(stage, slices, k, l);
    RowsElsewhere(rowPtr, stage.rowOffsets[l], slices[l], stage.rowOffsets[k], slices[k].rowPtr[..slices[k].rows]);
    EntriesElsewhere(columns, values, stage.nnzOffsets[l], slices[l], stage.nnzOffsets[k], slices[k]);
  }

  lemma SegmentsApart(stage: Stage, slices: seq<CsrMatrix>, k: nat, l: nat)
    requires Planned(stage, slices) && k < |slices| && l < |slices| && k != l
    ensures |stage.rowOffsets| == |stage.nnzOffsets| == |slices|
    ensures stage.rowOffsets[k] + slices[k].rows <= stage.panel.rows && stage.nnzOffsets[k] + |slices[k].values| <= stage.panel.nnz
    ensures stage.rowOffsets[k] + slices[k].rows <= stage.rowOffsets[l] || stage.rowOffsets[l] + slices[l].rows <= stage.rowOffsets[k]
    ensures stage.nnzOffsets[k] + |slices[k].values| <= stage.nnzOffsets[l] ||
            stage.nnzOffsets[l] + |slices[l].values| <= stage.nnzOffsets[k]
  {
    hide SumOf;
    Segments(stage, slices, k, k + 1);
    if k < l {
      Segments(stage, slices, k, l);
    } else {
      Segments(stage, slices, l, k);
    }
  }

  lemma RowsElsewhere(rowPtr: seq<nat>, first: nat, slice: CsrMatrix, at: nat, data: seq<nat>)
    requires Shaped(slice) && at + |data| <= |rowPtr| && (at + |data| <= first || first + slice.rows <= at)
    ensures RowsCopied(rowPtr, first, slice, 0, 0, slice.rows) ==> RowsCopied(CopyAt(rowPtr, at, data), first, slice, 0, 0, slice.rows)
  {
  }

  lemma EntriesElsewhere(columns: seq<int>, values: seq<Value>, first: nat, slice: CsrMatrix, at: nat, other: CsrMatrix)
    requires Shaped(slice) && Shaped(other) && |columns| == |values| && at + |other.values| <= |columns|
    requires at + |other.values| <= first || first + |slice.values| <= at
    ensures EntriesCopied(columns, values, first, slice) ==>
            EntriesCopied(CopyAt(columns, at, other.columnIndices), CopyAt(values, at, other.values), first, slice)
  {
    if EntriesCopied(columns, values, first, slice) {
      SliceKept(columns, at, other.columnIndices, first, |slice.values|);
      SliceKept(values, at, other.values, first, |slice.values|);
    }
  }

  lemma SliceKept(s: seq<int>, at: nat, data: seq<int>, first: nat, n: nat)
    requires at + |data| <= |s| && first + n <= |s| && (at + |data| <= first || first + n <= at)
    ensures CopyAt(s, at, data)[first..first + n] == s[first..first + n]
  {
  }

  // ----- the assembled arrays are those of the concatenated rows

  lemma {:induction false} FlattenOfConcat(xs: seq<Row>, ys: seq<Row>, n: nat)
    requires n <= |xs|
    ensures Flatten(xs + ys, n) == Flatten(xs, n)
  {
    if n > 0 {
      FlattenOfConcat(xs, ys, n - 1);
    }
  }

  lemma {:induction false} FlattenPastConcat(xs: seq<Row>, ys: seq<Row>, n: nat)
    requires n <= |ys|
    ensures Flatten(xs + ys, |xs| + n) == Flatten(xs, |xs|) + Flatten(ys, n)
  {
    hide Flatten;
    if n == 0 {
      FlattenOfConcat(xs, ys, |xs|);
      FlattenNone(ys);
    } else {
      FlattenPastConcat(xs, ys, n - 1);
      FlattenNext(xs + ys, |xs| + n - 1);
      FlattenNext(ys, n - 1);
      assert (xs + ys)[|xs| + n - 1] == ys[n - 1];
    }
  }

  /** Up to slice k: every row pointer but the last is the number of entries before its row. */
  ghost predicate PrefixAssembled(rows: seq<Row>, rowPtr: seq<nat>, columns: seq<int>, values: seq<Value>, nnz: nat) {
    && |rows| < |rowPtr| && |columns| == |values|
    && |Flatten(rows, |rows|)| == nnz <= |values|
    && (forall r :: 0 <= r < |rows| ==> rowPtr[r] == |Flatten(rows, r)|)
    && (forall p :: 0 <= p < nnz ==> Flatten(rows, |rows|)[p] == Entry(columns[p], values[p]))
  }

  lemma PrefixGrows(rows: seq<Row>, slice: CsrMatrix, rowPtr: seq<nat>, columns: seq<int>, values: seq<Value>, nnz: nat)
    requires Shaped(slice) && PrefixAssembled(rows, rowPtr, columns, values, nnz)
    requires |rows| + slice.rows < |rowPtr|
    requires RowsCopied(rowPtr, |rows|, slice, nnz, 0, slice.rows)
    requires EntriesCopied(columns, values, nnz, slice)
    ensures PrefixAssembled(rows + Rows(slice), rowPtr, columns, values, nnz + |slice.values|)
  {
    var more := rows + Rows(slice);
    forall r | 0 <= r < |more| ensures rowPtr[r] == |Flatten(more, r)| {
      if r < |rows| {
        FlattenOfConcat(rows, Rows(slice), r);
      } else {
        FlattenPastConcat(rows, Rows(slice), r - |rows|);
        FlattenOfRows(slice, Rows(slice), r - |rows|);
      }
    }
    FlattenPastConcat(rows, Rows(slice), slice.rows);
    FlattenOfRows(slice, Rows(slice), slice.rows);
    forall p | 0 <= p < nnz + |slice.values|
      ensures Flatten(more, |more|)[p] == Entry(columns[p], values[p])
    {
      if p >= nnz {
        assert columns[nnz..nnz + |slice.values|][p - nnz] == columns[p];
        assert values[nnz..nnz + |slice.values|][p - nnz] == values[p];
      }
    }
  }

  /** The first n segments hold their slices, row pointers already rebased. */
  ghost predicate Placed(stage: Stage, slices: seq<CsrMatrix>, n: nat,
                         rowPtr: seq<nat>, columns: seq<int>, values: seq<Value>)
    requires Planned(stage, slices) && n <= |slices|
  {
    n == 0 ||
    (&& Placed(stage, slices, n - 1, rowPtr, columns, values)
     && RowsCopied(rowPtr, stage.rowOffsets[n - 1], slices[n - 1], stage.nnzOffsets[n - 1], 0, slices[n - 1].rows)
     && EntriesCopied(columns, values, stage.nnzOffsets[n - 1], slices[n - 1]))
  }

  lemma {:induction false} PlacedFromSegments(stage: Stage, slices: seq<CsrMatrix>, n: nat,
                                              rowPtr: seq<nat>, columns: seq<int>, values: seq<Value>)
    requires Planned(stage, slices) && n <= |slices|
    requires forall l :: 0 <= l < |slices| ==>
      RowsCopied(rowPtr, stage.rowOffsets[l], slices[l], stage.nnzOffsets[l], 0, slices[l].rows)
    requires forall l :: 0 <= l < |slices| ==> EntriesCopied(columns, values, stage.nnzOffsets[l], slices[l])
    ensures Placed(stage, slices, n, rowPtr, columns, values)
  {
    hide RowsCopied, EntriesCopied, SumOf, PanelOffsets, Shaped;
    if n > 0 {
      PlacedFromSegments(stage, slices, n - 1, rowPtr, columns, values);
    }
  }

  lemma {:induction false} PrefixOfSlices(stage: Stage, slices: seq<CsrMatrix>, n: nat,
                                          rowPtr: seq<nat>, columns: seq<int>, values: seq<Value>)
    requires Planned(stage, slices) && n <= |slices|
    requires |rowPtr| == stage.panel.rows + 1 && |columns| == |values| == stage.panel.nnz
    requires Placed(stage, slices, n, rowPtr, columns, values)
    ensures |ConcatBefore(slices, n)| == SumOf(stage.rowCounts, n)
    ensures PrefixAssembled(ConcatBefore(slices, n), rowPtr, columns, values, SumOf(stage.nnzCounts, n))
  {
    if n > 0 {
      PrefixOfSlices(stage, slices, n - 1, rowPtr, columns, values);
      Segments(stage, slices, n - 1, n);
      PrefixGrows(ConcatBefore(slices, n - 1), slices[n - 1], rowPtr, columns, values, SumOf(stage.nnzCounts, n - 1));
    }
  }

  lemma AssembledIsConcat(stage: Stage, slices: seq<CsrMatrix>, n: nat, rowPtr: seq<nat>, columns: seq<int>, values: seq<Value>)
    requires Planned(stage, slices)
    requires |rowPtr| == stage.panel.rows + 1 && |columns| == |values| == stage.panel.nnz
    requires rowPtr[stage.panel.rows] == stage.panel.nnz
    requires n == |slices| && Placed(stage, slices, n, rowPtr, columns, values)
    ensures CsrMatrix(stage.panel.rows, stage.panel.cols, rowPtr, columns, values) ==
            FromRows(stage.panel.cols, ConcatBefore(slices, n))
  {
    PrefixOfSlices(stage, slices, n, rowPtr, columns, values);
    ClosedPrefix(stage.panel.cols, ConcatBefore(slices, n), rowPtr, columns, values);
  }

  lemma ClosedPrefix(cols: nat, rows: seq<Row>, rowPtr: seq<nat>, columns: seq<int>, values: seq<Value>)
    requires PrefixAssembled(rows, rowPtr, columns, values, |values|)
    requires |rowPtr| == |rows| + 1 && rowPtr[|rows|] == |values|
    ensures CsrMatrix(|rows|, cols, rowPtr, columns, values) == FromRows(cols, rows)
  {
    EntriesAreColumns(Flatten(rows, |rows|), columns, values);
    HoldIsFromRows(cols, rowPtr, columns, values, rows);
  }

  lemma EntriesAreColumns(row: Row, columns: seq<int>, values: seq<Value>)
    requires |row| == |columns| == |values|
    requires forall p :: 0 <= p < |row| ==> row[p] == Entry(columns[p], values[p])
    ensures columns == Columns(row) && values == Values(row)
  {
  }
}
