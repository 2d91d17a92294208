/** A row-distributed baseline from end to end: distribute, plan, exchange, multiply, gather. */
module Baseline {
  import opened Csr
  import opened Serial
  import opened Partition
  import opened Blocks
  import opened RowPlan
  import opened Halo
  import opened HaloExchange
  import opened Kernel

  // ----- distribution

  lemma SlicedRowOf(m: CsrMatrix, slice: CsrMatrix, block: RowBlock, r: nat)
    requires Shaped(m) && Shaped(slice) && block.firstRow + block.rows <= m.rows && slice.rows == block.rows && r < block.rows
    requires var first, last := m.rowPtr[block.firstRow], m.rowPtr[block.firstRow + block.rows];
             && first <= last <= |m.values| == |m.columnIndices|
             && slice.columnIndices == m.columnIndices[first..last] && slice.values == m.values[first..last]
             && slice.rowPtr[r] == m.rowPtr[block.firstRow + r] - first
             && slice.rowPtr[r + 1] == m.rowPtr[block.firstRow + r + 1] - first
    ensures RowOf(slice, r) == BRow(Rows(m), block.firstRow + r)
  {
    hide RowOf, Rows;
    RowsAt(m, block.firstRow + r);
    var first := m.rowPtr[block.firstRow];
    var row := RowOf(m, block.firstRow + r);
    RowExtent(m, block.firstRow + r);
    RowExtent(slice, r);
    forall q | 0 <= q < |row| ensures RowOf(slice, r)[q] == row[q] {
      RowOfAt(m, block.firstRow + r, m.rowPtr[block.firstRow + r] + q);
      RowOfAt(slice, r, slice.rowPtr[r] + q);
    }
  }

  method SliceRows(matrix: CsrMatrix, block: RowBlock) returns (slice: CsrMatrix)
    requires Shaped(matrix) && block.firstRow + block.rows <= matrix.rows
    ensures LocalRows(slice, Rows(matrix), block, matrix.cols)
  {
    var firstEntry, lastEntry := matrix.rowPtr[block.firstRow], matrix.rowPtr[block.firstRow + block.rows];
    assert lastEntry <= matrix.rowPtr[matrix.rows];
    var rowPtr: seq<nat> := [];
    for row := 0 to block.rows + 1
      invariant |rowPtr| == row
      invariant forall r :: 0 <= r < row ==> rowPtr[r] == matrix.rowPtr[block.firstRow + r] - firstEntry
    {
      rowPtr := rowPtr + [matrix.rowPtr[block.firstRow + row] - firstEntry];
    }
    slice := CsrMatrix(block.rows, matrix.cols, rowPtr, matrix.columnIndices[firstEntry..lastEntry],
                       matrix.values[firstEntry..lastEntry]);
    forall r | 0 <= r < block.rows ensures RowOf(slice, r) == BRow(Rows(matrix), block.firstRow + r) {
      SlicedRowOf(matrix, slice, block, r);
    }
  }

  method DistributeMatrix(matrix: CsrMatrix, blocks: seq<RowBlock>) returns (locals: seq<CsrMatrix>)
    requires Shaped(matrix) && |blocks| > 0
    requires forall t :: 0 <= t < |blocks| ==> blocks[t] == Block(matrix.rows, |blocks|, t)
    ensures |locals| == |blocks| && Owned(locals, Rows(matrix), matrix.rows, matrix.cols)
  {
    locals := [];
    for p := 0 to |blocks|
      invariant |locals| == p
      invariant forall q :: 0 <= q < p ==> LocalRows(locals[q], Rows(matrix), Block(matrix.rows, |blocks|, q), matrix.cols)
    {
      BlockInside(matrix.rows, |blocks|, p);
      var local := SliceRows(matrix, blocks[p]);
      locals := locals + [local];
    }
  }

  // ----- one rank

  lemma {:induction false} RowOfEntry(m: CsrMatrix, p: nat, n: nat) returns (r: nat)
    requires Shaped(m) && n <= m.rows && p < m.rowPtr[n]
    ensures r < n && m.rowPtr[r] <= p < m.rowPtr[r + 1]
  {
    if p < m.rowPtr[n - 1] {
      r := RowOfEntry(m, p, n - 1);
    } else {
      r := n - 1;
    }
  }

  /** All stored columns are in range exactly when every row's columns are. */
  lemma ColumnsInRange(m: CsrMatrix, limit: nat)
    requires Shaped(m)
    ensures (forall c :: c in m.columnIndices ==> 0 <= c < limit) <==>
            (forall r :: 0 <= r < m.rows ==> ColumnsBelow(RowOf(m, r), limit))
  {
    if forall c :: c in m.columnIndices ==> 0 <= c < limit {
      forall r | 0 <= r < m.rows ensures ColumnsBelow(RowOf(m, r), limit) {
        forall q | 0 <= q < |RowOf(m, r)| ensures 0 <= RowOf(m, r)[q].column < limit {
          RowOfAt(m, r, m.rowPtr[r] + q);
          assert m.columnIndices[m.rowPtr[r] + q] in m.columnIndices;
        }
      }
    }
    if forall r :: 0 <= r < m.rows ==> ColumnsBelow(RowOf(m, r), limit) {
      forall c | c in m.columnIndices ensures 0 <= c < limit {
        var p :| 0 <= p < |m.columnIndices| && m.columnIndices[p] == c;
        var r := RowOfEntry(m, p, m.rows);
        RowOfAt(m, r, p);
        assert ColumnsBelow(RowOf(m, r), limit);
      }
    }
  }

  /** Plan, exchange and kernel of one rank; it fails exactly when its part of A leaves B's rows. */
  method RunRank(transport: Transport, ar: Arith, aLocal: CsrMatrix, rank: nat, bLocals: seq<CsrMatrix>, blocks: seq<RowBlock>,
                 ghost b: CsrMatrix)
    returns (result: Result<CsrMatrix>)
    requires Shaped(aLocal) && Valid(b) && rank < |bLocals| && |blocks| == |bLocals|
    requires (forall t :: 0 <= t < |blocks| ==> blocks[t] == Block(b.rows, |blocks|, t)) && Owned(bLocals, Rows(b), b.rows, b.cols)
    ensures result.Ok? <==> forall r :: 0 <= r < aLocal.rows ==> ColumnsBelow(RowOf(aLocal, r), b.rows)
    ensures result.Ok? ==>
      result.value == FromRows(b.cols, LocalProductRows(ar, aLocal, Rows(b), b.cols, aLocal.rows))
  {
    ColumnsInRange(aLocal, b.rows);
    var planned := BuildRemoteRowPlan(aLocal.columnIndices, blocks, rank, b.rows);
    if planned.Error? {
      return Error(planned.message);
    }
    var plan := planned.value;
    var halo := FetchHalo(transport, plan, bLocals, blocks, aLocal.columnIndices, rank, Rows(b), b.rows, b.cols);
    PlanReaches(plan, aLocal.columnIndices, b.rows, |blocks|, rank, blocks[rank]);
    assert LocalRows(bLocals[rank], Rows(b), Block(b.rows, |bLocals|, rank), b.cols);
    forall r | 0 <= r < b.rows ensures ColumnsBelow(Rows(b)[r], b.cols) {
      RowsAt(b, r);
    }
    var product := Spgemm(ar, aLocal, bLocals[rank], blocks[rank], halo, plan, Rows(b));
    result := Ok(product);
  }

  lemma PlanReaches(plan: RemoteRowPlan, columns: seq<int>, total: nat, ranks: nat, rank: nat, block: RowBlock)
    requires ranks > 0 && PlanOk(plan, columns, total, ranks, rank) && block == Block(total, ranks, rank)
    requires forall c :: c in columns ==> 0 <= c < total
    ensures Reachable(columns, block, plan)
  {
    StartStep(total, ranks, rank);
    forall c | c in columns ensures block.firstRow <= c < block.firstRow + block.rows || c in plan.rowToSlot {
      PlanCoversExactly(plan, columns, total, ranks, rank, c);
    }
  }

  // ----- gathering

  /** The first n rows of the product are in place. */
  ghost predicate GatheredTo(rowPtr: seq<nat>, columns: seq<int>, values: seq<Value>, product: seq<Row>, n: nat) {
    && PrefixTo(rowPtr, product, n, |values|)
    && columns == Columns(Flatten(product, n)) && values == Values(Flatten(product, n))
  }

  lemma GatheredShape(rowPtr: seq<nat>, columns: seq<int>, values: seq<Value>, product: seq<Row>, n: nat)
    requires GatheredTo(rowPtr, columns, values, product, n)
    ensures |rowPtr| == |product| + 1
  {
  }

  lemma GatherRow(rowPtr: seq<nat>, columns: seq<int>, values: seq<Value>, product: seq<Row>, n: nat)
    requires n < |product| && GatheredTo(rowPtr, columns, values, product, n)
    ensures GatheredTo(rowPtr[n + 1 := rowPtr[n] + |product[n]|], columns + Columns(product[n]), values + Values(product[n]),
                       product, n + 1)
  {
    ColumnsAppend(Flatten(product, n), product[n]);
  }

  /** Appends a rank's rows; a block of another shape is refused. */
  method AppendCsrBlock(rowPtr0: seq<nat>, columns0: seq<int>, values0: seq<Value>, local: CsrMatrix, block: RowBlock,
                        resultCols: nat, ghost product: seq<Row>)
    returns (outcome: Result<(seq<nat>, seq<int>, seq<Value>)>)
    requires Shaped(local) && GatheredTo(rowPtr0, columns0, values0, product, block.firstRow)
    requires block.firstRow + block.rows <= |product|
    requires local.rows == block.rows ==> forall r :: 0 <= r < local.rows ==> RowOf(local, r) == product[block.firstRow + r]
    ensures outcome.Ok? <==> local.rows == block.rows && local.cols == resultCols
    ensures outcome.Ok? ==>
      GatheredTo(outcome.value.0, outcome.value.1, outcome.value.2, product, block.firstRow + block.rows)
  {
    hide PrefixTo, Flatten;
    if local.rows != block.rows || local.cols != resultCols {
      return Error("received a result block with an unexpected shape");
    }
    hide GatheredTo, RowOf, Columns, Values, Shaped;
    var rowPtr, columns, values := rowPtr0, columns0, values0;
    GatheredShape(rowPtr, columns, values, product, block.firstRow);
    for row := 0 to local.rows
      invariant GatheredTo(rowPtr, columns, values, product, block.firstRow + row) && |rowPtr| == |product| + 1
    {
      ghost var n, stored := block.firstRow + row, RowOf(local, row);
      GatherRow(rowPtr, columns, values, product, n);
      var rowColumns, rowValues := LocalSparseRow(local, row, stored);
      RowExtent(local, row);
      var first, last := local.rowPtr[row], local.rowPtr[row + 1];
      rowPtr := rowPtr[block.firstRow + row + 1 := rowPtr[block.firstRow + row] + (last - first)];
      columns, values := columns + rowColumns, values + rowValues;
    }
    outcome := Ok((rowPtr, columns, values));
  }

  lemma LocalRowIs(a: CsrMatrix, aLocal: CsrMatrix, block: RowBlock, r: nat)
    requires Shaped(a) && LocalRows(aLocal, Rows(a), block, a.cols) && block.firstRow + block.rows <= a.rows && r < block.rows
    ensures RowOf(aLocal, r) == RowOf(a, block.firstRow + r)
  {
    RowsAt(a, block.firstRow + r);
    assert RowOf(aLocal, r) == BRow(Rows(a), block.firstRow + r);
  }

  /** A rank's rows of the product are its block of the serial rows. */
  lemma LocalIsSerial(ar: Arith, a: CsrMatrix, b: CsrMatrix, aLocal: CsrMatrix, r: nat, g: nat, row: Row)
    requires Shaped(a) && Shaped(b) && Shaped(aLocal) && r < aLocal.rows && g < a.rows
    requires row == RowOf(aLocal, r) == RowOf(a, g)
    ensures LocalProductRows(ar, aLocal, Rows(b), b.cols, aLocal.rows)[r] == SerialRows(ar, a, b)[g]
  {
    SerialRowsAt(ar, a, b, a.rows, g);
  }

  /** A rank's local product holds its block of the serial rows. */
  lemma LocalResult(ar: Arith, a: CsrMatrix, b: CsrMatrix, aLocal: CsrMatrix, block: RowBlock, result: CsrMatrix)
    requires Shaped(a) && Shaped(b) && LocalRows(aLocal, Rows(a), block, a.cols) && block.firstRow + block.rows <= a.rows
    requires result == FromRows(b.cols, LocalProductRows(ar, aLocal, Rows(b), b.cols, aLocal.rows))
    ensures Shaped(result) && result.rows == block.rows && result.cols == b.cols
    ensures forall r :: 0 <= r < block.rows ==> RowOf(result, r) == SerialRows(ar, a, b)[block.firstRow + r]
  {
    hide RowOf, Rows, SerialRows, LocalProductRows;
    var rows := LocalProductRows(ar, aLocal, Rows(b), b.cols, aLocal.rows);
    FromRowsShaped(b.cols, rows);
    forall r | 0 <= r < block.rows ensures RowOf(result, r) == SerialRows(ar, a, b)[block.firstRow + r] {
      FromRowsRow(b.cols, rows, r);
      LocalRowIs(a, aLocal, block, r);
      LocalIsSerial(ar, a, b, aLocal, r, block.firstRow + r, RowOf(aLocal, r));
    }
  }

  /** The rows the first p ranks hold are within B. */
  ghost predicate RowsWithin(a: CsrMatrix, limit: nat, n: nat)
    requires Shaped(a)
  {
    n <= a.rows && forall g :: 0 <= g < n ==> ColumnsBelow(RowOf(a, g), limit)
  }

  /** One rank's columns are in range exactly when its rows of A are. */
  lemma RowsWithinBlock(a: CsrMatrix, aLocal: CsrMatrix, block: RowBlock, limit: nat)
    requires Shaped(a) && LocalRows(aLocal, Rows(a), block, a.cols) && block.firstRow + block.rows <= a.rows
    requires RowsWithin(a, limit, block.firstRow)
    ensures (forall r :: 0 <= r < aLocal.rows ==> ColumnsBelow(RowOf(aLocal, r), limit)) <==>
            RowsWithin(a, limit, block.firstRow + block.rows)
  {
    forall r | 0 <= r < block.rows ensures RowOf(aLocal, r) == RowOf(a, block.firstRow + r) {
      LocalRowIs(a, aLocal, block, r);
    }
    if forall r :: 0 <= r < aLocal.rows ==> ColumnsBelow(RowOf(aLocal, r), limit) {
      forall g | 0 <= g < block.firstRow + block.rows ensures ColumnsBelow(RowOf(a, g), limit) {
        if g >= block.firstRow {
          assert RowOf(aLocal, g - block.firstRow) == RowOf(a, block.firstRow + (g - block.firstRow));
        }
      }
    }
    if RowsWithin(a, limit, block.firstRow + block.rows) {
      forall r | 0 <= r < aLocal.rows ensures ColumnsBelow(RowOf(aLocal, r), limit) {
        assert RowOf(aLocal, r) == RowOf(a, block.firstRow + r);
      }
    }
  }

  /** One rank's result, appended to the global one. */
  method RunAndAppend(transport: Transport, ar: Arith, aLocal: CsrMatrix, outputBlock: RowBlock, rank: nat,
                      bLocals: seq<CsrMatrix>, blocks: seq<RowBlock>, resultCols: nat,
                      rowPtr0: seq<nat>, columns0: seq<int>, values0: seq<Value>, ghost a: CsrMatrix, ghost b: CsrMatrix)
    returns (outcome: Result<(seq<nat>, seq<int>, seq<Value>)>)
    requires Shaped(a) && Valid(b) && rank < |bLocals| && |blocks| == |bLocals| && resultCols == b.cols
    requires (forall t :: 0 <= t < |blocks| ==> blocks[t] == Block(b.rows, |blocks|, t)) && Owned(bLocals, Rows(b), b.rows, b.cols)
    requires LocalRows(aLocal, Rows(a), outputBlock, a.cols) && outputBlock.firstRow + outputBlock.rows <= a.rows
    requires RowsWithin(a, b.rows, outputBlock.firstRow)
    requires GatheredTo(rowPtr0, columns0, values0, SerialRows(ar, a, b), outputBlock.firstRow)
    ensures outcome.Ok? <==> RowsWithin(a, b.rows, outputBlock.firstRow + outputBlock.rows)
    ensures outcome.Ok? ==>
      GatheredTo(outcome.value.0, outcome.value.1, outcome.value.2, SerialRows(ar, a, b), outputBlock.firstRow + outputBlock.rows)
  {
    hide RowOf, Rows, FromRows, SerialRows, LocalProductRows, GatheredTo, ColumnsBelow;
    RowsWithinBlock(a, aLocal, outputBlock, b.rows);
    var result := RunRank(transport, ar, aLocal, rank, bLocals, blocks, b);
    if result.Error? {
      return Error(result.message);
    }
    LocalResult(ar, a, b, aLocal, outputBlock, result.value);
    outcome := AppendCsrBlock(rowPtr0, columns0, values0, result.value, outputBlock, resultCols, SerialRows(ar, a, b));
  }

  lemma WithinFewer(a: CsrMatrix, limit: nat, m: nat)
    requires Shaped(a) && m <= a.rows
    ensures RowsWithin(a, limit, a.rows) ==> RowsWithin(a, limit, m)
  {
    hide RowOf, ColumnsBelow;
  }

  lemma Compatibility(a: CsrMatrix, b: CsrMatrix)
    requires Shaped(a) && Shaped(b)
    ensures Compatible(a, b) <==> a.cols == b.rows && RowsWithin(a, b.rows, a.rows)
  {
    hide RowOf, ColumnsBelow;
  }

  lemma Beginning(ar: Arith, a: CsrMatrix, b: CsrMatrix)
    requires Shaped(a) && Shaped(b)
    ensures RowsWithin(a, b.rows, 0) && GatheredTo(seq(a.rows + 1, _ => 0), [], [], SerialRows(ar, a, b), 0)
  {
  }

  lemma Ending(ar: Arith, a: CsrMatrix, b: CsrMatrix, rowPtr: seq<nat>, columns: seq<int>, values: seq<Value>)
    requires Shaped(a) && Shaped(b) && GatheredTo(rowPtr, columns, values, SerialRows(ar, a, b), a.rows)
    ensures CsrMatrix(a.rows, b.cols, rowPtr, columns, values) == SerialProduct(ar, a, b)
  {
    hide SerialRows, FromRows;
    HoldIsFromRows(b.cols, rowPtr, columns, values, SerialRows(ar, a, b));
  }

  lemma OwnBlock(aLocals: seq<CsrMatrix>, a: CsrMatrix, rank: nat)
    requires Shaped(a) && rank < |aLocals| && Owned(aLocals, Rows(a), a.rows, a.cols)
    ensures LocalRows(aLocals[rank], Rows(a), Block(a.rows, |aLocals|, rank), a.cols)
  {
    hide Rows, LocalRows;
  }

  /** The whole baseline over any transport: it fails exactly where the serial product fails, and
      otherwise gives the serial product, for any operations whatever. */
  method BaselineProduct(transport: Transport, ar: Arith, a: CsrMatrix, b: CsrMatrix, ranks: nat) returns (result: Result<CsrMatrix>)
    requires Shaped(a) && Valid(b) && ranks > 0
    ensures result.Ok? <==> Compatible(a, b)
    ensures result.Ok? ==> result.value == SerialProduct(ar, a, b)
  {
    hide RowOf, Rows, FromRows, BlockRows, Start, GatheredTo, RowsWithin, SerialRows, ColumnsBelow, Owned;
    Compatibility(a, b);
    if a.cols != b.rows {
      return Error("SpGEMM requires A.cols == B.rows");
    }
    var outputBlocks := PartitionRows(a.rows, ranks);
    var bRowBlocks := PartitionRows(b.rows, ranks);
    var aLocals := DistributeMatrix(a, outputBlocks);
    var bLocals := DistributeMatrix(b, bRowBlocks);
    var rowPtr: seq<nat>, columns: seq<int>, values: seq<Value> := seq(a.rows + 1, _ => 0), [], [];
    StartEnds(a.rows, ranks);
    Beginning(ar, a, b);
    for rank := 0 to ranks
      invariant RowsWithin(a, b.rows, Start(a.rows, ranks, rank))
      invariant GatheredTo(rowPtr, columns, values, SerialRows(ar, a, b), Start(a.rows, ranks, rank))
    {
      BlockInside(a.rows, ranks, rank);
      OwnBlock(aLocals, a, rank);
      assert Start(a.rows, ranks, rank) + Block(a.rows, ranks, rank).rows == Start(a.rows, ranks, rank + 1);
      var outcome := RunAndAppend(transport, ar, aLocals[rank], outputBlocks[rank], rank, bLocals, bRowBlocks, b.cols,
                                  rowPtr, columns, values, a, b);
      WithinFewer(a, b.rows, Start(a.rows, ranks, rank + 1));
      if outcome.Error? {
        return Error(outcome.message);
      }
      rowPtr, columns, values := outcome.value.0, outcome.value.1, outcome.value.2;
    }
    Ending(ar, a, b, rowPtr, columns, values);
    result := Ok(CsrMatrix(a.rows, b.cols, rowPtr, columns, values));
  }
}
