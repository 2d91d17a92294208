/** The local kernel of the baselines: the serial order of operations, with rows of B taken from
    the rank's own block or from its halo. */
module Kernel {
  import opened Csr
  import opened Serial
  import opened Partition
  import opened RowPlan
  import opened Slots
  import opened Halo
  import opened HaloExchange

  lemma SlotOfHold(rowPtr: seq<nat>, columns: seq<int>, values: seq<Value>, rows: seq<Row>, s: nat)
    requires Hold(rowPtr, columns, values, rows, |rows|) && s < |rows|
    ensures rowPtr[s + 1] == rowPtr[s] + |rows[s]| && FilledAt(columns, values, rowPtr[s], rows[s])
  {
    SlotEnds(rows, s, |rows|);
    FlattenNext(rows, s);
    forall q | 0 <= q < |rows[s]| ensures Flatten(rows, |rows|)[|Flatten(rows, s)| + q] == rows[s][q] {
      FlattenAt(rows, s, q);
    }
  }

  lemma SlicesOfFilled(columns: seq<int>, values: seq<Value>, at: nat, row: Row)
    requires FilledAt(columns, values, at, row)
    ensures columns[at..at + |row|] == Columns(row) && values[at..at + |row|] == Values(row)
  {
  }

  /** The stored arrays of a halo slot. */
  method RemoteSparseRow(halo: RemoteSparseRows, slot: nat, ghost rows: seq<Row>) returns (columns: seq<int>, values: seq<Value>)
    requires Hold(halo.rowPtr, halo.columnIndices, halo.values, rows, |rows|) && slot < |rows|
    ensures columns == Columns(rows[slot]) && values == Values(rows[slot])
  {
    SlotOfHold(halo.rowPtr, halo.columnIndices, halo.values, rows, slot);
    var first, last := halo.rowPtr[slot], halo.rowPtr[slot + 1];
    SlicesOfFilled(halo.columnIndices, halo.values, first, rows[slot]);
    columns, values := halo.columnIndices[first..last], halo.values[first..last];
  }

  /** Row `globalRow` of B, wherever it is; a row neither owned nor planned is an error. */
  method BRowForColumn(bLocal: CsrMatrix, block: RowBlock, halo: RemoteSparseRows, plan: RemoteRowPlan, globalRow: int,
                       ghost bRows: seq<Row>)
    returns (view: Result<(seq<int>, seq<Value>)>)
    requires LocalRows(bLocal, bRows, block, bLocal.cols)
    requires SlotsOk(plan.flatRows, plan.rowToSlot) && HaloOk(halo, bRows, plan.flatRows)
    ensures view.Ok? <==> block.firstRow <= globalRow < block.firstRow + block.rows || globalRow in plan.rowToSlot
    ensures view.Ok? ==> view.value.0 == Columns(BRow(bRows, globalRow)) && view.value.1 == Values(BRow(bRows, globalRow))
  {
    if globalRow >= block.firstRow && globalRow < block.firstRow + block.rows {
      ghost var localRow := globalRow - block.firstRow;
      assert RowOf(bLocal, localRow) == BRow(bRows, block.firstRow + localRow);
      var columns, values := LocalSparseRow(bLocal, globalRow - block.firstRow, BRow(bRows, globalRow));
      return Ok((columns, values));
    }
    if globalRow !in plan.rowToSlot {
      return Error("missing a remote sparse row required by A");
    }
    var slot := plan.rowToSlot[globalRow];
    SlotOfRow(plan.flatRows, plan.rowToSlot, globalRow);
    var columns, values := RemoteSparseRow(halo, slot, HaloRows(bRows, plan.flatRows, |plan.flatRows|));
    view := Ok((columns, values));
  }

  lemma SlotOfRow(flatRows: seq<int>, rowToSlot: map<int, nat>, c: int)
    requires SlotsOk(flatRows, rowToSlot) && c in rowToSlot
    ensures rowToSlot[c] < |flatRows| && flatRows[rowToSlot[c]] == c
  {
    var slot :| 0 <= slot < |flatRows| && flatRows[slot] == c;
  }

  /** touchedColumns lists the keys of the hash table, each once. */
  ghost predicate Touched(touched: seq<int>, acc: map<int, Value>) {
    Distinct(touched) && forall c :: c in touched <==> c in acc
  }

  lemma TouchOneMore(touched: seq<int>, acc: map<int, Value>, column: int, value: Value)
    requires Touched(touched, acc)
    ensures Touched(if column in acc then touched else touched + [column], acc[column := value])
  {
  }

  /** The inner loop: a fresh column is recorded as touched, a known one is added to. */
  method AccumulateView(ar: Arith, start: map<int, Value>, touched0: seq<int>, aValue: Value,
                        columns: seq<int>, values: seq<Value>, ghost row: Row)
    returns (acc: map<int, Value>, touched: seq<int>)
    requires columns == Columns(row) && values == Values(row) && Touched(touched0, start)
    ensures acc == AddScaled(ar, start, aValue, row, |row|) && Touched(touched, acc)
  {
    acc, touched := start, touched0;
    for t := 0 to |columns|
      invariant acc == AddScaled(ar, start, aValue, row, t) && Touched(touched, acc)
    {
      var column, product := columns[t], ar.Mul(aValue, values[t]);
      if column in acc {
        TouchOneMore(touched, acc, column, ar.Add(acc[column], product));
        acc := acc[column := ar.Add(acc[column], product)];
      } else {
        TouchOneMore(touched, acc, column, product);
        acc := acc[column := product];
        touched := touched + [column];
      }
    }
  }

  /** Every column of A is a row of the rank's own block or has a halo slot. */
  ghost predicate Reachable(columns: seq<int>, block: RowBlock, plan: RemoteRowPlan) {
    forall c :: c in columns ==> block.firstRow <= c < block.firstRow + block.rows || c in plan.rowToSlot
  }

  ghost predicate KernelInput(aLocal: CsrMatrix, bLocal: CsrMatrix, block: RowBlock, halo: RemoteSparseRows,
                              plan: RemoteRowPlan, bRows: seq<Row>)
  {
    && Shaped(aLocal) && LocalRows(bLocal, bRows, block, bLocal.cols) && Reachable(aLocal.columnIndices, block, plan)
    && SlotsOk(plan.flatRows, plan.rowToSlot) && HaloOk(halo, bRows, plan.flatRows)
  }

  method AccumulateRow(ar: Arith, aLocal: CsrMatrix, bLocal: CsrMatrix, block: RowBlock, halo: RemoteSparseRows,
                       plan: RemoteRowPlan, row: nat, ghost aRow: Row, ghost bRows: seq<Row>)
    returns (acc: map<int, Value>, touched: seq<int>)
    requires KernelInput(aLocal, bLocal, block, halo, plan, bRows) && row < aLocal.rows && aRow == RowOf(aLocal, row)
    ensures acc == AddRow(ar, map[], aRow, bRows, |aRow|) && Touched(touched, acc)
  {
    hide HaloOk, BRow, AddScaled, Stored;
    acc, touched := map[], [];
    ghost var start := acc;
    var first, last := aLocal.rowPtr[row], aLocal.rowPtr[row + 1];
    for p := first to last
      invariant acc == AddRow(ar, start, aRow, bRows, p - first) && Touched(touched, acc)
    {
      RowOfAt(aLocal, row, p);
      assert aLocal.columnIndices[p] in aLocal.columnIndices;
      var view := BRowForColumn(bLocal, block, halo, plan, aLocal.columnIndices[p], bRows);
      acc, touched := AccumulateView(ar, acc, touched, aLocal.values[p], view.value.0, view.value.1,
                                     BRow(bRows, aLocal.columnIndices[p]));
    }
  }

  /** Of the first k sorted columns those with a nonzero value, still sorted. */
  ghost predicate KeptTo(columns: seq<int>, values: seq<Value>, sorted: seq<int>, acc: map<int, Value>, zero: Value, k: nat) {
    && k <= |sorted| && |columns| == |values| && StrictlyAscending(columns)
    && (forall x :: 0 <= x < |columns| ==> columns[x] in acc && values[x] == acc[columns[x]])
    && (forall c :: c in columns <==> c in sorted[..k] && c in acc && acc[c] != zero)
  }

  lemma KeepOneMore(columns: seq<int>, values: seq<Value>, sorted: seq<int>, acc: map<int, Value>, zero: Value, k: nat)
    requires KeptTo(columns, values, sorted, acc, zero, k) && k < |sorted| && StrictlyAscending(sorted) && sorted[k] in acc
    ensures if acc[sorted[k]] != zero then KeptTo(columns + [sorted[k]], values + [acc[sorted[k]]], sorted, acc, zero, k + 1)
            else KeptTo(columns, values, sorted, acc, zero, k + 1)
  {
    assert sorted[..k + 1] == sorted[..k] + [sorted[k]];
    forall x | 0 <= x < |columns| ensures columns[x] < sorted[k] {
      assert columns[x] in columns;
      var y :| 0 <= y < k && sorted[..k][y] == columns[x];
      assert sorted[y] < sorted[k];
    }
  }

  method KeepNonzeros(sorted: seq<int>, acc: map<int, Value>, zero: Value) returns (columns: seq<int>, values: seq<Value>)
    requires StrictlyAscending(sorted) && forall k :: 0 <= k < |sorted| ==> sorted[k] in acc
    ensures KeptTo(columns, values, sorted, acc, zero, |sorted|)
  {
    columns, values := [], [];
    for k := 0 to |sorted|
      invariant KeptTo(columns, values, sorted, acc, zero, k)
    {
      var column := sorted[k];
      KeepOneMore(columns, values, sorted, acc, zero, k);
      if acc[column] != zero {
        columns, values := columns + [column], values + [acc[column]];
      }
    }
  }

  lemma DistinctAscending(s: seq<int>)
    requires Ascending(s) && Distinct(s)
    ensures StrictlyAscending(s)
  {
  }

  /** Sorts the touched columns, then keeps those with a nonzero value. */
  method FinishRow(acc: map<int, Value>, touched: seq<int>, zero: Value, ghost cols: nat)
    returns (columns: seq<int>, values: seq<Value>)
    requires Touched(touched, acc) && KeysBelow(acc, cols)
    ensures columns == Columns(Collect(acc, zero, cols)) && values == Values(Collect(acc, zero, cols))
  {
    var sorted := SortColumns(touched);
    SameElementsDistinct(touched, sorted);
    DistinctAscending(sorted);
    assert forall k :: 0 <= k < |sorted| ==> sorted[k] in sorted;
    columns, values := KeepNonzeros(sorted, acc, zero);
    KeptIsCollect(columns, values, sorted, acc, zero, cols);
  }

  lemma KeptIsCollect(columns: seq<int>, values: seq<Value>, sorted: seq<int>, acc: map<int, Value>, zero: Value, cols: nat)
    requires KeptTo(columns, values, sorted, acc, zero, |sorted|) && KeysBelow(acc, cols)
    requires forall c :: c in acc ==> c in sorted
    ensures columns == Columns(Collect(acc, zero, cols)) && values == Values(Collect(acc, zero, cols))
  {
    assert sorted[..|sorted|] == sorted;
    var row := EntriesOf(columns, values, |columns|);
    SortedColumnsAreCollect(columns, row, acc, zero, cols);
    assert Columns(row) == columns && Values(row) == values;
  }

  ghost function EntriesOf(columns: seq<int>, values: seq<Value>, n: nat): (row: Row)
    requires n <= |columns| == |values|
    ensures |row| == n && forall p :: 0 <= p < n ==> row[p] == Entry(columns[p], values[p])
  {
    if n == 0 then [] else EntriesOf(columns, values, n - 1) + [Entry(columns[n - 1], values[n - 1])]
  }

  ghost predicate RowsComputed(columnsByRow: seq<seq<int>>, valuesByRow: seq<seq<Value>>, rows: seq<Row>, n: nat) {
    && |columnsByRow| == |valuesByRow| == n <= |rows|
    && forall r :: 0 <= r < n ==> columnsByRow[r] == Columns(rows[r]) && valuesByRow[r] == Values(rows[r])
  }

  /** Prefix of the row lengths, then the rows one after another. */
  method ConcatRows(columnsByRow: seq<seq<int>>, valuesByRow: seq<seq<Value>>, ghost rows: seq<Row>)
    returns (rowPtr: seq<nat>, columns: seq<int>, values: seq<Value>)
    requires RowsComputed(columnsByRow, valuesByRow, rows, |rows|)
    ensures Hold(rowPtr, columns, values, rows, |rows|)
  {
    rowPtr := seq(|valuesByRow| + 1, _ => 0);
    var nnz: nat := 0;
    for row := 0 to |valuesByRow|
      invariant PrefixTo(rowPtr, rows, row, nnz)
    {
      nnz := nnz + |valuesByRow[row]|;
      rowPtr := rowPtr[row + 1 := nnz];
    }
    columns, values := ConcatValues(columnsByRow, valuesByRow, rows);
  }

  method ConcatValues(columnsByRow: seq<seq<int>>, valuesByRow: seq<seq<Value>>, ghost rows: seq<Row>)
    returns (columns: seq<int>, values: seq<Value>)
    requires RowsComputed(columnsByRow, valuesByRow, rows, |rows|)
    ensures columns == Columns(Flatten(rows, |rows|)) && values == Values(Flatten(rows, |rows|))
  {
    hide Flatten, Columns, Values;
    FlattenNone(rows);
    NoEntries();
    columns, values := [], [];
    for row := 0 to |valuesByRow|
      invariant columns == Columns(Flatten(rows, row)) && values == Values(Flatten(rows, row))
    {
      ColumnsAppend(Flatten(rows, row), rows[row]);
      FlattenNext(rows, row);
      columns, values := columns + columnsByRow[row], values + valuesByRow[row];
    }
  }

  ghost function LocalProductRows(ar: Arith, aLocal: CsrMatrix, bRows: seq<Row>, cols: nat, n: nat): (rows: seq<Row>)
    requires Shaped(aLocal) && n <= aLocal.rows
    ensures |rows| == n && forall r :: 0 <= r < n ==> rows[r] == SerialRow(ar, RowOf(aLocal, r), bRows, cols)
  {
    if n == 0 then []
    else LocalProductRows(ar, aLocal, bRows, cols, n - 1) + [SerialRow(ar, RowOf(aLocal, n - 1), bRows, cols)]
  }

  method ComputeRow(ar: Arith, aLocal: CsrMatrix, bLocal: CsrMatrix, block: RowBlock, halo: RemoteSparseRows,
                    plan: RemoteRowPlan, row: nat, ghost aRow: Row, ghost bRows: seq<Row>)
    returns (columns: seq<int>, values: seq<Value>)
    requires KernelInput(aLocal, bLocal, block, halo, plan, bRows) && row < aLocal.rows && aRow == RowOf(aLocal, row)
    requires forall r :: 0 <= r < |bRows| ==> ColumnsBelow(bRows[r], bLocal.cols)
    ensures columns == Columns(SerialRow(ar, aRow, bRows, bLocal.cols))
    ensures values == Values(SerialRow(ar, aRow, bRows, bLocal.cols))
  {
    var acc, touched := AccumulateRow(ar, aLocal, bLocal, block, halo, plan, row, aRow, bRows);
    AddRowKeys(ar, map[], aRow, bRows, |aRow|, bLocal.cols);
    columns, values := FinishRow(acc, touched, ar.zero, bLocal.cols);
  }

  method Spgemm(ar: Arith, aLocal: CsrMatrix, bLocal: CsrMatrix, block: RowBlock, halo: RemoteSparseRows,
                plan: RemoteRowPlan, ghost bRows: seq<Row>)
    returns (result: CsrMatrix)
    requires KernelInput(aLocal, bLocal, block, halo, plan, bRows)
    requires forall r :: 0 <= r < |bRows| ==> ColumnsBelow(bRows[r], bLocal.cols)
    ensures result == FromRows(bLocal.cols, LocalProductRows(ar, aLocal, bRows, bLocal.cols, aLocal.rows))
  {
    hide LocalProductRows, SerialRow, Hold, FromRows, Columns, Values, RowOf, ColumnsBelow, LocalRows, HaloOk, SlotsOk, Reachable;
    ghost var rows := LocalProductRows(ar, aLocal, bRows, bLocal.cols, aLocal.rows);
    var columnsByRow: seq<seq<int>>, valuesByRow: seq<seq<Value>> := [], [];
    for row := 0 to aLocal.rows
      invariant RowsComputed(columnsByRow, valuesByRow, rows, row)
    {
      var columns, values := ComputeRow(ar, aLocal, bLocal, block, halo, plan, row, RowOf(aLocal, row), bRows);
      columnsByRow, valuesByRow := columnsByRow + [columns], valuesByRow + [values];
    }
    var rowPtr, columns, values := ConcatRows(columnsByRow, valuesByRow, rows);
    HoldIsFromRows(bLocal.cols, rowPtr, columns, values, rows);
    result := CsrMatrix(aLocal.rows, bLocal.cols, rowPtr, columns, values);
  }
}
