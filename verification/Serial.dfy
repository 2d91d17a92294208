/** The serial row-wise product, over any operations `mul` and `add`. */
module Serial {
  import opened Csr

  /** The number type of the kernels: nothing is assumed about the operations. */
  datatype Arith = Arith(mul: (Value, Value) -> Value, add: (Value, Value) -> Value, zero: Value) {
    function Mul(x: Value, y: Value): Value { mul(x, y) }
    function Add(x: Value, y: Value): Value { add(x, y) }
  }

  /** Row r of B; kernels only ask for rows that exist. */
  ghost function BRow(bRows: seq<Row>, r: int): Row {
    if 0 <= r < |bRows| then bRows[r] else []
  }

  /** emplace, or add to the value already there. */
  function Deposit(ar: Arith, acc: map<int, Value>, column: int, value: Value): map<int, Value> {
    acc[column := if column in acc then ar.Add(acc[column], value) else value]
  }

  /** a times the first n entries of a row, deposited in stored order. */
  ghost function AddScaled(ar: Arith, acc: map<int, Value>, a: Value, row: Row, n: nat): map<int, Value>
    requires n <= |row|
  {
    if n == 0 then acc
    else Deposit(ar, AddScaled(ar, acc, a, row, n - 1), row[n - 1].column, ar.Mul(a, row[n - 1].value))
  }

  /** The first n entries of a row of A times B, in the order the kernel forms the products. */
  ghost function AddRow(ar: Arith, acc: map<int, Value>, aRow: Row, bRows: seq<Row>, n: nat): map<int, Value>
    requires n <= |aRow|
  {
    if n == 0 then acc else
      var b := BRow(bRows, aRow[n - 1].column);
      AddScaled(ar, AddRow(ar, acc, aRow, bRows, n - 1), aRow[n - 1].value, b, |b|)
  }

  ghost predicate Nonzero(acc: map<int, Value>, zero: Value, c: int) {
    c in acc && acc[c] != zero
  }

  ghost function CellAt(acc: map<int, Value>, zero: Value, c: int): Row {
    if Nonzero(acc, zero, c) then [Entry(c, acc[c])] else []
  }

  /** The nonzero cells of columns [0, n), by increasing column. */
  ghost function Collect(acc: map<int, Value>, zero: Value, n: nat): Row {
    if n == 0 then [] else Collect(acc, zero, n - 1) + CellAt(acc, zero, n - 1)
  }

  ghost function SerialRow(ar: Arith, aRow: Row, bRows: seq<Row>, cols: nat): Row {
    Collect(AddRow(ar, map[], aRow, bRows, |aRow|), ar.zero, cols)
  }

  ghost predicate Compatible(a: CsrMatrix, b: CsrMatrix)
    requires Shaped(a)
  {
    a.cols == b.rows && forall r :: 0 <= r < a.rows ==> ColumnsBelow(RowOf(a, r), b.rows)
  }

  ghost function SerialRowsBefore(ar: Arith, a: CsrMatrix, b: CsrMatrix, n: nat): (rows: seq<Row>)
    requires Shaped(a) && Shaped(b) && n <= a.rows
    ensures |rows| == n
  {
    if n == 0 then []
    else SerialRowsBefore(ar, a, b, n - 1) + [SerialRow(ar, RowOf(a, n - 1), Rows(b), b.cols)]
  }

  lemma {:induction false} SerialRowsAt(ar: Arith, a: CsrMatrix, b: CsrMatrix, n: nat, r: nat)
    requires Shaped(a) && Shaped(b) && r < n <= a.rows
    ensures SerialRowsBefore(ar, a, b, n)[r] == SerialRow(ar, RowOf(a, r), Rows(b), b.cols)
  {
    if r < n - 1 {
      SerialRowsAt(ar, a, b, n - 1, r);
    }
  }

  ghost function SerialRows(ar: Arith, a: CsrMatrix, b: CsrMatrix): (rows: seq<Row>)
    requires Shaped(a) && Shaped(b)
    ensures |rows| == a.rows
  {
    SerialRowsBefore(ar, a, b, a.rows)
  }

  /** The product of two matrices: row by row, nonzero cells by increasing column. */
  ghost function SerialProduct(ar: Arith, a: CsrMatrix, b: CsrMatrix): CsrMatrix
    requires Shaped(a) && Shaped(b)
  {
    FromRows(b.cols, SerialRows(ar, a, b))
  }

  ghost predicate KeysBelow(acc: map<int, Value>, cols: int) {
    forall c :: c in acc ==> 0 <= c < cols
  }

  lemma {:induction false} AddScaledKeys(ar: Arith, acc: map<int, Value>, a: Value, row: Row, n: nat, cols: int)
    requires n <= |row| && KeysBelow(acc, cols) && ColumnsBelow(row, cols)
    ensures KeysBelow(AddScaled(ar, acc, a, row, n), cols)
  {
    if n > 0 {
      AddScaledKeys(ar, acc, a, row, n - 1, cols);
    }
  }

  lemma {:induction false} AddRowKeys(ar: Arith, acc: map<int, Value>, aRow: Row, bRows: seq<Row>, n: nat, cols: int)
    requires n <= |aRow| && KeysBelow(acc, cols)
    requires forall r :: 0 <= r < |bRows| ==> ColumnsBelow(bRows[r], cols)
    ensures KeysBelow(AddRow(ar, acc, aRow, bRows, n), cols)
  {
    if n > 0 {
      AddRowKeys(ar, acc, aRow, bRows, n - 1, cols);
      var b := BRow(bRows, aRow[n - 1].column);
      AddScaledKeys(ar, AddRow(ar, acc, aRow, bRows, n - 1), aRow[n - 1].value, b, |b|, cols);
    }
  }

  ghost predicate SortedRow(row: Row) {
    forall i, j :: 0 <= i < j < |row| ==> row[i].column < row[j].column
  }

  ghost predicate Covers(row: Row, acc: map<int, Value>, zero: Value, n: int) {
    && (forall p :: 0 <= p < |row| ==> row[p].column in acc && row[p].value == acc[row[p].column] != zero)
    && (forall c :: 0 <= c < n && Nonzero(acc, zero, c) ==> exists p :: 0 <= p < |row| && row[p].column == c)
  }

  /** Dropping the cell of the last column, if it has one, covers the columns before it. */
  lemma CoversInit(row: Row, acc: map<int, Value>, zero: Value, n: nat) returns (init: Row)
    requires n > 0 && SortedRow(row) && ColumnsBelow(row, n) && Covers(row, acc, zero, n)
    ensures row == init + CellAt(acc, zero, n - 1)
    ensures SortedRow(init) && ColumnsBelow(init, n - 1) && Covers(init, acc, zero, n - 1)
  {
    if Nonzero(acc, zero, n - 1) {
      var k :| 0 <= k < |row| && row[k].column == n - 1;
      var last := |row| - 1;
      assert row[k].column <= row[last].column;
      init := row[..last];
      forall c | 0 <= c < n - 1 && Nonzero(acc, zero, c)
        ensures exists p :: 0 <= p < last && init[p].column == c
      {
        var p :| 0 <= p < |row| && row[p].column == c;
        assert init[p].column == c;
      }
    } else {
      init := row;
    }
  }

  /** A strictly sorted row is determined by its set of entries: it is Collect of its cells. */
  lemma {:induction false} SortedCellsAreCollect(row: Row, acc: map<int, Value>, zero: Value, n: nat)
    requires SortedRow(row) && ColumnsBelow(row, n) && Covers(row, acc, zero, n)
    ensures row == Collect(acc, zero, n)
    decreases n
  {
    hide SortedRow, Covers, CellAt;
    assert row == [] || 0 <= row[0].column < n;
    if n > 0 {
      var init := CoversInit(row, acc, zero, n);
      SortedCellsAreCollect(init, acc, zero, n - 1);
    }
  }

  /** The columns with a nonzero value, in no particular order. */
  method TouchedColumns(acc: map<int, Value>, zero: Value) returns (touched: seq<int>)
    ensures Distinct(touched)
    ensures forall c :: c in touched <==> c in acc && acc[c] != zero
  {
    touched := [];
    var pending := acc.Keys;
    while pending != {}
      invariant pending <= acc.Keys
      invariant forall c :: c in touched ==> c in acc && c !in pending && acc[c] != zero
      invariant forall c :: c in acc && c !in pending && acc[c] != zero ==> c in touched
      invariant Distinct(touched)
    {
      NonEmpty(pending);
      var c :| c in pending;
      pending := pending - {c};
      if acc[c] != zero {
        touched := touched + [c];
      }
    }
  }

  /** Reads the nonzero cells of a hash table, sorts their columns and looks the values up again. */
  lemma RowArrays(row: Row, columns: seq<int>, values: seq<Value>)
    requires |row| == |columns| == |values| && forall p :: 0 <= p < |row| ==> row[p] == Entry(columns[p], values[p])
    ensures Columns(row) == columns && Values(row) == values
  {
  }

  /** The nonzero values in the order of the sorted columns. */
  method SortedNonzeros(acc: map<int, Value>, zero: Value, ghost cols: nat) returns (columns: seq<int>, values: seq<Value>)
    requires forall c :: c in acc ==> 0 <= c < cols
    ensures columns == Columns(Collect(acc, zero, cols))
    ensures values == Values(Collect(acc, zero, cols))
  {
    hide Collect, SortColumns, Columns, Values;
    var touched := TouchedColumns(acc, zero);
    columns := SortColumns(touched);
    SameElementsDistinct(touched, columns);
    assert forall k :: 0 <= k < |columns| ==> columns[k] in columns;
    values := [];
    for k := 0 to |columns|
      invariant |values| == k
      invariant forall p :: 0 <= p < k ==> values[p] == acc[columns[p]]
    {
      values := values + [acc[columns[k]]];
    }
    ghost var row := seq(|columns|, p requires 0 <= p < |columns| => Entry(columns[p], values[p]));
    SortedColumnsAreCollect(columns, row, acc, zero, cols);
    RowArrays(row, columns, values);
  }

  lemma SortedColumnsAreCollect(columns: seq<int>, row: Row, acc: map<int, Value>, zero: Value, cols: nat)
    requires Ascending(columns) && Distinct(columns) && |row| == |columns|
    requires forall c :: c in columns <==> c in acc && acc[c] != zero
    requires forall c :: c in acc ==> 0 <= c < cols
    requires forall p :: 0 <= p < |row| ==> columns[p] in acc && row[p] == Entry(columns[p], acc[columns[p]])
    ensures row == Collect(acc, zero, cols)
  {
    forall p | 0 <= p < |row| ensures 0 <= row[p].column < cols && row[p].value != zero {
      assert columns[p] in columns;
    }
    forall i, j | 0 <= i < j < |row| ensures row[i].column < row[j].column {
      assert columns[i] <= columns[j] && columns[i] != columns[j];
    }
    forall c | 0 <= c < cols && Nonzero(acc, zero, c)
      ensures exists p :: 0 <= p < |row| && row[p].column == c
    {
      assert c in columns;
      var k :| 0 <= k < |columns| && columns[k] == c;
      assert row[k].column == c;
    }
    SortedCellsAreCollect(row, acc, zero, cols);
  }

  /** The first n columns of a row of A are rows of B. */
  ghost predicate InRangeBefore(row: Row, limit: nat, n: nat)
    requires n <= |row|
  {
    n == 0 || (InRangeBefore(row, limit, n - 1) && 0 <= row[n - 1].column < limit)
  }

  lemma {:induction false} InRangeIsColumnsBelow(row: Row, limit: nat, n: nat)
    requires n <= |row|
    ensures InRangeBefore(row, limit, n) <==> forall p :: 0 <= p < n ==> 0 <= row[p].column < limit
  {
    if n > 0 {
      InRangeIsColumnsBelow(row, limit, n - 1);
    }
  }

  ghost predicate CompatibleBefore(a: CsrMatrix, limit: nat, n: nat)
    requires Shaped(a) && n <= a.rows
  {
    n == 0 || (CompatibleBefore(a, limit, n - 1) && ColumnsBelow(RowOf(a, n - 1), limit))
  }

  lemma {:induction false} CompatibleBeforeMeans(a: CsrMatrix, limit: nat, n: nat)
    requires Shaped(a) && n <= a.rows
    ensures CompatibleBefore(a, limit, n) <==> forall r :: 0 <= r < n ==> ColumnsBelow(RowOf(a, r), limit)
  {
    if n > 0 {
      CompatibleBeforeMeans(a, limit, n - 1);
    }
  }

  /** The inner loop: one stored entry of A against one row of B. */
  method AccumulateEntry(ar: Arith, start: map<int, Value>, aValue: Value, b: CsrMatrix, bRow: nat, ghost row: Row)
    returns (acc: map<int, Value>)
    requires Shaped(b) && bRow < b.rows && row == RowOf(b, bRow)
    ensures acc == AddScaled(ar, start, aValue, row, |row|)
  {
    acc := start;
    var first, last := b.rowPtr[bRow], b.rowPtr[bRow + 1];
    for t := first to last
      invariant acc == AddScaled(ar, start, aValue, row, t - first)
    {
      RowOfAt(b, bRow, t);
      acc := Deposit(ar, acc, b.columnIndices[t], ar.Mul(aValue, b.values[t]));
    }
  }

  /** One row of the serial product.  A column of A outside the rows of B is an error. */
  method AccumulateRow(ar: Arith, a: CsrMatrix, b: CsrMatrix, row: nat, ghost aRow: Row, ghost bRows: seq<Row>)
    returns (outcome: Result<map<int, Value>>)
    requires Shaped(a) && Shaped(b) && row < a.rows && aRow == RowOf(a, row) && bRows == Rows(b)
    ensures outcome.Ok? <==> ColumnsBelow(aRow, b.rows)
    ensures outcome.Ok? ==> outcome.value == AddRow(ar, map[], aRow, bRows, |aRow|)
  {
    hide Stored, AddScaled;
    var acc: map<int, Value> := map[];
    ghost var start := acc;
    var first, last := a.rowPtr[row], a.rowPtr[row + 1];
    InRangeIsColumnsBelow(aRow, b.rows, |aRow|);
    for p := first to last
      invariant InRangeBefore(aRow, b.rows, p - first)
      invariant acc == AddRow(ar, start, aRow, bRows, p - first)
    {
      RowOfAt(a, row, p);
      var bRow := a.columnIndices[p];
      if bRow < 0 || bRow >= b.rows {
        return Error("A contains a column index outside B's row range");
      }
      RowsAt(b, bRow);
      acc := AccumulateEntry(ar, acc, a.values[p], b, bRow, bRows[bRow]);
    }
    outcome := Ok(acc);
  }

  /** One finished row: accumulated, zeros dropped, columns sorted. */
  method FinishedRow(ar: Arith, a: CsrMatrix, b: CsrMatrix, row: nat, ghost aRow: Row, ghost bRows: seq<Row>)
    returns (outcome: Result<(seq<int>, seq<Value>)>)
    requires Shaped(a) && Valid(b) && row < a.rows && aRow == RowOf(a, row) && bRows == Rows(b)
    ensures outcome.Ok? <==> ColumnsBelow(aRow, b.rows)
    ensures outcome.Ok? ==> outcome.value.0 == Columns(SerialRow(ar, aRow, bRows, b.cols))
    ensures outcome.Ok? ==> outcome.value.1 == Values(SerialRow(ar, aRow, bRows, b.cols))
  {
    var accumulated := AccumulateRow(ar, a, b, row, aRow, bRows);
    if accumulated.Error? {
      return Error(accumulated.message);
    }
    forall r | 0 <= r < b.rows ensures ColumnsBelow(bRows[r], b.cols) {
      RowsAt(b, r);
    }
    AddRowKeys(ar, map[], aRow, bRows, |aRow|, b.cols);
    var columns, values := SortedNonzeros(accumulated.value, ar.zero, b.cols);
    outcome := Ok((columns, values));
  }

  method SerialSpgemm(ar: Arith, a: CsrMatrix, b: CsrMatrix) returns (c: Result<CsrMatrix>)
    requires Shaped(a) && Valid(b)
    ensures c.Ok? <==> Compatible(a, b)
    ensures c.Ok? ==> c.value == SerialProduct(ar, a, b)
  {
    hide SerialRow, Rows, Hold, RowOf, Columns, Values, ColumnsBelow;
    if a.cols != b.rows {
      return Error("SpGEMM requires A.cols == B.rows");
    }
    var rowPtr: seq<nat>, columns: seq<int>, values: seq<Value> := [0], [], [];
    ghost var bRows, product := Rows(b), SerialRows(ar, a, b);
    HoldNothing(product);
    CompatibleBeforeMeans(a, b.rows, a.rows);
    for row := 0 to a.rows
      invariant CompatibleBefore(a, b.rows, row) && |columns| == |values|
      invariant Hold(rowPtr, columns, values, product, row)
    {
      ghost var aRow := RowOf(a, row);
      var outcome := FinishedRow(ar, a, b, row, aRow, bRows);
      if outcome.Error? {
        return Error(outcome.message);
      }
      SerialRowsAt(ar, a, b, a.rows, row);
      HoldOneMore(rowPtr, columns, values, product, row);
      columns, values := columns + outcome.value.0, values + outcome.value.1;
      var nnz: nat := |values|;
      rowPtr := rowPtr + [nnz];
    }
    HoldIsFromRows(b.cols, rowPtr, columns, values, product);
    c := Ok(CsrMatrix(a.rows, b.cols, rowPtr, columns, values));
  }
}
