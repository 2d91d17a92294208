/** The streaming comparison of a result with the reference rows: a merge of two sorted rows that
    judges every coordinate of the dense matrix once. */
module Validation {
  import opened Csr
  import opened Serial
  import opened Roundoff
  import opened Acceptance
  import opened Reference

  // ----- well-formed input

  ghost predicate AscendingFrom(m: CsrMatrix, first: nat, end: nat) {
    forall p, q :: first <= p < q < end && q < |m.columnIndices| ==> m.columnIndices[p] < m.columnIndices[q]
  }

  ghost predicate AscendingRows(m: CsrMatrix)
    requires Shaped(m)
  {
    forall r :: 0 <= r < m.rows ==> AscendingFrom(m, m.rowPtr[r], m.rowPtr[r + 1])
  }

  ghost predicate RowFits(m: CsrMatrix, r: nat, ordered: bool) {
    && r + 1 < |m.rowPtr| && m.rowPtr[r] <= m.rowPtr[r + 1] <= |m.columnIndices| == |m.values|
    && (forall p :: m.rowPtr[r] <= p < m.rowPtr[r + 1] ==> 0 <= m.columnIndices[p] < m.cols)
    && (ordered ==> AscendingFrom(m, m.rowPtr[r], m.rowPtr[r + 1]))
  }

  ghost predicate Usable(m: CsrMatrix, ordered: bool) {
    Valid(m) && (ordered ==> AscendingRows(m))
  }

  /** Checks made row by row are enough for the whole matrix. */
  method ValidNumericCsr(m: CsrMatrix, ordered: bool) returns (ok: bool)
    ensures ok <==> Usable(m, ordered)
  {
    hide Usable;
    if |m.rowPtr| != m.rows + 1 || m.rowPtr[0] != 0 || m.rowPtr[m.rows] != |m.values| || |m.columnIndices| != |m.values| {
      NotShaped(m, ordered);
      return false;
    }
    for row := 0 to m.rows
      invariant forall r :: 0 <= r < row ==> RowFits(m, r, ordered)
    {
      var fits := ValidRow(m, row, ordered);
      if !fits {
        UsableRow(m, ordered, row);
        return false;
      }
    }
    FittingRows(m, ordered);
    ok := true;
  }

  lemma NotShaped(m: CsrMatrix, ordered: bool)
    ensures Usable(m, ordered) ==>
            |m.rowPtr| == m.rows + 1 && m.rowPtr[0] == 0 && m.rowPtr[m.rows] == |m.values| == |m.columnIndices|
  {
  }

  lemma UsableRow(m: CsrMatrix, ordered: bool, r: nat)
    requires r < m.rows
    ensures Usable(m, ordered) ==> RowFits(m, r, ordered)
  {
    if Usable(m, ordered) {
      forall p | m.rowPtr[r] <= p < m.rowPtr[r + 1] ensures 0 <= m.columnIndices[p] < m.cols {
        RowOfAt(m, r, p);
      }
    }
  }

  lemma FittingRows(m: CsrMatrix, ordered: bool)
    requires |m.rowPtr| == m.rows + 1 && m.rowPtr[0] == 0 && m.rowPtr[m.rows] == |m.values| == |m.columnIndices|
    requires forall r :: 0 <= r < m.rows ==> RowFits(m, r, ordered)
    ensures Usable(m, ordered)
  {
    forall i, j | 0 <= i <= j <= m.rows ensures m.rowPtr[i] <= m.rowPtr[j] {
      PointersAscend(m, ordered, i, j);
    }
    forall r | 0 <= r < m.rows ensures ColumnsBelow(RowOf(m, r), m.cols) {
      assert RowFits(m, r, ordered);
      RowExtent(m, r);
      forall q | 0 <= q < |RowOf(m, r)| ensures 0 <= RowOf(m, r)[q].column < m.cols {
        RowOfAt(m, r, m.rowPtr[r] + q);
      }
    }
    if ordered {
      forall r | 0 <= r < m.rows ensures AscendingFrom(m, m.rowPtr[r], m.rowPtr[r + 1]) {
        assert RowFits(m, r, ordered);
      }
    }
  }

  lemma {:induction false} PointersAscend(m: CsrMatrix, ordered: bool, i: nat, j: nat)
    requires |m.rowPtr| == m.rows + 1 && i <= j <= m.rows && forall r :: 0 <= r < m.rows ==> RowFits(m, r, ordered)
    ensures m.rowPtr[i] <= m.rowPtr[j]
    decreases j
  {
    if i < j {
      PointersAscend(m, ordered, i, j - 1);
      assert RowFits(m, j - 1, ordered);
    }
  }

  method ValidRow(m: CsrMatrix, row: nat, ordered: bool) returns (ok: bool)
    requires |m.rowPtr| == m.rows + 1 && row < m.rows && |m.columnIndices| == |m.values|
    ensures ok <==> RowFits(m, row, ordered)
  {
    var first, end := m.rowPtr[row], m.rowPtr[row + 1];
    if end < first || end > |m.values| {
      return false;
    }
    var previous := -1;
    for p := first to end
      invariant forall q :: first <= q < p ==> 0 <= m.columnIndices[q] < m.cols
      invariant ordered ==> AscendingFrom(m, first, p)
      invariant previous == if p == first then -1 else m.columnIndices[p - 1]
    {
      var column := m.columnIndices[p];
      if column < 0 || column >= m.cols || (ordered && column <= previous) {
        return false;
      }
      previous := column;
    }
    ok := true;
  }

  // ----- one coordinate

  ghost predicate StoredAt(row: Row, c: int) {
    exists p :: 0 <= p < |row| && row[p].column == c
  }

  /** The value stored in column c, or zero. */
  ghost function ActualAt(x: Numeric, row: Row, c: int): real {
    if StoredAt(row, c) then
      var p :| 0 <= p < |row| && row[p].column == c;
      x.number(row[p].value)
    else 0.0
  }

  ghost predicate SortedColumns(row: Row) {
    forall p, q :: 0 <= p < q < |row| ==> row[p].column < row[q].column
  }

  datatype Worst = Nowhere | At(row: int, column: int)

  datatype Tally = Tally(rejected: nat, supportMismatches: nat, maximumSerialError: real, maximumRatio: Bound, worst: Worst)

  function ErrorUpper(d: Directed, difference: real): real {
    if difference == 0.0 then 0.0 else d.up(difference)
  }

  predicate Accepted(d: Directed, actual: real, cell: FullReferenceCell) {
    cell.bound.Finite? && ErrorUpper(d, Abs(actual - cell.reference)) <= cell.bound.value
  }

  function Ratio(d: Directed, actual: real, cell: FullReferenceCell): Bound {
    var difference := Abs(actual - cell.reference);
    if cell.bound.Infinite? || (cell.bound.value == 0.0 && difference != 0.0) then Infinite
    else if cell.bound.value == 0.0 then Finite(0.0)
    else
      var quotient := d.DivideUp(ErrorUpper(d, difference), cell.bound.value);
      Finite(if Accepted(d, actual, cell) && 1.0 < quotient then 1.0 else quotient)
  }

  predicate Exceeds(x: Bound, y: Bound) {
    y.Finite? && (x.Infinite? || x.value > y.value)
  }

  function Larger(x: real, y: real): real {
    if x < y then y else x
  }

  function Visit(d: Directed, t: Tally, row: int, column: int, actual: real, stored: bool, cell: FullReferenceCell): Tally {
    var ratio := Ratio(d, actual, cell);
    Tally(t.rejected + if Accepted(d, actual, cell) then 0 else 1,
          t.supportMismatches + if stored != (cell.serial != 0.0) then 1 else 0,
          Larger(t.maximumSerialError, Abs(actual - cell.serial)),
          if Exceeds(ratio, t.maximumRatio) then ratio else t.maximumRatio,
          if Exceeds(ratio, t.maximumRatio) then At(row, column) else t.worst)
  }

  function NothingVisited(): Tally {
    Tally(0, 0, 0.0, Finite(0.0), Nowhere)
  }

  ghost predicate Nonnegative(t: Tally) {
    0.0 <= t.maximumSerialError && (t.maximumRatio.Finite? ==> 0.0 <= t.maximumRatio.value)
  }

  ghost predicate Untouched(row: Row, expected: int -> FullReferenceCell, c: int) {
    !StoredAt(row, c) && expected(c) == FullReferenceCell(c, 0.0, 0.0, Finite(0.0), 0)
  }

  /** Columns 0 to n - 1 of one row of the dense matrix, every one of them. */
  ghost function VisitAll(x: Numeric, t0: Tally, r: int, row: Row, expected: int -> FullReferenceCell, n: nat): Tally {
    if n == 0 then t0
    else Visit(x.directed, VisitAll(x, t0, r, row, expected, n - 1), r, n - 1,
               ActualAt(x, row, n - 1), StoredAt(row, n - 1), expected(n - 1))
  }

  lemma {:induction false} VisitsNonnegative(x: Numeric, t0: Tally, r: int, row: Row, expected: int -> FullReferenceCell, n: nat)
    requires Nonnegative(t0)
    ensures Nonnegative(VisitAll(x, t0, r, row, expected, n))
  {
    hide Ratio, ActualAt, Accepted;
    if n > 0 {
      VisitsNonnegative(x, t0, r, row, expected, n - 1);
    }
  }

  lemma UntouchedChangesNothing(d: Directed, t: Tally, r: int, c: int)
    requires Nonnegative(t)
    ensures Visit(d, t, r, c, 0.0, false, FullReferenceCell(c, 0.0, 0.0, Finite(0.0), 0)) == t
  {
  }

  /** Skipping columns that neither side stores changes nothing. */
  lemma {:induction false} SkipUntouched(x: Numeric, t0: Tally, r: int, row: Row, expected: int -> FullReferenceCell, lo: nat, hi: nat)
    requires Nonnegative(t0) && lo <= hi && forall c :: lo <= c < hi ==> Untouched(row, expected, c)
    ensures VisitAll(x, t0, r, row, expected, hi) == VisitAll(x, t0, r, row, expected, lo)
    decreases hi
  {
    hide Visit, StoredAt;
    if lo < hi {
      SkipUntouched(x, t0, r, row, expected, lo, hi - 1);
      VisitsNonnegative(x, t0, r, row, expected, lo);
      assert Untouched(row, expected, hi - 1);
      UntouchedChangesNothing(x.directed, VisitAll(x, t0, r, row, expected, lo), r, hi - 1);
    }
  }

  // ----- the merge

  /** The cells are the touched expectations, by increasing column. */
  ghost predicate CellsFor(cells: seq<FullReferenceCell>, expected: int -> FullReferenceCell, cols: nat) {
    && Ordered(cells)
    && (forall k :: 0 <= k < |cells| ==> 0 <= cells[k].column < cols && cells[k] == expected(cells[k].column))
    && (forall c :: (forall k :: 0 <= k < |cells| ==> cells[k].column != c) ==>
                    expected(c) == FullReferenceCell(c, 0.0, 0.0, Finite(0.0), 0))
  }

  /** Both cursors stand at the first column not below `next`. */
  ghost predicate Frontier(row: Row, cells: seq<FullReferenceCell>, i: nat, k: nat, next: nat) {
    && i <= |row| && k <= |cells|
    && (forall p :: 0 <= p < |row| ==> (row[p].column < next <==> p < i))
    && (forall q :: 0 <= q < |cells| ==> (cells[q].column < next <==> q < k))
  }

  ghost predicate BothSorted(row: Row, cells: seq<FullReferenceCell>, expected: int -> FullReferenceCell, cols: nat) {
    SortedColumns(row) && ColumnsBelow(row, cols) && CellsFor(cells, expected, cols)
  }

  lemma NothingBetween(row: Row, cells: seq<FullReferenceCell>, expected: int -> FullReferenceCell, cols: nat,
                       i: nat, k: nat, next: nat, column: nat)
    requires BothSorted(row, cells, expected, cols) && Frontier(row, cells, i, k, next) && next <= column
    requires i < |row| ==> column <= row[i].column
    requires k < |cells| ==> column <= cells[k].column
    ensures forall c :: next <= c < column ==> Untouched(row, expected, c)
  {
    forall c | next <= c < column ensures Untouched(row, expected, c) {
      forall p | 0 <= p < |row| ensures row[p].column != c {
        assert i <= p ==> row[i].column <= row[p].column;
      }
      forall q | 0 <= q < |cells| ensures cells[q].column != c {
        assert k <= q ==> cells[k].column <= cells[q].column;
      }
    }
  }

  /** What stands at the chosen column on either side. */
  lemma Chosen(x: Numeric, row: Row, cells: seq<FullReferenceCell>, expected: int -> FullReferenceCell, cols: nat,
               i: nat, k: nat, next: nat, column: nat)
    requires BothSorted(row, cells, expected, cols) && Frontier(row, cells, i, k, next) && next <= column
    requires i < |row| ==> column <= row[i].column
    requires k < |cells| ==> column <= cells[k].column
    requires (i < |row| && row[i].column == column) || (k < |cells| && cells[k].column == column)
    ensures column < cols
    ensures StoredAt(row, column) <==> i < |row| && row[i].column == column
    ensures StoredAt(row, column) ==> ActualAt(x, row, column) == x.number(row[i].value)
    ensures expected(column) == if k < |cells| && cells[k].column == column then cells[k]
                                else FullReferenceCell(column, 0.0, 0.0, Finite(0.0), 0)
    ensures Frontier(row, cells, if i < |row| && row[i].column == column then i + 1 else i,
                     if k < |cells| && cells[k].column == column then k + 1 else k, column + 1)
  {
    forall p | 0 <= p < |row| ensures row[p].column == column ==> p == i {
      assert i < p ==> row[i].column < row[p].column;
    }
    forall q | 0 <= q < |cells| ensures cells[q].column == column ==> q == k {
      assert k < q ==> cells[k].column < cells[q].column;
    }
    forall p | 0 <= p < |row| ensures i < p ==> column < row[p].column {
      assert i < p ==> row[i].column < row[p].column;
    }
    forall q | 0 <= q < |cells| ensures k < q ==> column < cells[q].column {
      assert k < q ==> cells[k].column < cells[q].column;
    }
  }

  /** Merges one row of the result with its reference cells. */
  method CompareRow(x: Numeric, t0: Tally, result: CsrMatrix, r: nat, cells: seq<FullReferenceCell>,
                    ghost row: Row, ghost expected: int -> FullReferenceCell)
    returns (t: Tally)
    requires Shaped(result) && r < result.rows && row == RowOf(result, r) && Nonnegative(t0)
    requires BothSorted(row, cells, expected, result.cols)
    ensures t == VisitAll(x, t0, r, row, expected, result.cols) && Nonnegative(t)
  {
    hide Visit, RowOf, BothSorted, Frontier, Untouched, StoredAt, ActualAt, VisitAll;
    t := t0;
    var actual, actualEnd, at := result.rowPtr[r], result.rowPtr[r + 1], 0;
    RowExtent(result, r);
    ghost var first: nat, next: nat := result.rowPtr[r], 0;
    AtStart(x, t0, r, row, cells, expected, result.cols);
    while actual < actualEnd || at < |cells|
      invariant first <= actual <= actualEnd && at <= |cells| && next <= result.cols
      invariant Frontier(row, cells, actual - first, at, next)
      invariant t == VisitAll(x, t0, r, row, expected, next)
      decreases actualEnd - actual + |cells| - at
    {
      ghost var i, k := actual - first, at;
      if actual < actualEnd {
        RowOfAt(result, r, actual);
      }
      var cell := FullReferenceCell(0, 0.0, 0.0, Finite(0.0), 0);
      var actualValue, actualStored, column := 0.0, false, 0;
      if at == |cells| || (actual < actualEnd && result.columnIndices[actual] < cells[at].column) {
        column := result.columnIndices[actual];
        cell := FullReferenceCell(column, 0.0, 0.0, Finite(0.0), 0);
        actualValue, actualStored, actual := x.number(result.values[actual]), true, actual + 1;
      } else {
        cell, at := cells[at], at + 1;
        column := cell.column;
        if actual < actualEnd && result.columnIndices[actual] == column {
          actualValue, actualStored, actual := x.number(result.values[actual]), true, actual + 1;
        }
      }
      MergeStep(x, t0, r, row, cells, expected, result.cols, i, k, next, column);
      t := Visit(x.directed, t, r, column, actualValue, actualStored, cell);
      next := column + 1;
    }
    AtEnd(x, t0, r, row, cells, expected, result.cols, next);
  }

  lemma AtStart(x: Numeric, t0: Tally, r: int, row: Row, cells: seq<FullReferenceCell>, expected: int -> FullReferenceCell, cols: nat)
    requires BothSorted(row, cells, expected, cols)
    ensures Frontier(row, cells, 0, 0, 0) && VisitAll(x, t0, r, row, expected, 0) == t0
  {
  }

  /** The columns before the chosen one are untouched; the chosen one is visited with both sides. */
  lemma MergeStep(x: Numeric, t0: Tally, r: int, row: Row, cells: seq<FullReferenceCell>, expected: int -> FullReferenceCell,
                  cols: nat, i: nat, k: nat, next: nat, column: int)
    requires BothSorted(row, cells, expected, cols) && Frontier(row, cells, i, k, next) && Nonnegative(t0)
    requires i < |row| || k < |cells|
    requires column == if k == |cells| || (i < |row| && row[i].column < cells[k].column) then row[i].column else cells[k].column
    ensures next <= column < cols
    ensures var stored, present := i < |row| && row[i].column == column, k < |cells| && cells[k].column == column;
            && Frontier(row, cells, if stored then i + 1 else i, if present then k + 1 else k, column + 1)
            && VisitAll(x, t0, r, row, expected, column + 1) ==
               Visit(x.directed, VisitAll(x, t0, r, row, expected, next), r, column,
                     if stored then x.number(row[i].value) else 0.0, stored,
                     if present then cells[k] else FullReferenceCell(column, 0.0, 0.0, Finite(0.0), 0))
  {
    hide Visit, StoredAt, Untouched;
    ColumnAhead(row, cells, i, k, next, column);
    NothingBetween(row, cells, expected, cols, i, k, next, column);
    SkipUntouched(x, t0, r, row, expected, next, column);
    Chosen(x, row, cells, expected, cols, i, k, next, column);
  }

  lemma ColumnAhead(row: Row, cells: seq<FullReferenceCell>, i: nat, k: nat, next: nat, column: int)
    requires Frontier(row, cells, i, k, next)
    requires (i < |row| && row[i].column == column) || (k < |cells| && cells[k].column == column)
    ensures next <= column
  {
  }

  lemma AtEnd(x: Numeric, t0: Tally, r: int, row: Row, cells: seq<FullReferenceCell>, expected: int -> FullReferenceCell,
              cols: nat, next: nat)
    requires BothSorted(row, cells, expected, cols) && Frontier(row, cells, |row|, |cells|, next) && Nonnegative(t0) && next <= cols
    ensures VisitAll(x, t0, r, row, expected, cols) == VisitAll(x, t0, r, row, expected, next)
    ensures Nonnegative(VisitAll(x, t0, r, row, expected, cols))
  {
    hide Visit, StoredAt, Untouched, VisitAll;
    NothingBetween(row, cells, expected, cols, |row|, |cells|, next, cols);
    SkipUntouched(x, t0, r, row, expected, next, cols);
    VisitsNonnegative(x, t0, r, row, expected, cols);
  }

  // ----- the whole matrix

  /** What a row of the product should hold. */
  ghost function ExpectedAt(x: Numeric, aRow: Row, bRows: seq<Row>): int -> FullReferenceCell
    requires x.Valid()
  {
    c => Expected(x, c, CellProducts(x, aRow, bRows)(c))
  }

  ghost function VisitRows(x: Numeric, a: CsrMatrix, b: CsrMatrix, result: CsrMatrix, n: nat): Tally
    requires x.Valid() && Shaped(a) && Shaped(b) && Shaped(result) && n <= a.rows == result.rows
  {
    if n == 0 then NothingVisited()
    else VisitAll(x, VisitRows(x, a, b, result, n - 1), n - 1, RowOf(result, n - 1),
                  ExpectedAt(x, RowOf(a, n - 1), Rows(b)), result.cols)
  }

  ghost predicate Comparable(a: CsrMatrix, b: CsrMatrix, result: CsrMatrix) {
    && Usable(a, false) && Usable(b, false) && Usable(result, true)
    && a.cols == b.rows && result.rows == a.rows && result.cols == b.cols
  }

  lemma RowSorted(m: CsrMatrix, r: nat)
    requires Usable(m, true) && r < m.rows
    ensures SortedColumns(RowOf(m, r)) && ColumnsBelow(RowOf(m, r), m.cols)
  {
    var row, first := RowOf(m, r), m.rowPtr[r];
    assert AscendingFrom(m, first, m.rowPtr[r + 1]);
    RowExtent(m, r);
    forall p | 0 <= p < |row| ensures row[p].column == m.columnIndices[first + p] {
      RowOfAt(m, r, first + p);
    }
  }

  /** A product contributes only where a row of B stores the column. */
  lemma {:induction false} ProductsInside(x: Numeric, aRow: Row, bRows: seq<Row>, c: int, n: nat, cols: nat)
    requires n <= |aRow| && Products(x, aRow, bRows, c, n) != [] && forall r :: 0 <= r < |bRows| ==> ColumnsBelow(bRows[r], cols)
    ensures 0 <= c < cols
  {
    hide EntryProducts, ColumnsBelow;
    var b := BRow(bRows, aRow[n - 1].column);
    NoColumnsBelow(cols);
    if Products(x, aRow, bRows, c, n - 1) != [] {
      ProductsInside(x, aRow, bRows, c, n - 1, cols);
    } else {
      EntryInside(x, aRow[n - 1].value, b, c, |b|, cols);
    }
  }

  lemma NoColumnsBelow(cols: nat)
    ensures ColumnsBelow([], cols)
  {
  }

  lemma {:induction false} EntryInside(x: Numeric, a: Value, row: Row, c: int, n: nat, cols: nat)
    requires n <= |row| && EntryProducts(x, a, row, c, n) != [] && ColumnsBelow(row, cols)
    ensures 0 <= c < cols
  {
    if EntryProducts(x, a, row, c, n - 1) != [] {
      EntryInside(x, a, row, c, n - 1, cols);
    }
  }

  lemma CellsAreExpected(x: Numeric, cells: seq<FullReferenceCell>, aRow: Row, bRows: seq<Row>, cols: nat)
    requires x.Valid() && RowCells(x, cells, CellProducts(x, aRow, bRows))
    requires forall r :: 0 <= r < |bRows| ==> ColumnsBelow(bRows[r], cols)
    ensures CellsFor(cells, ExpectedAt(x, aRow, bRows), cols)
  {
    hide Expected, Products;
    forall k | 0 <= k < |cells| ensures 0 <= cells[k].column < cols {
      ProductsInside(x, aRow, bRows, cells[k].column, |aRow|, cols);
    }
    forall c | forall k :: 0 <= k < |cells| ==> cells[k].column != c
      ensures ExpectedAt(x, aRow, bRows)(c) == FullReferenceCell(c, 0.0, 0.0, Finite(0.0), 0)
    {
      assert CellProducts(x, aRow, bRows)(c) == [];
      NothingExpected(x, c);
    }
  }

  /** Builds and compares row after row. */
  method CompareRows(x: Numeric, a: CsrMatrix, b: CsrMatrix, result: CsrMatrix) returns (t: Tally)
    requires x.Valid() && Comparable(a, b, result)
    ensures t == VisitRows(x, a, b, result, a.rows)
  {
    hide RowOf, Rows, ColumnsBelow, RowCells, CellsFor, VisitAll, Expected, SortedColumns, AscendingRows;
    t := NothingVisited();
    ghost var bRows := Rows(b);
    forall r | 0 <= r < b.rows ensures ColumnsBelow(bRows[r], b.cols) {
      RowsAt(b, r);
    }
    for r := 0 to a.rows
      invariant t == VisitRows(x, a, b, result, r) && Nonnegative(t)
    {
      ghost var aRow, row := RowOf(a, r), RowOf(result, r);
      assert ColumnsBelow(aRow, b.rows);
      var cells := BuildFullRow(x, a, b, r, aRow, bRows);
      CellsAreExpected(x, cells, aRow, bRows, b.cols);
      RowSorted(result, r);
      t := CompareRow(x, t, result, r, cells, row, ExpectedAt(x, aRow, bRows));
    }
  }

  datatype ValidationResult = Invalid | Compared(passed: bool, tally: Tally)

  /** Malformed or mismatched matrices fail without a comparison. */
  method ValidateFull(x: Numeric, a: CsrMatrix, b: CsrMatrix, result: CsrMatrix) returns (validation: ValidationResult)
    requires x.Valid()
    ensures validation.Compared? <==> Comparable(a, b, result)
    ensures validation.Compared? ==> validation.tally == VisitRows(x, a, b, result, a.rows)
    ensures validation.Compared? ==> (validation.passed <==> validation.tally.rejected == 0)
  {
    hide Usable, VisitRows;
    var aValid := ValidNumericCsr(a, false);
    var bValid := ValidNumericCsr(b, false);
    var resultValid := ValidNumericCsr(result, true);
    if !aValid || !bValid || !resultValid || a.cols != b.rows || result.rows != a.rows || result.cols != b.cols {
      return Invalid;
    }
    var t := CompareRows(x, a, b, result);
    validation := Compared(t.rejected == 0, t);
  }

  // ----- what passing means

  /** The verdict on coordinate (r, c) of the dense matrix. */
  ghost predicate CoordinateAccepted(x: Numeric, a: CsrMatrix, b: CsrMatrix, result: CsrMatrix, r: nat, c: nat)
    requires x.Valid() && Shaped(a) && Shaped(b) && Shaped(result) && r < a.rows == result.rows
  {
    Accepted(x.directed, ActualAt(x, RowOf(result, r), c), ExpectedAt(x, RowOf(a, r), Rows(b))(c))
  }

  lemma {:induction false} RowRejections(x: Numeric, t0: Tally, r: int, row: Row, expected: int -> FullReferenceCell, n: nat)
    ensures VisitAll(x, t0, r, row, expected, n).rejected == 0 <==>
            t0.rejected == 0 && forall c :: 0 <= c < n ==> Accepted(x.directed, ActualAt(x, row, c), expected(c))
  {
    hide Accepted, ActualAt, Ratio;
    if n > 0 {
      RowRejections(x, t0, r, row, expected, n - 1);
    }
  }

  ghost predicate RowAccepted(x: Numeric, a: CsrMatrix, b: CsrMatrix, result: CsrMatrix, r: nat)
    requires x.Valid() && Shaped(a) && Shaped(b) && Shaped(result) && r < a.rows == result.rows
  {
    forall c: nat :: c < result.cols ==> CoordinateAccepted(x, a, b, result, r, c)
  }

  lemma RowVerdict(x: Numeric, t0: Tally, a: CsrMatrix, b: CsrMatrix, result: CsrMatrix, r: nat)
    requires x.Valid() && Shaped(a) && Shaped(b) && Shaped(result) && r < a.rows == result.rows
    ensures VisitAll(x, t0, r, RowOf(result, r), ExpectedAt(x, RowOf(a, r), Rows(b)), result.cols).rejected == 0 <==>
            t0.rejected == 0 && RowAccepted(x, a, b, result, r)
  {
    hide Accepted, ActualAt, ExpectedAt, Rows, RowOf, VisitAll;
    var row, expected := RowOf(result, r), ExpectedAt(x, RowOf(a, r), Rows(b));
    RowRejections(x, t0, r, row, expected, result.cols);
    if RowAccepted(x, a, b, result, r) {
      forall c | 0 <= c < result.cols ensures Accepted(x.directed, ActualAt(x, row, c), expected(c)) {
        assert CoordinateAccepted(x, a, b, result, r, c);
      }
    }
  }

  /** Nothing is rejected exactly when every coordinate of the dense matrix is within its bound. */
  lemma {:induction false} PassedMeansEveryCoordinate(x: Numeric, a: CsrMatrix, b: CsrMatrix, result: CsrMatrix, n: nat)
    requires x.Valid() && Shaped(a) && Shaped(b) && Shaped(result) && n <= a.rows == result.rows
    ensures VisitRows(x, a, b, result, n).rejected == 0 <==>
            forall r: nat :: r < n ==> RowAccepted(x, a, b, result, r)
  {
    hide RowAccepted, ExpectedAt, Rows, RowOf, VisitAll;
    if n > 0 {
      PassedMeansEveryCoordinate(x, a, b, result, n - 1);
      RowVerdict(x, VisitRows(x, a, b, result, n - 1), a, b, result, n - 1);
    }
  }

  ghost predicate AtMostOne(ratio: Bound) {
    ratio.Finite? && ratio.value <= 1.0
  }

  lemma RatioJudges(d: Directed, actual: real, cell: FullReferenceCell)
    requires d.Sound() && (cell.bound.Finite? ==> 0.0 <= cell.bound.value)
    ensures Accepted(d, actual, cell) <==> AtMostOne(Ratio(d, actual, cell))
  {
    hide Abs;
    DistanceNonnegative(actual, cell.reference);
    if cell.bound.Finite? && 0.0 < cell.bound.value {
      var error := ErrorUpper(d, Abs(actual - cell.reference));
      if cell.bound.value < error {
        QuotientAboveOne(error, cell.bound.value);
      }
    }
  }

  lemma DistanceNonnegative(x: real, y: real)
    ensures 0.0 <= Abs(x - y)
  {
  }

  lemma QuotientAboveOne(x: real, y: real)
    requires 0.0 < y < x
    ensures 1.0 < x / y
  {
    assert x / y * y == x;
  }

  lemma {:induction false} RowRatios(x: Numeric, t0: Tally, r: int, row: Row, expected: int -> FullReferenceCell, n: nat)
    requires x.directed.Sound() && (t0.rejected == 0 <==> AtMostOne(t0.maximumRatio))
    requires forall c :: expected(c).bound.Finite? ==> 0.0 <= expected(c).bound.value
    ensures var t := VisitAll(x, t0, r, row, expected, n); t.rejected == 0 <==> AtMostOne(t.maximumRatio)
  {
    hide Accepted, ActualAt, Ratio;
    if n > 0 {
      RowRatios(x, t0, r, row, expected, n - 1);
      RatioJudges(x.directed, ActualAt(x, row, n - 1), expected(n - 1));
    }
  }

  /** The reported ratio tells the same: at most one exactly when nothing is rejected. */
  lemma {:induction false} RatioAtMostOneMeansPassed(x: Numeric, a: CsrMatrix, b: CsrMatrix, result: CsrMatrix, n: nat)
    requires x.Valid() && Shaped(a) && Shaped(b) && Shaped(result) && n <= a.rows == result.rows
    requires forall r: nat, c :: r < a.rows ==> BoundNonnegative(ExpectedAt(x, RowOf(a, r), Rows(b))(c))
    ensures var t := VisitRows(x, a, b, result, n); t.rejected == 0 <==> AtMostOne(t.maximumRatio)
  {
    hide ExpectedAt, Rows, RowOf, VisitAll;
    if n > 0 {
      RatioAtMostOneMeansPassed(x, a, b, result, n - 1);
      var expected := ExpectedAt(x, RowOf(a, n - 1), Rows(b));
      forall c ensures BoundNonnegative(expected(c)) {
      }
      RowRatios(x, VisitRows(x, a, b, result, n - 1), n - 1, RowOf(result, n - 1), expected, result.cols);
    }
  }

  ghost predicate BoundNonnegative(cell: FullReferenceCell) {
    cell.bound.Finite? ==> 0.0 <= cell.bound.value
  }

  /** The value at (r, c) is a sum of the right products, in any order, with correctly rounded operations. */
  ghost predicate CorrectlySummed(x: Numeric, a: CsrMatrix, b: CsrMatrix, result: CsrMatrix, r: nat, c: nat, cand: Tree)
    requires Shaped(a) && Shaped(b) && Shaped(result) && r < a.rows == result.rows
  {
    && Rounded(cand, x.candidate.Unit(), x.candidate.denormMin)
    && multiset(Leaves(cand)) == multiset(CellProducts(x, RowOf(a, r), Rows(b))(c))
    && Computed(cand) == ActualAt(x, RowOf(result, r), c)
  }

  /** The smallest steps of the two formats, halved. */
  ghost function Step(x: Numeric): real {
    (x.candidate.denormMin + x.reference.denormMin) / 2.0
  }

  /** Formats and directed rounding as fine as those of the program; `terms` leaves room for the error models. */
  ghost predicate Fine(x: Numeric, w: real, terms: nat) {
    && Tight(x.directed, w, Step(x)) && w <= 0.125 && Step(x) <= 0.01
    && x.candidate.Unit() <= 1.0 && x.reference.Unit() <= 1.0
    && FewTerms(x.candidate, terms, w) && FewTerms(x.reference, terms, w)
    && Times(w, (2 * terms) as real) <= 0.5
  }

  lemma {:induction false} TermsAreProducts(x: Numeric, products: seq<real>)
    ensures CellOf(x, products).terms == |products|
  {
    if products != [] {
      TermsAreProducts(x, products[..|products| - 1]);
    }
  }

  /** No correctly computed value is rejected because of the order of its additions: the number of its products
      alone decides that the bound is finite. */
  lemma CorrectCoordinateIsAccepted(x: Numeric, a: CsrMatrix, b: CsrMatrix, result: CsrMatrix, r: nat, c: nat, cand: Tree, w: real)
    requires x.Valid() && Shaped(a) && Shaped(b) && Shaped(result) && r < a.rows == result.rows
    requires CorrectlySummed(x, a, b, result, r, c, cand)
    requires Fine(x, w, |CellProducts(x, RowOf(a, r), Rows(b))(c)|)
    ensures CoordinateAccepted(x, a, b, result, r, c)
  {
    hide CoordinateBound, Rounded, Leaves, Times, CellOf, Products, RowOf, Rows, ActualAt, ReferenceCell, CellProducts, FewTerms;
    var products := CellProducts(x, RowOf(a, r), Rows(b))(c);
    var cell := CellOf(x, products);
    TermsAreProducts(x, products);
    BoundIsFinite(x.directed, x.candidate, x.reference, cell, w, Step(x));
    var ref, mag := BuiltCell(x, products);
    var difference := Abs(Computed(cand) - cell.reference);
    DistanceNonnegative(Computed(cand), cell.reference);
    var errorUpper := ErrorUpper(x.directed, difference);
    CorrectEntryIsAccepted(x.directed, x.candidate, x.reference, cell, cand, ref, mag, products, w, errorUpper);
  }

  /** Every value of the result is a correctly rounded sum of its products, in an order of its own. */
  ghost predicate CorrectResult(x: Numeric, a: CsrMatrix, b: CsrMatrix, result: CsrMatrix, sums: (nat, nat) -> Tree, w: real)
    requires x.Valid() && Shaped(a) && Shaped(b) && Shaped(result) && a.rows == result.rows
  {
    forall r: nat, c: nat :: r < a.rows && c < result.cols ==>
      CorrectlySummed(x, a, b, result, r, c, sums(r, c)) && Fine(x, w, |CellProducts(x, RowOf(a, r), Rows(b))(c)|)
  }

  /** A correct result passes, whatever the orders of its additions. */
  lemma CorrectResultPasses(x: Numeric, a: CsrMatrix, b: CsrMatrix, result: CsrMatrix, sums: (nat, nat) -> Tree, w: real)
    requires x.Valid() && Shaped(a) && Shaped(b) && Shaped(result) && a.rows == result.rows
    requires CorrectResult(x, a, b, result, sums, w)
    ensures VisitRows(x, a, b, result, a.rows).rejected == 0
  {
    hide CorrectlySummed, Fine, CoordinateAccepted, VisitRows, RowOf, Rows, CellProducts;
    forall r: nat | r < a.rows ensures RowAccepted(x, a, b, result, r) {
      forall c: nat | c < result.cols ensures CoordinateAccepted(x, a, b, result, r, c) {
        CorrectCoordinateIsAccepted(x, a, b, result, r, c, sums(r, c), w);
      }
    }
    PassedMeansEveryCoordinate(x, a, b, result, a.rows);
  }
}
