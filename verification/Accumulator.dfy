/** The per-row hash tables of one rank, accumulated over the stages of a product. */
module Accumulator {
  import opened Csr
  import opened Serial
  import opened Dense
  import opened Work

  /** accumulator[column] += a * row, entry by entry. */
  method AddEntryProducts(start: map<int, int>, aValue: int, b: CsrMatrix, bRow: nat, ghost row: Row)
    returns (acc: map<int, int>, ghost made: nat)
    requires Shaped(b) && bRow < b.rows && row == RowOf(b, bRow)
    ensures acc == AddScaled(Integers, start, aValue, row, |row|) && made == |row|
  {
    acc, made := start, 0;
    var first, last := b.rowPtr[bRow], b.rowPtr[bRow + 1];
    for t := first to last
      invariant acc == AddScaled(Integers, start, aValue, row, t - first) && made == t - first
    {
      RowOfAt(b, bRow, t);
      var column := b.columnIndices[t];
      acc := acc[column := (if column in acc then acc[column] else 0) + aValue * b.values[t]];
      made := made + 1;
    }
  }

  method AddRowProducts(start: map<int, int>, a: CsrMatrix, row: nat, b: CsrMatrix,
                        ghost aRow: Row, ghost bRows: seq<Row>)
    returns (acc: map<int, int>, ghost made: nat)
    requires Shaped(a) && Shaped(b) && row < a.rows && aRow == RowOf(a, row) && bRows == Rows(b)
    requires ColumnsBelow(aRow, b.rows)
    ensures acc == AddRow(Integers, start, aRow, bRows, |aRow|) && made == RowWork(aRow, bRows)
  {
    hide AddScaled, Rows, RowOf;
    acc, made := start, 0;
    var first, last := a.rowPtr[row], a.rowPtr[row + 1];
    RowExtent(a, row);
    for p := first to last
      invariant acc == AddRow(Integers, start, aRow, bRows, p - first) && made == RowWorkBefore(aRow, bRows, p - first)
    {
      RowOfAt(a, row, p);
      var bRow := a.columnIndices[p];
      RowsAt(b, bRow);
      ghost var count;
      acc, count := AddEntryProducts(acc, a.values[p], b, bRow, bRows[bRow]);
      made := made + count;
    }
  }

  /** The nonzero cells of one row in no particular order. */
  method NonzeroEntries(acc: map<int, int>) returns (entries: Row)
    ensures Distinct(entries)
    ensures forall e :: e in entries <==> e.column in acc && e.value == acc[e.column] != 0
  {
    entries := [];
    var pending := acc.Keys;
    while pending != {}
      invariant pending <= acc.Keys
      invariant forall e :: e in entries <==>
        e.column in acc && e.column !in pending && e.value == acc[e.column] != 0
      invariant Distinct(entries)
    {
      NonEmpty(pending);
      var c :| c in pending;
      pending := pending - {c};
      if acc[c] != 0 {
        entries := entries + [Entry(c, acc[c])];
      }
    }
  }

  /** Sorting the nonzero entries gives Collect whatever order they came in. */
  lemma SortedEntriesAreCollect(entries: Row, acc: map<int, int>, cols: nat)
    requires Distinct(entries)
    requires forall e :: e in entries <==> e.column in acc && e.value == acc[e.column] != 0
    requires forall c :: c in acc ==> 0 <= c < cols
    ensures SortPairs(entries) == Collect(acc, 0, cols)
  {
    var row := SortPairs(entries);
    SameElementsDistinct(entries, row);
    assert forall p :: 0 <= p < |row| ==> row[p] in row;
    forall i, j | 0 <= i < j < |row| ensures row[i].column < row[j].column {
      assert row[i] in entries && row[j] in entries;
      assert row[i] != row[j] && !Precedes(row[j], row[i]);
    }
    forall c | 0 <= c < cols && Nonzero(acc, 0, c)
      ensures exists p :: 0 <= p < |row| && row[p].column == c
    {
      assert Entry(c, acc[c]) in entries && Entry(c, acc[c]) in row;
      var p :| 0 <= p < |row| && row[p] == Entry(c, acc[c]);
      assert row[p].column == c;
    }
    SortedCellsAreCollect(row, acc, 0, cols);
  }

  /** Overwrites the entries from `first` on with one finished row. */
  method FillRow(columns0: seq<int>, values0: seq<int>, first: nat, row: Row)
    returns (columns: seq<int>, values: seq<int>)
    requires first + |row| <= |columns0| == |values0|
    ensures columns == columns0[..first] + Columns(row) + columns0[first + |row|..]
    ensures values == values0[..first] + Values(row) + values0[first + |row|..]
  {
    columns, values := columns0, values0;
    var p := first;
    for n := 0 to |row|
      invariant p == first + n && |columns| == |columns0| && |values| == |values0|
      invariant forall x :: 0 <= x < |columns| ==>
        columns[x] == (if first <= x < p then row[x - first].column else columns0[x])
      invariant forall x :: 0 <= x < |values| ==>
        values[x] == (if first <= x < p then row[x - first].value else values0[x])
    {
      columns := columns[p := row[n].column];
      values := values[p := row[n].value];
      p := p + 1;
    }
  }

  ghost function CollectBefore(rows: seq<map<int, int>>, cols: nat, n: nat): (collected: seq<Row>)
    requires n <= |rows|
    ensures |collected| == n && forall r :: 0 <= r < n ==> collected[r] == Collect(rows[r], 0, cols)
  {
    if n == 0 then [] else CollectBefore(rows, cols, n - 1) + [Collect(rows[n - 1], 0, cols)]
  }

  ghost function CollectRows(rows: seq<map<int, int>>, cols: nat): seq<Row> {
    CollectBefore(rows, cols, |rows|)
  }

  /** Prefix sums of the row lengths, then each row copied to its own offset. */
  method ConcatenateRows(rows: seq<Row>, cols: nat) returns (result: CsrMatrix)
    ensures result == FromRows(cols, rows)
  {
    var rowPtr := PrefixOffsets(rows);
    FlattenMonotone(rows, 0, |rows|);
    var nnz := rowPtr[|rows|];
    var columns, values := seq(nnz, _ => 0), seq(nnz, _ => 0);
    for row := 0 to |rows|
      invariant |columns| == |values| == nnz
      invariant rowPtr[row] <= nnz
      invariant columns[..rowPtr[row]] == Columns(Flatten(rows, row))
      invariant values[..rowPtr[row]] == Values(Flatten(rows, row))
    {
      RowFits(rows, row);
      ghost var columns0, values0 := columns, values;
      columns, values := FillRow(columns, values, rowPtr[row], rows[row]);
      assert columns[..rowPtr[row + 1]] == columns0[..rowPtr[row]] + Columns(rows[row]);
      assert values[..rowPtr[row + 1]] == values0[..rowPtr[row]] + Values(rows[row]);
    }
    result := CsrMatrix(|rows|, cols, rowPtr, columns, values);
  }

  class LocalAccumulator {
    const cols_: nat
    var rows_: seq<map<int, int>>

    ghost predicate Valid()
      reads this
    {
      forall r, c :: 0 <= r < |rows_| && c in rows_[r] ==> 0 <= c < cols_
    }

    ghost function Cell(r: int, c: int): int
      requires 0 <= r < |rows_|
      reads this
    {
      Lookup(rows_[r], c)
    }

    constructor (rows: nat, cols: nat)
      ensures Valid() && cols_ == cols && |rows_| == rows
      ensures forall r, c :: 0 <= r < rows ==> Cell(r, c) == 0
    {
      cols_ := cols;
      rows_ := seq(rows, _ => map[]);
    }

    /** Adds one partial product; shapes that do not fit are refused and nothing changes.  `made` counts the
        multiplications of the inner loop. */
    method AddProduct(a: CsrMatrix, b: CsrMatrix) returns (outcome: Result<nat>, ghost made: nat)
      requires Valid() && Csr.Valid(a) && Csr.Valid(b)
      modifies this
      ensures Valid() && |rows_| == old(|rows_|)
      ensures outcome.Ok? <==> a.cols == b.rows && a.rows == |rows_| && b.cols == cols_
      ensures outcome.Error? ==> rows_ == old(rows_)
      ensures outcome.Ok? ==> forall r, c :: 0 <= r < |rows_| ==>
        Cell(r, c) == old(Cell(r, c)) + Dot(RowOf(a, r), Rows(b), c)
      ensures outcome.Ok? ==> made == ProductWork(Rows(a), Rows(b), a.rows)
    {
      hide Rows, AddRow, RowWork, Lookup, DotBefore;
      made := 0;
      if a.cols != b.rows || a.rows != |rows_| || b.cols != cols_ {
        return Error("incompatible Trident partial product shapes"), made;
      }
      ghost var before, bRows := rows_, Rows(b);
      forall r | 0 <= r < b.rows ensures ColumnsBelow(bRows[r], b.cols) {
        RowsAt(b, r);
      }
      for row := 0 to a.rows
        invariant |rows_| == |before| && Valid() && made == ProductWork(Rows(a), bRows, row)
        invariant forall r :: row <= r < |rows_| ==> rows_[r] == before[r]
        invariant forall r :: 0 <= r < row ==>
          rows_[r] == AddRow(Integers, before[r], RowOf(a, r), bRows, |RowOf(a, r)|)
      {
        var updated, count := AddRowProducts(rows_[row], a, row, b, RowOf(a, row), bRows);
        AddRowKeys(Integers, rows_[row], RowOf(a, row), bRows, |RowOf(a, row)|, cols_);
        RowsAt(a, row);
        made := made + count;
        rows_ := rows_[row := updated];
      }
      forall r, c | 0 <= r < |rows_| ensures Cell(r, c) == Lookup(before[r], c) + Dot(RowOf(a, r), bRows, c) {
        AddRowSum(before[r], RowOf(a, r), bRows, |RowOf(a, r)|, c);
      }
      outcome := Ok(a.rows);
    }

    /** The accumulated tile: zeros dropped, columns sorted, rows concatenated. */
    method Finish() returns (result: CsrMatrix)
      requires Valid()
      ensures result == FromRows(cols_, CollectRows(rows_, cols_))
    {
      var sortedRows: seq<Row> := [];
      for row := 0 to |rows_|
        invariant sortedRows == CollectBefore(rows_, cols_, row)
      {
        var entries := NonzeroEntries(rows_[row]);
        SortedEntriesAreCollect(entries, rows_[row], cols_);
        sortedRows := sortedRows + [SortPairs(entries)];
      }
      assert sortedRows == CollectRows(rows_, cols_);
      result := ConcatenateRows(sortedRows, cols_);
    }
  }

  /** The row's entries sit between its two offsets. */
  lemma RowFits(rows: seq<Row>, r: nat)
    requires r < |rows|
    ensures Offsets(rows)[r] + |rows[r]| == Offsets(rows)[r + 1] <= Offsets(rows)[|rows|]
    ensures Columns(Flatten(rows, r + 1)) == Columns(Flatten(rows, r)) + Columns(rows[r])
    ensures Values(Flatten(rows, r + 1)) == Values(Flatten(rows, r)) + Values(rows[r])
  {
    ColumnsAppend(Flatten(rows, r), rows[r]);
    FlattenMonotone(rows, r + 1, |rows|);
  }

  method PrefixOffsets(rows: seq<Row>) returns (rowPtr: seq<nat>)
    ensures rowPtr == Offsets(rows)
  {
    hide Flatten;
    FlattenNone(rows);
    rowPtr := [0];
    for r := 0 to |rows|
      invariant |rowPtr| == r + 1 && forall q :: 0 <= q <= r ==> rowPtr[q] == |Flatten(rows, q)|
    {
      FlattenNext(rows, r);
      rowPtr := rowPtr + [rowPtr[r] + |rows[r]|];
    }
    assert rowPtr == Offsets(rows);
  }
}
