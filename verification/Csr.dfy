/** Compressed sparse row matrices and their correspondence with lists of rows.

    Every kernel of the program builds its arrays by appending rows, so the specifications
    speak about rows and `FromRows` says which arrays stand for them. */
module Csr {

  /** Only its identity matters where no arithmetic is mentioned: an integer names a stored double. */
  type Value = int

  datatype Entry = Entry(column: int, value: Value)

  /** Arrays as stored: entry p of row r lies at rowPtr[r] <= p < rowPtr[r + 1].  Columns may be
      unsorted, repeated, and may hold stored zeros. */
  datatype CsrMatrix =
    CsrMatrix(rows: nat, cols: nat, rowPtr: seq<nat>, columnIndices: seq<int>, values: seq<Value>)

  /** A C++ exception (or a call of `fail`) becomes an Error. */
  datatype Result<+T> = Ok(value: T) | Error(message: string)

  type Row = seq<Entry>

  ghost predicate Shaped(m: CsrMatrix) {
    && |m.rowPtr| == m.rows + 1
    && m.rowPtr[0] == 0
    && m.rowPtr[m.rows] == |m.values| == |m.columnIndices|
    && forall i, j :: 0 <= i <= j <= m.rows ==> m.rowPtr[i] <= m.rowPtr[j]
  }

  ghost predicate ColumnsBelow(row: Row, cols: int) {
    forall p :: 0 <= p < |row| ==> 0 <= row[p].column < cols
  }

  ghost predicate Valid(m: CsrMatrix) {
    && Shaped(m)
    && forall r :: 0 <= r < m.rows ==> ColumnsBelow(RowOf(m, r), m.cols)
  }

  /** The n stored entries from position `first` on. */
  ghost function Stored(m: CsrMatrix, first: nat, n: nat): (row: Row)
    requires first + n <= |m.values| == |m.columnIndices|
    ensures |row| == n
  {
    if n == 0 then []
    else Stored(m, first, n - 1) + [Entry(m.columnIndices[first + n - 1], m.values[first + n - 1])]
  }

  lemma {:induction false} StoredAt(m: CsrMatrix, first: nat, n: nat, p: nat)
    requires first + n <= |m.values| == |m.columnIndices| && p < n
    ensures Stored(m, first, n)[p] == Entry(m.columnIndices[first + p], m.values[first + p])
  {
    if p < n - 1 {
      StoredAt(m, first, n - 1, p);
    }
  }

  ghost function RowOf(m: CsrMatrix, r: int): (row: Row)
    requires Shaped(m) && 0 <= r < m.rows
  {
    Stored(m, m.rowPtr[r], m.rowPtr[r + 1] - m.rowPtr[r])
  }

  lemma RowOfAt(m: CsrMatrix, r: nat, p: nat)
    requires Shaped(m) && r < m.rows && m.rowPtr[r] <= p < m.rowPtr[r + 1]
    ensures p < |m.values| && |RowOf(m, r)| == m.rowPtr[r + 1] - m.rowPtr[r]
    ensures RowOf(m, r)[p - m.rowPtr[r]] == Entry(m.columnIndices[p], m.values[p])
  {
    StoredAt(m, m.rowPtr[r], m.rowPtr[r + 1] - m.rowPtr[r], p - m.rowPtr[r]);
  }

  /** A row is as long as the distance of its two offsets, which lie inside the arrays. */
  lemma RowExtent(m: CsrMatrix, r: nat)
    requires Shaped(m) && r < m.rows
    ensures m.rowPtr[r] <= m.rowPtr[r + 1] <= |m.values| == |m.columnIndices|
    ensures |RowOf(m, r)| == m.rowPtr[r + 1] - m.rowPtr[r]
  {
  }

  ghost function RowsBefore(m: CsrMatrix, n: nat): (rows: seq<Row>)
    requires Shaped(m) && n <= m.rows
    ensures |rows| == n
  {
    if n == 0 then [] else RowsBefore(m, n - 1) + [RowOf(m, n - 1)]
  }

  lemma {:induction false} RowsBeforeAt(m: CsrMatrix, n: nat, r: nat)
    requires Shaped(m) && r < n <= m.rows
    ensures RowsBefore(m, n)[r] == RowOf(m, r)
  {
    if r < n - 1 {
      RowsBeforeAt(m, n - 1, r);
    }
  }

  lemma RowsAt(m: CsrMatrix, r: nat)
    requires Shaped(m) && r < m.rows
    ensures Rows(m)[r] == RowOf(m, r)
  {
    RowsBeforeAt(m, m.rows, r);
  }

  ghost function Rows(m: CsrMatrix): (rows: seq<Row>)
    requires Shaped(m)
    ensures |rows| == m.rows
  {
    RowsBefore(m, m.rows)
  }

  // ----- from rows to arrays

  /** The entries of the first n rows, one row after another. */
  ghost function Flatten(rows: seq<Row>, n: nat): Row
    requires n <= |rows|
  {
    if n == 0 then [] else Flatten(rows, n - 1) + rows[n - 1]
  }

  lemma FlattenNone(rows: seq<Row>)
    ensures Flatten(rows, 0) == []
  {
  }

  lemma FlattenNext(rows: seq<Row>, n: nat)
    requires n < |rows|
    ensures Flatten(rows, n + 1) == Flatten(rows, n) + rows[n]
  {
  }

  ghost function ColumnsBefore(row: Row, n: nat): (columns: seq<int>)
    requires n <= |row|
    ensures |columns| == n && forall p :: 0 <= p < n ==> columns[p] == row[p].column
  {
    if n == 0 then [] else ColumnsBefore(row, n - 1) + [row[n - 1].column]
  }

  ghost function ValuesBefore(row: Row, n: nat): (values: seq<Value>)
    requires n <= |row|
    ensures |values| == n && forall p :: 0 <= p < n ==> values[p] == row[p].value
  {
    if n == 0 then [] else ValuesBefore(row, n - 1) + [row[n - 1].value]
  }

  ghost function Columns(row: Row): (columns: seq<int>)
    ensures |columns| == |row|
  {
    ColumnsBefore(row, |row|)
  }

  ghost function Values(row: Row): (values: seq<Value>)
    ensures |values| == |row|
  {
    ValuesBefore(row, |row|)
  }

  lemma NoEntries()
    ensures Columns([]) == [] && Values([]) == []
  {
  }

  lemma ColumnsAppend(xs: Row, ys: Row)
    ensures Columns(xs + ys) == Columns(xs) + Columns(ys)
    ensures Values(xs + ys) == Values(xs) + Values(ys)
  {
  }

  ghost function OffsetsBefore(rows: seq<Row>, n: nat): (offsets: seq<nat>)
    requires n <= |rows|
    ensures |offsets| == n + 1 && forall r :: 0 <= r <= n ==> offsets[r] == |Flatten(rows, r)|
  {
    if n == 0 then [0] else OffsetsBefore(rows, n - 1) + [|Flatten(rows, n)|]
  }

  ghost function Offsets(rows: seq<Row>): seq<nat> {
    OffsetsBefore(rows, |rows|)
  }

  ghost function FromRows(cols: nat, rows: seq<Row>): CsrMatrix {
    var all := Flatten(rows, |rows|);
    CsrMatrix(|rows|, cols, Offsets(rows), Columns(all), Values(all))
  }

  /** The three growing arrays of a matrix under construction hold the first n of `rows`. */
  ghost predicate Hold(rowPtr: seq<nat>, columns: seq<int>, values: seq<Value>, rows: seq<Row>, n: nat)
    requires n <= |rows|
  {
    && |rowPtr| == n + 1
    && (forall r :: 0 <= r <= n ==> rowPtr[r] == |Flatten(rows, r)|)
    && columns == Columns(Flatten(rows, n))
    && values == Values(Flatten(rows, n))
  }

  lemma HoldNothing(rows: seq<Row>)
    ensures Hold([0], [], [], rows, 0)
  {
  }

  /** One more row is one more offset and its entries at the end of both arrays. */
  lemma HoldOneMore(rowPtr: seq<nat>, columns: seq<int>, values: seq<Value>, rows: seq<Row>, n: nat)
    requires n < |rows| && Hold(rowPtr, columns, values, rows, n)
    ensures Hold(rowPtr + [|values| + |rows[n]|], columns + Columns(rows[n]), values + Values(rows[n]), rows, n + 1)
  {
    ColumnsAppend(Flatten(rows, n), rows[n]);
  }

  lemma HoldIsFromRows(cols: nat, rowPtr: seq<nat>, columns: seq<int>, values: seq<Value>, rows: seq<Row>)
    requires Hold(rowPtr, columns, values, rows, |rows|)
    ensures CsrMatrix(|rows|, cols, rowPtr, columns, values) == FromRows(cols, rows)
  {
    assert rowPtr == Offsets(rows);
  }

  lemma {:induction false} FlattenMonotone(rows: seq<Row>, i: nat, j: nat)
    requires i <= j <= |rows|
    ensures |Flatten(rows, i)| <= |Flatten(rows, j)|
    ensures Flatten(rows, i) == Flatten(rows, j)[..|Flatten(rows, i)|]
    decreases j
  {
    if i < j {
      FlattenMonotone(rows, i, j - 1);
    }
  }

  lemma {:induction false} OffsetsMonotone(rows: seq<Row>, i: nat, j: nat)
    requires i <= j <= |rows|
    ensures |Flatten(rows, i)| <= |Flatten(rows, j)|
    decreases j
  {
    if i < j {
      OffsetsMonotone(rows, i, j - 1);
    }
  }

  /** Row r sits between its two offsets. */
  lemma FlattenAt(rows: seq<Row>, r: nat, p: nat)
    requires r < |rows| && p < |rows[r]|
    ensures |Flatten(rows, r)| + p < |Flatten(rows, |rows|)|
    ensures Flatten(rows, |rows|)[|Flatten(rows, r)| + p] == rows[r][p]
  {
    FlattenMonotone(rows, r + 1, |rows|);
    assert Flatten(rows, r + 1)[|Flatten(rows, r)| + p] == rows[r][p];
  }

  lemma FromRowsShaped(cols: nat, rows: seq<Row>)
    ensures Shaped(FromRows(cols, rows))
  {
    forall i, j | 0 <= i <= j <= |rows| ensures |Flatten(rows, i)| <= |Flatten(rows, j)| {
      FlattenMonotone(rows, i, j);
    }
  }

  lemma FromRowsRow(cols: nat, rows: seq<Row>, r: nat)
    requires r < |rows| && Shaped(FromRows(cols, rows))
    ensures RowOf(FromRows(cols, rows), r) == rows[r]
  {
    var m := FromRows(cols, rows);
    assert m.rowPtr[r + 1] == m.rowPtr[r] + |rows[r]|;
    forall p | 0 <= p < |rows[r]| ensures RowOf(m, r)[p] == rows[r][p] {
      FlattenAt(rows, r, p);
      RowOfAt(m, r, m.rowPtr[r] + p);
    }
  }

  /** The arrays of FromRows are well formed and hold exactly the given rows. */
  lemma RowsOfFromRows(cols: nat, rows: seq<Row>)
    ensures Shaped(FromRows(cols, rows))
    ensures Rows(FromRows(cols, rows)) == rows
  {
    FromRowsShaped(cols, rows);
    forall r | 0 <= r < |rows| ensures Rows(FromRows(cols, rows))[r] == rows[r] {
      FromRowsRow(cols, rows, r);
      RowsAt(FromRows(cols, rows), r);
    }
  }

  lemma FromRowsValid(cols: nat, rows: seq<Row>)
    requires forall r :: 0 <= r < |rows| ==> ColumnsBelow(rows[r], cols)
    ensures Valid(FromRows(cols, rows)) && Rows(FromRows(cols, rows)) == rows
  {
    RowsOfFromRows(cols, rows);
    forall r | 0 <= r < |rows| ensures RowOf(FromRows(cols, rows), r) == rows[r] {
      FromRowsRow(cols, rows, r);
    }
  }

  lemma {:induction false} FlattenOfRows(m: CsrMatrix, rows: seq<Row>, r: nat)
    requires Shaped(m) && r <= m.rows && rows == Rows(m)
    ensures |Flatten(rows, r)| == m.rowPtr[r] <= |m.values|
    ensures forall p :: 0 <= p < m.rowPtr[r] ==> Flatten(rows, r)[p] == Entry(m.columnIndices[p], m.values[p])
  {
    if r > 0 {
      FlattenOfRows(m, rows, r - 1);
      RowsAt(m, r - 1);
      forall p | m.rowPtr[r - 1] <= p < m.rowPtr[r]
        ensures rows[r - 1][p - m.rowPtr[r - 1]] == Entry(m.columnIndices[p], m.values[p])
      {
        RowOfAt(m, r - 1, p);
      }
    }
  }

  /** Well-formed arrays are determined by their rows. */
  lemma FromRowsOfRows(m: CsrMatrix)
    requires Shaped(m)
    ensures FromRows(m.cols, Rows(m)) == m
  {
    var rows := Rows(m);
    forall r | 0 <= r <= m.rows ensures |Flatten(rows, r)| == m.rowPtr[r] {
      FlattenOfRows(m, rows, r);
    }
    FlattenOfRows(m, rows, m.rows);
    HoldIsFromRows(m.cols, m.rowPtr, m.columnIndices, m.values, rows);
  }

  lemma EqualRowsEqualMatrices(m: CsrMatrix, n: CsrMatrix)
    requires Shaped(m) && Shaped(n) && m.cols == n.cols && Rows(m) == Rows(n)
    ensures m == n
  {
    FromRowsOfRows(m);
    FromRowsOfRows(n);
  }

  // ----- vectors

  /** vector::resize */
  function Resized<T>(s: seq<T>, n: nat, fill: T): (r: seq<T>)
    ensures |r| == n
  {
    if n <= |s| then s[..n] else s + seq(n - |s|, _ => fill)
  }

  /** std::copy into existing storage. */
  function CopyAt<T>(target: seq<T>, offset: nat, source: seq<T>): (r: seq<T>)
    requires offset + |source| <= |target|
    ensures |r| == |target|
    ensures forall x :: 0 <= x < |r| ==>
      r[x] == if offset <= x < offset + |source| then source[x - offset] else target[x]
  {
    target[..offset] + source + target[offset + |source|..]
  }

  lemma NonEmpty(s: set<int>)
    ensures s == {} || exists c :: c in s
  {
    if forall c :: c !in s {
      assert s == {};
    }
  }

  // ----- sorting (std::sort)

  ghost predicate Ascending(s: seq<int>) {
    forall i, j :: 0 <= i < j < |s| ==> s[i] <= s[j]
  }

  ghost predicate StrictlyAscending(s: seq<int>) {
    forall i, j :: 0 <= i < j < |s| ==> s[i] < s[j]
  }

  ghost predicate Distinct<T>(s: seq<T>) {
    forall i, j :: 0 <= i < j < |s| ==> s[i] != s[j]
  }

  /** The order of std::pair: by column, then by value. */
  predicate Precedes(x: Entry, y: Entry) {
    x.column < y.column || (x.column == y.column && x.value < y.value)
  }

  ghost predicate PairsAscending(s: Row) {
    forall i, j :: 0 <= i < j < |s| ==> !Precedes(s[j], s[i])
  }

  function InsertPair(e: Entry, s: Row): (r: Row)
    requires PairsAscending(s)
    ensures PairsAscending(r)
    ensures |r| == |s| + 1
    ensures forall x :: x in r <==> x == e || x in s
  {
    if s == [] || Precedes(e, s[0]) then [e] + s
    else
      var rest := InsertPair(e, s[1..]);
      assert s == [s[0]] + s[1..];
      assert forall x :: x in s[1..] ==> !Precedes(x, s[0]);
      assert forall k :: 0 <= k < |rest| ==> rest[k] in rest && !Precedes(rest[k], s[0]);
      [s[0]] + rest
  }

  /** What std::sort does to (column, value) pairs. */
  function SortPairs(s: Row): (r: Row)
    ensures PairsAscending(r)
    ensures |r| == |s|
    ensures forall x :: x in r <==> x in s
  {
    if s == [] then [] else
      assert s == s[..|s| - 1] + [s[|s| - 1]];
      InsertPair(s[|s| - 1], SortPairs(s[..|s| - 1]))
  }

  function InsertColumn(c: int, s: seq<int>): (r: seq<int>)
    requires Ascending(s)
    ensures Ascending(r)
    ensures |r| == |s| + 1
    ensures forall x :: x in r <==> x == c || x in s
  {
    if s == [] || c < s[0] then [c] + s
    else
      var rest := InsertColumn(c, s[1..]);
      assert s == [s[0]] + s[1..];
      assert forall x :: x in s[1..] ==> s[0] <= x;
      assert forall x :: x in rest ==> s[0] <= x;
      assert forall k :: 0 <= k < |rest| ==> rest[k] in rest;
      [s[0]] + rest
  }

  function SortColumns(s: seq<int>): (r: seq<int>)
    ensures Ascending(r)
    ensures |r| == |s|
    ensures forall x :: x in r <==> x in s
  {
    if s == [] then [] else
      assert s == s[..|s| - 1] + [s[|s| - 1]];
      InsertColumn(s[|s| - 1], SortColumns(s[..|s| - 1]))
  }

  /** The same number of elements, the same elements and no repetition on one side leave no
      repetition on the other. */
  lemma SameElementsDistinct<T>(s: seq<T>, r: seq<T>)
    requires |s| == |r| && Distinct(s)
    requires forall x :: x in s <==> x in r
    ensures Distinct(r)
  {
    var els := set x | x in s;
    DistinctCardinality(s);
    assert els == set x | x in r;
    if i, j :| 0 <= i < j < |r| && r[i] == r[j] {
      var shorter := r[..j] + r[j + 1..];
      forall x | x in els ensures x in shorter {
        var k :| 0 <= k < |r| && r[k] == x;
        if k == j { assert shorter[i] == x; }
        else if k < j { assert shorter[k] == x; }
        else { assert shorter[k - 1] == x; }
      }
      assert els == set x | x in shorter;
      CardinalityAtMostLength(shorter);
    }
  }

  lemma {:induction false} DistinctCardinality<T>(s: seq<T>)
    requires Distinct(s)
    ensures |set x | x in s| == |s|
  {
    if s != [] {
      var init := s[..|s| - 1];
      DistinctCardinality(init);
      assert s == init + [s[|s| - 1]];
      assert (set x | x in s) == (set x | x in init) + {s[|s| - 1]};
    }
  }

  lemma {:induction false} CardinalityAtMostLength<T>(s: seq<T>)
    ensures |set x | x in s| <= |s|
  {
    if s != [] {
      var init := s[..|s| - 1];
      CardinalityAtMostLength(init);
      assert s == init + [s[|s| - 1]];
      assert (set x | x in s) == (set x | x in init) + {s[|s| - 1]};
    }
  }
}
