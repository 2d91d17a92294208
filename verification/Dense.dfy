/** The dense meaning of sparse rows over the integers: what sums mean whatever their order. */
module Dense {
  import opened Arithmetic
  import opened Csr
  import opened Serial

  ghost const Integers: Arith := Arith((x: int, y: int) => x * y, (x: int, y: int) => x + y, 0)

  ghost function Lookup(acc: map<int, int>, c: int): int {
    if c in acc then acc[c] else 0
  }

  /** The sum of the entries stored in column c, among the first n. */
  ghost function SumBefore(row: Row, c: int, n: nat): int
    requires n <= |row|
  {
    if n == 0 then 0 else SumBefore(row, c, n - 1) + (if row[n - 1].column == c then row[n - 1].value else 0)
  }

  ghost function ColumnSum(row: Row, c: int): int {
    SumBefore(row, c, |row|)
  }

  ghost function DotBefore(aRow: Row, bRows: seq<Row>, c: int, n: nat): int
    requires n <= |aRow|
  {
    if n == 0 then 0
    else DotBefore(aRow, bRows, c, n - 1) + aRow[n - 1].value * ColumnSum(BRow(bRows, aRow[n - 1].column), c)
  }

  /** Cell c of (row of A) times B. */
  ghost function Dot(aRow: Row, bRows: seq<Row>, c: int): int {
    DotBefore(aRow, bRows, c, |aRow|)
  }

  /** The nonzero values of f on [0, n), by increasing column. */
  ghost function NonzeroCells(f: int -> int, n: nat): Row {
    if n == 0 then []
    else NonzeroCells(f, n - 1) + (if f(n - 1) != 0 then [Entry(n - 1, f(n - 1))] else [])
  }

  lemma {:induction false} CollectIsNonzeroCells(acc: map<int, int>, f: int -> int, n: nat)
    requires forall c :: 0 <= c < n ==> Lookup(acc, c) == f(c)
    ensures Collect(acc, 0, n) == NonzeroCells(f, n)
  {
    if n > 0 {
      CollectIsNonzeroCells(acc, f, n - 1);
    }
  }

  lemma DepositSum(acc: map<int, int>, a: int, e: Entry, c: int)
    ensures Lookup(Deposit(Integers, acc, e.column, Integers.Mul(a, e.value)), c) ==
            Lookup(acc, c) + a * (if e.column == c then e.value else 0)
  {
  }

  lemma {:induction false} AddScaledSum(acc: map<int, int>, a: int, row: Row, n: nat, c: int)
    requires n <= |row|
    ensures Lookup(AddScaled(Integers, acc, a, row, n), c) == Lookup(acc, c) + a * SumBefore(row, c, n)
  {
    hide Lookup, Deposit;
    if n > 0 {
      var added := if row[n - 1].column == c then row[n - 1].value else 0;
      AddScaledSum(acc, a, row, n - 1, c);
      DepositSum(AddScaled(Integers, acc, a, row, n - 1), a, row[n - 1], c);
      MulDistributes(SumBefore(row, c, n - 1), added, a);
    }
  }

  /** One partial product adds its dot product to every cell. */
  lemma {:induction false} AddRowSum(acc: map<int, int>, aRow: Row, bRows: seq<Row>, n: nat, c: int)
    requires n <= |aRow|
    ensures Lookup(AddRow(Integers, acc, aRow, bRows, n), c) == Lookup(acc, c) + DotBefore(aRow, bRows, c, n)
  {
    if n > 0 {
      AddRowSum(acc, aRow, bRows, n - 1, c);
      var b := BRow(bRows, aRow[n - 1].column);
      AddScaledSum(AddRow(Integers, acc, aRow, bRows, n - 1), aRow[n - 1].value, b, |b|, c);
    }
  }

  ghost function DotRow(aRow: Row, bRows: seq<Row>): int -> int {
    c => Dot(aRow, bRows, c)
  }

  /** Over the integers a serial row is the nonzero cells of the dense product row. */
  lemma SerialRowIsDense(aRow: Row, bRows: seq<Row>, cols: nat)
    ensures SerialRow(Integers, aRow, bRows, cols) == NonzeroCells(DotRow(aRow, bRows), cols)
  {
    var acc := AddRow(Integers, map[], aRow, bRows, |aRow|);
    forall c | 0 <= c < cols ensures Lookup(acc, c) == DotRow(aRow, bRows)(c) {
      AddRowSum(map[], aRow, bRows, |aRow|, c);
    }
    CollectIsNonzeroCells(acc, DotRow(aRow, bRows), cols);
  }

  // ----- cutting rows into tiles

  /** An entry of columns [first, first + count), renumbered, or nothing. */
  ghost function Kept(e: Entry, first: int, count: int): Row {
    if 0 <= e.column - first < count then [Entry(e.column - first, e.value)] else []
  }

  ghost function SliceBefore(row: Row, first: int, count: int, n: nat): Row
    requires n <= |row|
  {
    if n == 0 then [] else SliceBefore(row, first, count, n - 1) + Kept(row[n - 1], first, count)
  }

  /** The entries of columns [first, first + count), renumbered from 0. */
  ghost function SliceRow(row: Row, first: int, count: int): Row {
    SliceBefore(row, first, count, |row|)
  }

  lemma {:induction false} SliceColumns(row: Row, first: int, count: int, n: nat)
    requires n <= |row|
    ensures ColumnsBelow(SliceBefore(row, first, count, n), count)
  {
    if n > 0 {
      SliceColumns(row, first, count, n - 1);
    }
  }

  lemma {:induction false} SumOfAppend(xs: Row, ys: Row, c: int, n: nat)
    requires n <= |xs|
    ensures SumBefore(xs + ys, c, n) == SumBefore(xs, c, n)
  {
    if n > 0 {
      SumOfAppend(xs, ys, c, n - 1);
    }
  }

  lemma ColumnSumKept(xs: Row, e: Entry, first: int, count: int, c: int)
    requires 0 <= c < count
    ensures ColumnSum(xs + Kept(e, first, count), c) ==
            ColumnSum(xs, c) + if e.column == first + c then e.value else 0
  {
    SumOfAppend(xs, Kept(e, first, count), c, |xs|);
    assert Kept(e, first, count) == [] ==> xs + Kept(e, first, count) == xs;
  }

  lemma {:induction false} ColumnSumSlice(row: Row, first: int, count: int, c: int, n: nat)
    requires 0 <= c < count && n <= |row|
    ensures ColumnSum(SliceBefore(row, first, count, n), c) == SumBefore(row, first + c, n)
  {
    if n > 0 {
      ColumnSumSlice(row, first, count, c, n - 1);
      ColumnSumKept(SliceBefore(row, first, count, n - 1), row[n - 1], first, count, c);
    }
  }

  /** The part of the dot product whose inner index lies in [first, limit). */
  ghost function WindowBefore(aRow: Row, bRows: seq<Row>, c: int, first: int, limit: int, n: nat): int
    requires n <= |aRow|
  {
    if n == 0 then 0
    else WindowBefore(aRow, bRows, c, first, limit, n - 1) + WindowTerm(aRow[n - 1], bRows, c, first, limit)
  }

  ghost function WindowTerm(e: Entry, bRows: seq<Row>, c: int, first: int, limit: int): int {
    if first <= e.column < limit then e.value * ColumnSum(BRow(bRows, e.column), c) else 0
  }

  ghost function DotWindow(aRow: Row, bRows: seq<Row>, c: int, first: int, limit: int): int {
    WindowBefore(aRow, bRows, c, first, limit, |aRow|)
  }

  lemma {:induction false} WindowSplit(aRow: Row, bRows: seq<Row>, c: int, first: int, mid: int, limit: int, n: nat)
    requires first <= mid <= limit && n <= |aRow|
    ensures WindowBefore(aRow, bRows, c, first, limit, n) ==
            WindowBefore(aRow, bRows, c, first, mid, n) + WindowBefore(aRow, bRows, c, mid, limit, n)
  {
    if n > 0 {
      WindowSplit(aRow, bRows, c, first, mid, limit, n - 1);
    }
  }

  lemma {:induction false} WindowEmpty(aRow: Row, bRows: seq<Row>, c: int, first: int, n: nat)
    requires n <= |aRow|
    ensures WindowBefore(aRow, bRows, c, first, first, n) == 0
  {
    if n > 0 {
      WindowEmpty(aRow, bRows, c, first, n - 1);
    }
  }

  lemma {:induction false} WindowAll(aRow: Row, bRows: seq<Row>, c: int, limit: int, n: nat)
    requires ColumnsBelow(aRow, limit) && n <= |aRow|
    ensures WindowBefore(aRow, bRows, c, 0, limit, n) == DotBefore(aRow, bRows, c, n)
  {
    if n > 0 {
      WindowAll(aRow, bRows, c, limit, n - 1);
    }
  }

  lemma {:induction false} DotOfAppend(xs: Row, ys: Row, bRows: seq<Row>, c: int, n: nat)
    requires n <= |xs|
    ensures DotBefore(xs + ys, bRows, c, n) == DotBefore(xs, bRows, c, n)
  {
    if n > 0 {
      DotOfAppend(xs, ys, bRows, c, n - 1);
    }
  }

  /** Rows first, first + 1, ... of B, cut to the columns of a tile. */
  ghost function Panel(bRows: seq<Row>, first: nat, count: nat, colFirst: nat, colCount: nat): (panel: seq<Row>)
    requires first + count <= |bRows|
    ensures |panel| == count
  {
    if count == 0 then []
    else Panel(bRows, first, count - 1, colFirst, colCount) + [SliceRow(bRows[first + count - 1], colFirst, colCount)]
  }

  lemma {:induction false} PanelAt(bRows: seq<Row>, first: nat, count: nat, colFirst: nat, colCount: nat, r: nat)
    requires first + count <= |bRows| && r < count
    ensures Panel(bRows, first, count, colFirst, colCount)[r] == SliceRow(bRows[first + r], colFirst, colCount)
  {
    if r < count - 1 {
      PanelAt(bRows, first, count - 1, colFirst, colCount, r);
    }
  }

  lemma DotOfOne(xs: Row, e: Entry, bRows: seq<Row>, c: int)
    ensures Dot(xs + [e], bRows, c) == Dot(xs, bRows, c) + e.value * ColumnSum(BRow(bRows, e.column), c)
  {
    DotOfAppend(xs, [e], bRows, c, |xs|);
  }

  lemma DotKept(xs: Row, e: Entry, bRows: seq<Row>, first: nat, count: nat, colFirst: nat, colCount: nat, c: nat)
    requires first + count <= |bRows| && c < colCount
    ensures Dot(xs + Kept(e, first, count), Panel(bRows, first, count, colFirst, colCount), c) ==
            Dot(xs, Panel(bRows, first, count, colFirst, colCount), c) +
            WindowTerm(e, bRows, colFirst + c, first, first + count)
  {
    hide Panel, Dot, SliceBefore;
    var panel := Panel(bRows, first, count, colFirst, colCount);
    if first <= e.column < first + count {
      var b := bRows[e.column];
      DotOfOne(xs, Entry(e.column - first, e.value), panel, c);
      PanelAt(bRows, first, count, colFirst, colCount, e.column - first);
      ColumnSumSlice(b, colFirst, colCount, c, |b|);
    } else {
      assert xs + Kept(e, first, count) == xs;
    }
  }

  /** A tile of A against the matching panel of B contributes exactly its window. */
  lemma {:induction false} SlicedDot(aRow: Row, bRows: seq<Row>, first: nat, count: nat,
                                     colFirst: nat, colCount: nat, c: nat, n: nat)
    requires first + count <= |bRows| && c < colCount && n <= |aRow|
    ensures Dot(SliceBefore(aRow, first, count, n), Panel(bRows, first, count, colFirst, colCount), c) ==
            WindowBefore(aRow, bRows, colFirst + c, first, first + count, n)
  {
    if n > 0 {
      SlicedDot(aRow, bRows, first, count, colFirst, colCount, c, n - 1);
      DotKept(SliceBefore(aRow, first, count, n - 1), aRow[n - 1], bRows, first, count, colFirst, colCount, c);
    }
  }
}
