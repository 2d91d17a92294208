/** How many scalar multiplications the row-wise kernel makes, and how they split over tiles. */
module Work {
  import opened Csr
  import opened Serial
  import opened Dense
  import opened Partition

  /** One inner-loop iteration per stored entry of each row of B that the row of A selects. */
  ghost function RowWorkBefore(aRow: Row, bRows: seq<Row>, n: nat): nat
    requires n <= |aRow|
  {
    if n == 0 then 0 else RowWorkBefore(aRow, bRows, n - 1) + |BRow(bRows, aRow[n - 1].column)|
  }

  ghost function RowWork(aRow: Row, bRows: seq<Row>): nat {
    RowWorkBefore(aRow, bRows, |aRow|)
  }

  ghost function ProductWork(aRows: seq<Row>, bRows: seq<Row>, n: nat): nat
    requires n <= |aRows|
  {
    if n == 0 then 0 else ProductWork(aRows, bRows, n - 1) + RowWork(aRows[n - 1], bRows)
  }

  // ----- columns: cutting B into column tiles splits the work of every row

  lemma {:induction false} SliceSplits(row: Row, first: int, x: nat, y: nat, n: nat)
    requires n <= |row|
    ensures |SliceBefore(row, first, x + y, n)| == |SliceBefore(row, first, x, n)| + |SliceBefore(row, first + x, y, n)|
  {
    if n > 0 {
      SliceSplits(row, first, x, y, n - 1);
    }
  }

  lemma {:induction false} EmptySlice(row: Row, first: int, n: nat)
    requires n <= |row|
    ensures SliceBefore(row, first, 0, n) == []
  {
    if n > 0 {
      EmptySlice(row, first, n - 1);
    }
  }

  lemma {:induction false} WholeSlice(row: Row, cols: nat, n: nat)
    requires n <= |row| && ColumnsBelow(row, cols)
    ensures |SliceBefore(row, 0, cols, n)| == n
  {
    if n > 0 {
      WholeSlice(row, cols, n - 1);
    }
  }

  /** All rows of B, cut to some columns. */
  ghost function ColumnTile(bRows: seq<Row>, first: nat, count: nat): (tile: seq<Row>)
    ensures |tile| == |bRows|
  {
    Panel(bRows, 0, |bRows|, first, count)
  }

  lemma ColumnTileRow(bRows: seq<Row>, first: nat, count: nat, r: int)
    ensures BRow(ColumnTile(bRows, first, count), r) ==
            if 0 <= r < |bRows| then SliceRow(BRow(bRows, r), first, count) else []
  {
    if 0 <= r < |bRows| {
      PanelAt(bRows, 0, |bRows|, first, count, r);
    }
  }

  lemma {:induction false} ColumnsSplitWork(aRow: Row, bRows: seq<Row>, first: nat, x: nat, y: nat, n: nat)
    requires n <= |aRow|
    ensures RowWorkBefore(aRow, ColumnTile(bRows, first, x + y), n) ==
            RowWorkBefore(aRow, ColumnTile(bRows, first, x), n) + RowWorkBefore(aRow, ColumnTile(bRows, first + x, y), n)
  {
    hide ColumnTile;
    if n > 0 {
      var c := aRow[n - 1].column;
      ColumnsSplitWork(aRow, bRows, first, x, y, n - 1);
      ColumnTileRow(bRows, first, x + y, c);
      ColumnTileRow(bRows, first, x, c);
      ColumnTileRow(bRows, first + x, y, c);
      SliceSplits(BRow(bRows, c), first, x, y, |BRow(bRows, c)|);
    }
  }

  lemma EmptyTileRow(bRows: seq<Row>, first: nat, c: int)
    ensures BRow(ColumnTile(bRows, first, 0), c) == []
  {
    hide ColumnTile;
    ColumnTileRow(bRows, first, 0, c);
    EmptySlice(BRow(bRows, c), first, |BRow(bRows, c)|);
  }

  lemma {:induction false} NoColumnsNoWork(aRow: Row, bRows: seq<Row>, first: nat, n: nat)
    requires n <= |aRow|
    ensures RowWorkBefore(aRow, ColumnTile(bRows, first, 0), n) == 0
  {
    hide ColumnTile, BRow, SliceBefore, SliceRow;
    if n > 0 {
      var c := aRow[n - 1].column;
      NoColumnsNoWork(aRow, bRows, first, n - 1);
      EmptyTileRow(bRows, first, c);
    }
  }

  lemma {:induction false} AllColumnsAllWork(aRow: Row, bRows: seq<Row>, cols: nat, n: nat)
    requires n <= |aRow| && forall r :: 0 <= r < |bRows| ==> ColumnsBelow(bRows[r], cols)
    ensures RowWorkBefore(aRow, ColumnTile(bRows, 0, cols), n) == RowWorkBefore(aRow, bRows, n)
  {
    hide ColumnTile;
    if n > 0 {
      var c := aRow[n - 1].column;
      AllColumnsAllWork(aRow, bRows, cols, n - 1);
      ColumnTileRow(bRows, 0, cols, c);
      WholeSlice(BRow(bRows, c), cols, |BRow(bRows, c)|);
    }
  }

  // ----- inner index: cutting A into column tiles and B into row panels splits it again

  /** The part of a row's work whose inner index lies in [first, limit). */
  ghost function WindowWork(aRow: Row, bRows: seq<Row>, first: int, limit: int, n: nat): nat
    requires n <= |aRow|
  {
    if n == 0 then 0
    else WindowWork(aRow, bRows, first, limit, n - 1) +
         if first <= aRow[n - 1].column < limit then |BRow(bRows, aRow[n - 1].column)| else 0
  }

  lemma {:induction false} WindowWorkSplits(aRow: Row, bRows: seq<Row>, first: int, mid: int, limit: int, n: nat)
    requires first <= mid <= limit && n <= |aRow|
    ensures WindowWork(aRow, bRows, first, limit, n) ==
            WindowWork(aRow, bRows, first, mid, n) + WindowWork(aRow, bRows, mid, limit, n)
  {
    if n > 0 {
      WindowWorkSplits(aRow, bRows, first, mid, limit, n - 1);
    }
  }

  lemma {:induction false} WindowWorkEmpty(aRow: Row, bRows: seq<Row>, first: int, n: nat)
    requires n <= |aRow|
    ensures WindowWork(aRow, bRows, first, first, n) == 0
  {
    if n > 0 {
      WindowWorkEmpty(aRow, bRows, first, n - 1);
    }
  }

  lemma {:induction false} WindowWorkAll(aRow: Row, bRows: seq<Row>, limit: int, n: nat)
    requires ColumnsBelow(aRow, limit) && n <= |aRow|
    ensures WindowWork(aRow, bRows, 0, limit, n) == RowWorkBefore(aRow, bRows, n)
  {
    if n > 0 {
      WindowWorkAll(aRow, bRows, limit, n - 1);
    }
  }

  lemma {:induction false} RowWorkPrefix(xs: Row, ys: Row, bRows: seq<Row>, n: nat)
    requires n <= |xs|
    ensures RowWorkBefore(xs + ys, bRows, n) == RowWorkBefore(xs, bRows, n)
  {
    if n > 0 {
      RowWorkPrefix(xs, ys, bRows, n - 1);
    }
  }

  lemma RowWorkOfOne(xs: Row, e: Entry, bRows: seq<Row>)
    ensures RowWork(xs + [e], bRows) == RowWork(xs, bRows) + |BRow(bRows, e.column)|
  {
    RowWorkPrefix(xs, [e], bRows, |xs|);
  }

  lemma WorkKept(xs: Row, e: Entry, bRows: seq<Row>, first: nat, count: nat, cols: RowBlock, panel: seq<Row>, tile: seq<Row>)
    requires first + count <= |bRows| && panel == Panel(bRows, first, count, cols.firstRow, cols.rows)
    requires tile == ColumnTile(bRows, cols.firstRow, cols.rows)
    ensures RowWork(xs + Kept(e, first, count), panel) ==
            RowWork(xs, panel) + if first <= e.column < first + count then |BRow(tile, e.column)| else 0
  {
    hide ColumnTile, Panel, RowWork;
    if first <= e.column < first + count {
      ColumnTileRow(bRows, cols.firstRow, cols.rows, e.column);
      PanelAt(bRows, first, count, cols.firstRow, cols.rows, e.column - first);
      RowWorkOfOne(xs, Entry(e.column - first, e.value), panel);
    } else {
      assert xs + Kept(e, first, count) == xs;
    }
  }

  /** A tile of A against the matching panel makes exactly the multiplications of its window. */
  lemma {:induction false} SlicedWork(aRow: Row, bRows: seq<Row>, first: nat, count: nat, cols: RowBlock, n: nat,
                                      panel: seq<Row>, tile: seq<Row>)
    requires first + count <= |bRows| && n <= |aRow| && panel == Panel(bRows, first, count, cols.firstRow, cols.rows)
    requires tile == ColumnTile(bRows, cols.firstRow, cols.rows)
    ensures RowWork(SliceBefore(aRow, first, count, n), panel) == WindowWork(aRow, tile, first, first + count, n)
  {
    hide ColumnTile, Panel;
    if n > 0 {
      SlicedWork(aRow, bRows, first, count, cols, n - 1, panel, tile);
      WorkKept(SliceBefore(aRow, first, count, n - 1), aRow[n - 1], bRows, first, count, cols, panel, tile);
    }
  }
}
