/** The work counts of both distributions, and that they account for every multiplication once. */
module Workload {
  import opened Csr
  import opened Serial
  import opened Dense
  import opened Partition
  import opened Grid
  import opened Blocks
  import opened Stages
  import opened Trident
  import opened Work

  // ----- work as sums over rows

  ghost function WorkOf(aRows: seq<Row>, bRows: seq<Row>): int -> int {
    r => RowWork(BRow(aRows, r), bRows)
  }

  lemma {:induction false} ProductWorkIsSum(aRows: seq<Row>, bRows: seq<Row>, n: nat)
    requires n <= |aRows|
    ensures Sum(WorkOf(aRows, bRows), 0, n) == ProductWork(aRows, bRows, n)
  {
    if n > 0 {
      ProductWorkIsSum(aRows, bRows, n - 1);
    }
  }

  /** The stored length of a row of B, read off its row pointers. */
  lemma DegreeOf(b: CsrMatrix, r: nat, bRows: seq<Row>)
    requires Shaped(b) && r < b.rows && bRows == Rows(b)
    ensures |BRow(bRows, r)| == b.rowPtr[r + 1] - b.rowPtr[r]
  {
    RowsAt(b, r);
  }

  /** Adds the work of one row; a column outside the rows of B is an error. */
  method CountRow(a: CsrMatrix, b: CsrMatrix, row: nat, count0: nat, ghost aRow: Row, ghost bRows: seq<Row>)
    returns (count: Result<nat>)
    requires Shaped(a) && Shaped(b) && row < a.rows && aRow == RowOf(a, row) && bRows == Rows(b)
    ensures count.Ok? <==> ColumnsBelow(aRow, b.rows)
    ensures count.Ok? ==> count.value == count0 + RowWork(aRow, bRows)
  {
    hide Rows, RowOf, BRow;
    var first, last := a.rowPtr[row], a.rowPtr[row + 1];
    var total := count0;
    InRangeIsColumnsBelow(aRow, b.rows, |aRow|);
    RowExtent(a, row);
    for p := first to last
      invariant InRangeBefore(aRow, b.rows, p - first) && total == count0 + RowWorkBefore(aRow, bRows, p - first)
    {
      RowOfAt(a, row, p);
      var bRow := a.columnIndices[p];
      if bRow < 0 || bRow >= b.rows {
        return Error("A contains a column index outside B's row range");
      }
      DegreeOf(b, bRow, bRows);
      total := total + (b.rowPtr[bRow + 1] - b.rowPtr[bRow]);
    }
    count := Ok(total);
  }

  method ScalarMultiplicationCount(a: CsrMatrix, b: CsrMatrix) returns (count: Result<nat>)
    requires Shaped(a) && Shaped(b)
    ensures count.Ok? <==> Compatible(a, b)
    ensures count.Ok? ==> count.value == ProductWork(Rows(a), Rows(b), a.rows)
  {
    hide Rows, RowOf, RowWork;
    if a.cols != b.rows {
      return Error("SpGEMM requires A.cols == B.rows");
    }
    var total: nat := 0;
    CompatibleBeforeMeans(a, b.rows, a.rows);
    for row := 0 to a.rows
      invariant CompatibleBefore(a, b.rows, row) && total == ProductWork(Rows(a), Rows(b), row)
    {
      var next := CountRow(a, b, row, total, RowOf(a, row), Rows(b));
      if next.Error? {
        return next;
      }
      RowsAt(a, row);
      total := next.value;
    }
    count := Ok(total);
  }

  // ----- the row distribution

  lemma MultipliableRow(a: CsrMatrix, b: CsrMatrix, row: nat)
    requires Multipliable(a, b) && row < a.rows
    ensures ColumnsBelow(RowOf(a, row), b.rows) && BRow(Rows(a), row) == RowOf(a, row)
  {
    RowsAt(a, row);
  }

  /** The work of some consecutive rows. */
  method CountRows(a: CsrMatrix, b: CsrMatrix, range: RowBlock) returns (count: nat)
    requires Multipliable(a, b) && range.firstRow + range.rows <= a.rows
    ensures count == Sum(WorkOf(Rows(a), Rows(b)), range.firstRow, range.firstRow + range.rows)
  {
    hide Rows, RowOf, RowWork, ColumnsBelow;
    count := 0;
    for row := range.firstRow to range.firstRow + range.rows
      invariant count == Sum(WorkOf(Rows(a), Rows(b)), range.firstRow, row)
    {
      MultipliableRow(a, b, row);
      var next := CountRow(a, b, row, count, RowOf(a, row), Rows(b));
      count := next.value;
    }
  }

  lemma {:induction false} SumOfSet(counts: seq<nat>, rank: nat, value: nat, n: nat)
    requires rank < |counts| && n <= |counts|
    ensures SumOf(counts[rank := value], n) == SumOf(counts, n) + if rank < n then value - counts[rank] else 0
  {
    if n > 0 {
      SumOfSet(counts, rank, value, n - 1);
    }
  }

  lemma {:induction false} SumOfZeros(counts: seq<nat>, n: nat)
    requires n <= |counts| && forall rank :: 0 <= rank < n ==> counts[rank] == 0
    ensures SumOf(counts, n) == 0
  {
    if n > 0 {
      SumOfZeros(counts, n - 1);
    }
  }

  method RowPartitionWork(a: CsrMatrix, b: CsrMatrix, ranks: nat) returns (work: seq<nat>)
    requires Multipliable(a, b) && ranks > 0
    ensures |work| == ranks
    ensures forall rank :: 0 <= rank < ranks ==>
      work[rank] == Sum(WorkOf(Rows(a), Rows(b)), Start(a.rows, ranks, rank), Start(a.rows, ranks, rank + 1))
    ensures SumOf(work, ranks) == ProductWork(Rows(a), Rows(b), a.rows)
  {
    hide Sum, WorkOf, Rows, ProductWork, Shaped, RowOf, ColumnsBelow, SumOf, BlockRows, Start;
    StartsAtZero(a.rows, ranks);
    var blocks := PartitionRows(a.rows, ranks);
    ghost var f := WorkOf(Rows(a), Rows(b));
    work := seq(ranks, _ => 0);
    SumOfZeros(work, ranks);
    NoSum(f, 0);
    for rank := 0 to ranks
      invariant |work| == ranks && SumOf(work, ranks) == Sum(f, 0, Start(a.rows, ranks, rank))
      invariant forall t :: 0 <= t < rank ==> work[t] == Sum(f, Start(a.rows, ranks, t), Start(a.rows, ranks, t + 1))
      invariant forall t :: rank <= t < ranks ==> work[t] == 0
    {
      BlockInside(a.rows, ranks, rank);
      StartStep(a.rows, ranks, rank);
      var count := CountRows(a, b, blocks[rank]);
      SumOfSet(work, rank, count, ranks);
      SumSplit(f, 0, Start(a.rows, ranks, rank), Start(a.rows, ranks, rank + 1));
      work := work[rank := count];
    }
    StartEnds(a.rows, ranks);
    ProductWorkIsSum(Rows(a), Rows(b), a.rows);
  }

  lemma NoSum(f: int -> int, x: int)
    ensures Sum(f, x, x) == 0
  {
  }

  // ----- the tile distribution

  /** Counts the entries of every row of B in a column tile, as the kernel will meet them. */
  method RowDegrees(b: CsrMatrix, columns: RowBlock, ghost tile: seq<Row>) returns (degrees: seq<nat>)
    requires Shaped(b) && tile == ColumnTile(Rows(b), columns.firstRow, columns.rows)
    ensures |degrees| == b.rows && forall r :: 0 <= r < b.rows ==> degrees[r] == |BRow(tile, r)|
  {
    hide Rows, RowOf, ColumnTile, SliceRow;
    degrees := [];
    for row := 0 to b.rows
      invariant |degrees| == row && forall r :: 0 <= r < row ==> degrees[r] == |BRow(tile, r)|
    {
      var degree := CountInColumns(b, row, columns, RowOf(b, row));
      RowsAt(b, row);
      ColumnTileRow(Rows(b), columns.firstRow, columns.rows, row);
      degrees := degrees + [degree];
    }
  }

  method CountInColumns(b: CsrMatrix, row: nat, columns: RowBlock, ghost bRow: Row) returns (degree: nat)
    requires Shaped(b) && row < b.rows && bRow == RowOf(b, row)
    ensures degree == |SliceRow(bRow, columns.firstRow, columns.rows)|
  {
    hide RowOf;
    degree := 0;
    var first, last := b.rowPtr[row], b.rowPtr[row + 1];
    RowExtent(b, row);
    for p := first to last
      invariant degree == |SliceBefore(bRow, columns.firstRow, columns.rows, p - first)|
    {
      RowOfAt(b, row, p);
      var column := b.columnIndices[p];
      if column >= columns.firstRow && column < columns.firstRow + columns.rows {
        degree := degree + 1;
      }
    }
  }

  method CountTileRows(a: CsrMatrix, degrees: seq<nat>, range: RowBlock, ghost tile: seq<Row>) returns (count: nat)
    requires Valid(a) && a.cols == |degrees| == |tile| && range.firstRow + range.rows <= a.rows
    requires forall r :: 0 <= r < |tile| ==> degrees[r] == |BRow(tile, r)|
    ensures count == Sum(WorkOf(Rows(a), tile), range.firstRow, range.firstRow + range.rows)
  {
    hide Rows, RowOf;
    count := 0;
    for row := range.firstRow to range.firstRow + range.rows
      invariant count == Sum(WorkOf(Rows(a), tile), range.firstRow, row)
    {
      var next := CountTileRow(a, degrees, row, count, RowOf(a, row), tile);
      RowsAt(a, row);
      count := next;
    }
  }

  method CountTileRow(a: CsrMatrix, degrees: seq<nat>, row: nat, count0: nat, ghost aRow: Row, ghost tile: seq<Row>)
    returns (count: nat)
    requires Valid(a) && a.cols == |degrees| == |tile| && row < a.rows && aRow == RowOf(a, row)
    requires forall r :: 0 <= r < |tile| ==> degrees[r] == |BRow(tile, r)|
    ensures count == count0 + RowWork(aRow, tile)
  {
    hide RowOf, BRow;
    count := count0;
    var first, last := a.rowPtr[row], a.rowPtr[row + 1];
    RowExtent(a, row);
    assert ColumnsBelow(aRow, a.cols);
    for p := first to last
      invariant count == count0 + RowWorkBefore(aRow, tile, p - first)
    {
      RowOfAt(a, row, p);
      count := count + degrees[a.columnIndices[p]];
    }
  }

  /** Work against the columns of tile j, row by row. */
  ghost function TileWork(a: CsrMatrix, b: CsrMatrix, columns: RowBlock): int -> int
    requires Shaped(a) && Shaped(b)
  {
    WorkOf(Rows(a), ColumnTile(Rows(b), columns.firstRow, columns.rows))
  }

  /** The multiplications of rank (i, j, k): its rows of A against its columns of B. */
  ghost function RankWork(a: CsrMatrix, b: CsrMatrix, grid: ProcessGrid, i: nat, j: nat, k: nat): int
    requires Shaped(a) && Shaped(b) && grid.Valid()
  {
    var range := RowRange(a.rows, grid, i, k);
    Sum(TileWork(a, b, Block(b.cols, grid.side, j)), range.firstRow, range.firstRow + range.rows)
  }

  ghost predicate CountedBefore(work: seq<nat>, a: CsrMatrix, b: CsrMatrix, grid: ProcessGrid, j: nat, i: nat, k: nat)
    requires Shaped(a) && Shaped(b) && grid.Valid()
  {
    && |work| == |grid.coordinateRanks|
    && forall i': nat, j': nat, k': nat | grid.Coordinates(i', j', k') ::
         work[grid.RankAt(i', j', k')] == if Earlier(j', i', k', j, i, k) then RankWork(a, b, grid, i', j', k') else 0
  }

  lemma CountOneMore(work: seq<nat>, a: CsrMatrix, b: CsrMatrix, grid: ProcessGrid, j: nat, i: nat, k: nat, count: nat)
    requires Shaped(a) && Shaped(b) && grid.Valid() && grid.Coordinates(i, j, k)
    requires CountedBefore(work, a, b, grid, j, i, k) && count == RankWork(a, b, grid, i, j, k)
    ensures work[grid.RankAt(i, j, k)] == 0
    ensures CountedBefore(work[grid.RankAt(i, j, k) := count], a, b, grid, j, i, k + 1)
  {
    hide RankWork;
    var next := work[grid.RankAt(i, j, k) := count];
    forall i': nat, j': nat, k': nat | grid.Coordinates(i', j', k')
      ensures next[grid.RankAt(i', j', k')] == if Earlier(j', i', k', j, i, k + 1) then RankWork(a, b, grid, i', j', k') else 0
    {
      if grid.RankAt(i', j', k') == grid.RankAt(i, j, k) {
        grid.RankAtInjective(i', j', k', i, j, k);
      }
    }
  }

  lemma CountedNext(work: seq<nat>, a: CsrMatrix, b: CsrMatrix, grid: ProcessGrid, j: nat, i: nat)
    requires Shaped(a) && Shaped(b) && grid.Valid()
    ensures CountedBefore(work, a, b, grid, j, i, grid.nodeSize) ==> CountedBefore(work, a, b, grid, j, i + 1, 0)
    ensures CountedBefore(work, a, b, grid, j, grid.side, 0) ==> CountedBefore(work, a, b, grid, j + 1, 0, 0)
  {
    hide RankWork;
  }

  /** One more column tile, summed over all rows. */
  lemma {:induction false} TilesSplitWork(aRows: seq<Row>, bRows: seq<Row>, x: nat, y: nat, n: nat)
    ensures Sum(WorkOf(aRows, ColumnTile(bRows, 0, x + y)), 0, n) ==
            Sum(WorkOf(aRows, ColumnTile(bRows, 0, x)), 0, n) + Sum(WorkOf(aRows, ColumnTile(bRows, x, y)), 0, n)
  {
    hide ColumnTile;
    if n > 0 {
      TilesSplitWork(aRows, bRows, x, y, n - 1);
      var aRow := BRow(aRows, n - 1);
      ColumnsSplitWork(aRow, bRows, 0, x, y, |aRow|);
    }
  }

  lemma {:induction false} TilesBeginAndEnd(aRows: seq<Row>, bRows: seq<Row>, cols: nat, n: nat)
    requires forall r :: 0 <= r < |bRows| ==> ColumnsBelow(bRows[r], cols)
    ensures Sum(WorkOf(aRows, ColumnTile(bRows, 0, 0)), 0, n) == 0
    ensures Sum(WorkOf(aRows, ColumnTile(bRows, 0, cols)), 0, n) == Sum(WorkOf(aRows, bRows), 0, n)
  {
    hide ColumnTile;
    if n > 0 {
      TilesBeginAndEnd(aRows, bRows, cols, n - 1);
      var aRow := BRow(aRows, n - 1);
      NoColumnsNoWork(aRow, bRows, 0, |aRow|);
      AllColumnsAllWork(aRow, bRows, cols, |aRow|);
    }
  }

  /** The work of the column tiles before j. */
  ghost function WorkToTile(a: CsrMatrix, b: CsrMatrix, side: nat, j: nat): int
    requires Shaped(a) && Shaped(b) && side > 0
  {
    Sum(TileWork(a, b, RowBlock(0, Start(b.cols, side, j))), 0, a.rows)
  }

  method ScalarProductsByRank(a: CsrMatrix, b: CsrMatrix, grid: ProcessGrid) returns (work: seq<nat>)
    requires Multipliable(a, b) && grid.Valid()
    ensures |work| == |grid.coordinateRanks|
    ensures forall i: nat, j: nat, k: nat | grid.Coordinates(i, j, k) ::
      work[grid.RankAt(i, j, k)] == RankWork(a, b, grid, i, j, k)
    ensures SumOf(work, |work|) == ProductWork(Rows(a), Rows(b), a.rows)
  {
    hide CountedBefore, Rows, Sum, TileWork, RankWork, ProductWork, WorkOf, ColumnTile, WorkToTile;
    work := seq(|grid.coordinateRanks|, _ => 0);
    NothingCounted(work, a, b, grid);
    for j := 0 to grid.side
      invariant CountedBefore(work, a, b, grid, j, 0, 0) && |work| == |grid.coordinateRanks|
      invariant SumOf(work, |work|) == WorkToTile(a, b, grid.side, j)
    {
      work := CountColumnTile(a, b, grid, j, work);
      TileCounted(a, b, grid.side, j);
    }
    AllCounted(work, a, b, grid);
  }

  lemma NothingCounted(work: seq<nat>, a: CsrMatrix, b: CsrMatrix, grid: ProcessGrid)
    requires Multipliable(a, b) && grid.Valid() && work == seq(|grid.coordinateRanks|, _ => 0)
    ensures CountedBefore(work, a, b, grid, 0, 0, 0) && SumOf(work, |work|) == WorkToTile(a, b, grid.side, 0)
  {
    hide Rows, RankWork;
    SumOfZeros(work, |work|);
    BRowsBelow(b);
    TilesBeginAndEnd(Rows(a), Rows(b), b.cols, a.rows);
  }

  lemma BRowsBelow(b: CsrMatrix)
    requires Valid(b)
    ensures forall r :: 0 <= r < b.rows ==> ColumnsBelow(Rows(b)[r], b.cols)
  {
    hide Rows, ColumnsBelow;
    forall r | 0 <= r < b.rows ensures ColumnsBelow(Rows(b)[r], b.cols) {
      RowsAt(b, r);
    }
  }

  lemma TileCounted(a: CsrMatrix, b: CsrMatrix, side: nat, j: nat)
    requires Shaped(a) && Shaped(b) && j < side
    ensures WorkToTile(a, b, side, j + 1) ==
            WorkToTile(a, b, side, j) + Sum(TileWork(a, b, Block(b.cols, side, j)), 0, a.rows)
  {
    StartStep(b.cols, side, j);
    TilesSplitWork(Rows(a), Rows(b), Start(b.cols, side, j), Block(b.cols, side, j).rows, a.rows);
  }

  lemma AllCounted(work: seq<nat>, a: CsrMatrix, b: CsrMatrix, grid: ProcessGrid)
    requires Multipliable(a, b) && grid.Valid() && CountedBefore(work, a, b, grid, grid.side, 0, 0)
    requires SumOf(work, |work|) == WorkToTile(a, b, grid.side, grid.side)
    ensures forall i: nat, j: nat, k: nat | grid.Coordinates(i, j, k) ::
      work[grid.RankAt(i, j, k)] == RankWork(a, b, grid, i, j, k)
    ensures SumOf(work, |work|) == ProductWork(Rows(a), Rows(b), a.rows)
  {
    hide Rows, RankWork, Sum, ColumnTile, WorkOf;
    StartEnds(b.cols, grid.side);
    BRowsBelow(b);
    TilesBeginAndEnd(Rows(a), Rows(b), b.cols, a.rows);
    ProductWorkIsSum(Rows(a), Rows(b), a.rows);
  }

  /** The ranks of one column tile. */
  method CountColumnTile(a: CsrMatrix, b: CsrMatrix, grid: ProcessGrid, j: nat, work0: seq<nat>) returns (work: seq<nat>)
    requires Multipliable(a, b) && grid.Valid() && j < grid.side && |work0| == |grid.coordinateRanks|
    requires CountedBefore(work0, a, b, grid, j, 0, 0)
    ensures |work| == |work0| && CountedBefore(work, a, b, grid, j + 1, 0, 0)
    ensures SumOf(work, |work|) == SumOf(work0, |work0|) + Sum(TileWork(a, b, Block(b.cols, grid.side, j)), 0, a.rows)
  {
    hide CountedBefore, Rows, Sum, TileWork, RankWork;
    work := work0;
    var columns := PartitionRows(b.cols, grid.side);
    ghost var f := TileWork(a, b, Block(b.cols, grid.side, j));
    ghost var tile := ColumnTile(Rows(b), columns[j].firstRow, columns[j].rows);
    var degrees := RowDegrees(b, columns[j], tile);
    NoSum(f, 0);
    for i := 0 to grid.side
      invariant |work| == |work0| && CountedBefore(work, a, b, grid, j, i, 0)
      invariant SumOf(work, |work|) == SumOf(work0, |work0|) + Sum(f, 0, Start(a.rows, grid.side, i))
    {
      work := CountNode(a, b, grid, i, j, work, degrees, tile);
      StartStep(a.rows, grid.side, i);
      SumSplit(f, 0, Start(a.rows, grid.side, i), Start(a.rows, grid.side, i + 1));
      CountedNext(work, a, b, grid, j, i);
    }
    CountedNext(work, a, b, grid, j, grid.side);
    StartEnds(a.rows, grid.side);
  }

  /** The ranks of one node. */
  method CountNode(a: CsrMatrix, b: CsrMatrix, grid: ProcessGrid, i: nat, j: nat, work0: seq<nat>,
                   degrees: seq<nat>, ghost tile: seq<Row>)
    returns (work: seq<nat>)
    requires Multipliable(a, b) && grid.Valid() && i < grid.side && j < grid.side && |work0| == |grid.coordinateRanks|
    requires |degrees| == b.rows && forall r :: 0 <= r < b.rows ==> degrees[r] == |BRow(tile, r)|
    requires tile == ColumnTile(Rows(b), Block(b.cols, grid.side, j).firstRow, Block(b.cols, grid.side, j).rows)
    requires CountedBefore(work0, a, b, grid, j, i, 0)
    ensures |work| == |work0| && CountedBefore(work, a, b, grid, j, i, grid.nodeSize)
    ensures SumOf(work, |work|) == SumOf(work0, |work0|) +
      Sum(TileWork(a, b, Block(b.cols, grid.side, j)), Start(a.rows, grid.side, i), Start(a.rows, grid.side, i + 1))
  {
    hide CountedBefore, Rows, Sum;
    work := work0;
    ghost var f, coarse := TileWork(a, b, Block(b.cols, grid.side, j)), Block(a.rows, grid.side, i);
    NoSum(f, coarse.firstRow);
    for k := 0 to grid.nodeSize
      invariant |work| == |work0| && CountedBefore(work, a, b, grid, j, i, k)
      invariant SumOf(work, |work|) == SumOf(work0, |work0|) +
        Sum(f, coarse.firstRow, coarse.firstRow + Start(coarse.rows, grid.nodeSize, k))
    {
      var block := MatrixBlockAt(a.rows, b.cols, grid, i, j, k);
      RowRangeInside(a.rows, grid, i, k);
      var count := CountTileRows(a, degrees, block.rows, tile);
      CountOneMore(work, a, b, grid, j, i, k, count);
      SumOfSet(work, grid.RankAt(i, j, k), count, |work|);
      StartStep(coarse.rows, grid.nodeSize, k);
      SumSplit(f, coarse.firstRow, block.rows.firstRow, block.rows.firstRow + block.rows.rows);
      work := work[grid.RankAt(i, j, k) := count];
    }
    StartEnds(coarse.rows, grid.nodeSize);
    StartStep(a.rows, grid.side, i);
  }

  // ----- the counts are those of the staged product

  /** The multiplications one stage makes for one row of a tile. */
  ghost function StageWork(aRow: Row, bRows: seq<Row>, cols: RowBlock, total: nat, side: nat): int -> int
    requires side > 0 && total <= |bRows|
  {
    h => if 0 <= h < side then
           BlockInside(total, side, h);
           RowWork(SliceRow(aRow, Start(total, side, h), Block(total, side, h).rows),
                   Panel(bRows, Start(total, side, h), Block(total, side, h).rows, cols.firstRow, cols.rows))
         else 0
  }

  lemma {:induction false} StagesToWindow(aRow: Row, bRows: seq<Row>, cols: RowBlock, total: nat, side: nat, n: nat, tile: seq<Row>)
    requires n <= side && side > 0 && total <= |bRows| && tile == ColumnTile(bRows, cols.firstRow, cols.rows)
    ensures Sum(StageWork(aRow, bRows, cols, total, side), 0, n) == WindowWork(aRow, tile, 0, Start(total, side, n), |aRow|)
  {
    hide ColumnTile, WindowWork, StageWork, Start;
    StartsAtZero(total, side);
    if n > 0 {
      StagesToWindow(aRow, bRows, cols, total, side, n - 1, tile);
      StageWindow(aRow, bRows, cols, total, side, n - 1, tile);
      StartMonotone(total, side, 0, n - 1);
      WindowWorkSplits(aRow, tile, 0, Start(total, side, n - 1), Start(total, side, n), |aRow|);
    } else {
      WindowWorkEmpty(aRow, tile, 0, |aRow|);
    }
  }

  lemma StartsAtZero(total: nat, side: nat)
    requires side > 0
    ensures Start(total, side, 0) == 0
  {
  }

  lemma StageWindow(aRow: Row, bRows: seq<Row>, cols: RowBlock, total: nat, side: nat, h: nat, tile: seq<Row>)
    requires h < side && total <= |bRows| && tile == ColumnTile(bRows, cols.firstRow, cols.rows)
    ensures Start(total, side, h) <= Start(total, side, h + 1)
    ensures StageWork(aRow, bRows, cols, total, side)(h) ==
            WindowWork(aRow, tile, Start(total, side, h), Start(total, side, h + 1), |aRow|)
  {
    hide ColumnTile, RowWork, WindowWork, Panel;
    var first, count := Start(total, side, h), Block(total, side, h).rows;
    StartStep(total, side, h);
    BlockInside(total, side, h);
    SlicedWork(aRow, bRows, first, count, cols, |aRow|, Panel(bRows, first, count, cols.firstRow, cols.rows), tile);
  }

  /** Over the rounds of a product, in the order of any rank's schedule, the stages make exactly the
      multiplications counted for the row. */
  lemma StagesMakeTheCountedWork(a: CsrMatrix, b: CsrMatrix, row: nat, cols: RowBlock, side: nat, start: nat)
    requires Multipliable(a, b) && row < a.rows && side > 0
    ensures RoundSum(StageWork(RowOf(a, row), Rows(b), cols, a.cols, side), start, side, side) ==
            TileWork(a, b, cols)(row)
  {
    hide ColumnTile, RowOf, Rows, StageWork, ColumnsBelow;
    var aRow, tile := RowOf(a, row), ColumnTile(Rows(b), cols.firstRow, cols.rows);
    RoundSumIsSum(StageWork(aRow, Rows(b), cols, a.cols, side), start, side);
    StagesToWindow(aRow, Rows(b), cols, a.cols, side, side, tile);
    StartEnds(a.cols, side);
    assert ColumnsBelow(aRow, a.cols);
    WindowWorkAll(aRow, tile, a.cols, |aRow|);
    RowsAt(a, row);
  }

  // ----- the multiplications of a rank, stage by stage

  /** What stage h makes for the first n rows of a rank. */
  ghost function StageTotal(a: CsrMatrix, b: CsrMatrix, range: RowBlock, cols: RowBlock, side: nat, n: nat, h: int): int
    requires Multipliable(a, b) && side > 0 && range.firstRow + n <= a.rows
  {
    if n == 0 then 0
    else StageTotal(a, b, range, cols, side, n - 1, h)
         + StageWork(RowOf(a, range.firstRow + n - 1), Rows(b), cols, a.cols, side)(h)
  }

  /** What the first `rounds` rounds of a schedule make for the first n rows. */
  ghost function RoundsTotal(a: CsrMatrix, b: CsrMatrix, range: RowBlock, cols: RowBlock, side: nat, n: nat, start: nat, rounds: nat): int
    requires Multipliable(a, b) && side > 0 && range.firstRow + n <= a.rows
  {
    if n == 0 then 0
    else RoundsTotal(a, b, range, cols, side, n - 1, start, rounds)
         + RoundSum(StageWork(RowOf(a, range.firstRow + n - 1), Rows(b), cols, a.cols, side), start, side, rounds)
  }

  lemma {:induction false} NoRounds(a: CsrMatrix, b: CsrMatrix, range: RowBlock, cols: RowBlock, side: nat, n: nat, start: nat)
    requires Multipliable(a, b) && side > 0 && range.firstRow + n <= a.rows
    ensures RoundsTotal(a, b, range, cols, side, n, start, 0) == 0
  {
    hide StageWork, Multipliable;
    if n > 0 {
      NoRounds(a, b, range, cols, side, n - 1, start);
    }
  }

  lemma {:induction false} OneMoreRound(a: CsrMatrix, b: CsrMatrix, range: RowBlock, cols: RowBlock, side: nat, n: nat,
                                        start: nat, rounds: nat)
    requires Multipliable(a, b) && side > 0 && range.firstRow + n <= a.rows
    ensures RoundsTotal(a, b, range, cols, side, n, start, rounds + 1) ==
            RoundsTotal(a, b, range, cols, side, n, start, rounds)
            + StageTotal(a, b, range, cols, side, n, (start + rounds) % side)
  {
    hide StageWork, RowOf, Rows, Valid;
    if n > 0 {
      OneMoreRound(a, b, range, cols, side, n - 1, start, rounds);
    }
  }

  /** Over a whole product the rounds make what was counted for the rows. */
  lemma {:induction false} RoundsMakeTheCountedWork(a: CsrMatrix, b: CsrMatrix, range: RowBlock, cols: RowBlock, side: nat,
                                                    n: nat, start: nat)
    requires Multipliable(a, b) && side > 0 && range.firstRow + n <= a.rows
    ensures RoundsTotal(a, b, range, cols, side, n, start, side) ==
            Sum(TileWork(a, b, cols), range.firstRow, range.firstRow + n)
  {
    hide StageWork, TileWork, RowOf, Rows, Valid, RoundSum;
    if n > 0 {
      RoundsMakeTheCountedWork(a, b, range, cols, side, n - 1, start);
      StagesMakeTheCountedWork(a, b, range.firstRow + n - 1, cols, side, start);
    }
  }

  lemma AllRoundsMakeRankWork(a: CsrMatrix, b: CsrMatrix, grid: ProcessGrid, i: nat, j: nat, k: nat)
    requires Multipliable(a, b) && grid.Valid() && grid.Coordinates(i, j, k)
    ensures RowRange(a.rows, grid, i, k).firstRow + RowRange(a.rows, grid, i, k).rows <= a.rows
    ensures var range, cols := RowRange(a.rows, grid, i, k), Block(b.cols, grid.side, j);
            RoundsTotal(a, b, range, cols, grid.side, range.rows, i + j, grid.side) == RankWork(a, b, grid, i, j, k)
  {
    hide TileWork, RoundsTotal, Sum;
    RowRangeInside(a.rows, grid, i, k);
    var range, cols := RowRange(a.rows, grid, i, k), Block(b.cols, grid.side, j);
    RoundsMakeTheCountedWork(a, b, range, cols, grid.side, range.rows, i + j);
  }

  /** One addProduct call of a stage makes what the stage makes for the rows of the rank. */
  lemma StageMade(a: CsrMatrix, b: CsrMatrix, grid: ProcessGrid, i: nat, j: nat, k: nat, h: nat,
                  range: RowBlock, cols: RowBlock, aTile: CsrMatrix, panel: CsrMatrix)
    requires Multipliable(a, b) && grid.Valid() && grid.Coordinates(i, j, k) && h < grid.side
    requires range == RowRange(a.rows, grid, i, k) && range.firstRow + range.rows <= a.rows
    requires Shaped(panel) && IsCoarseTile(panel, b, Block(b.rows, grid.side, h), cols)
    requires aTile == Tile(a, grid, i, h, k) && Valid(aTile) && aTile.rows == range.rows
    ensures ProductWork(Rows(aTile), Rows(panel), aTile.rows) == StageTotal(a, b, range, cols, grid.side, range.rows, h)
  {
    StageMadeBefore(a, b, grid, i, j, k, h, range, cols, aTile, Rows(panel), range.rows);
  }

  lemma {:induction false} StageMadeBefore(a: CsrMatrix, b: CsrMatrix, grid: ProcessGrid, i: nat, j: nat, k: nat, h: nat,
                                           range: RowBlock, cols: RowBlock, aTile: CsrMatrix, panelRows: seq<Row>, n: nat)
    requires Multipliable(a, b) && grid.Valid() && grid.Coordinates(i, j, k) && h < grid.side
    requires range == RowRange(a.rows, grid, i, k) && range.firstRow + range.rows <= a.rows && n <= range.rows
    requires aTile == Tile(a, grid, i, h, k) && Valid(aTile) && aTile.rows == range.rows
    requires var inner := Block(b.rows, grid.side, h);
             inner.firstRow + inner.rows <= b.rows && panelRows == Panel(Rows(b), inner.firstRow, inner.rows, cols.firstRow, cols.rows)
    ensures ProductWork(Rows(aTile), panelRows, n) == StageTotal(a, b, range, cols, grid.side, n, h)
  {
    hide RowWork, Panel, Tile, RowOf, Rows, RowRange, SliceRow, Start, ColumnsBelow;
    if n > 0 {
      StageMadeBefore(a, b, grid, i, j, k, h, range, cols, aTile, panelRows, n - 1);
      TileRow(a, grid, i, h, k, range, Block(a.cols, grid.side, h), n - 1);
      RowsAt(aTile, n - 1);
    }
  }
}
