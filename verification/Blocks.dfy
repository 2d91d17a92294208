/** Two-level tiles: coarse q x q blocks, each cut into row slices for the ranks of its node. */
module Blocks {
  import opened Csr
  import opened Dense
  import opened Partition
  import opened Grid

  datatype MatrixBlock = MatrixBlock(rows: RowBlock, cols: RowBlock)

  ghost function RowRange(rows: nat, grid: ProcessGrid, i: nat, k: nat): RowBlock
    requires grid.Valid()
  {
    var coarse := Block(rows, grid.side, i);
    var local := Block(coarse.rows, grid.nodeSize, k);
    RowBlock(coarse.firstRow + local.firstRow, local.rows)
  }

  ghost function BlockAt(rows: nat, cols: nat, grid: ProcessGrid, i: nat, j: nat, k: nat): MatrixBlock
    requires grid.Valid()
  {
    MatrixBlock(RowRange(rows, grid, i, k), Block(cols, grid.side, j))
  }

  method MatrixBlockAt(rows: nat, cols: nat, grid: ProcessGrid, i: nat, j: nat, k: nat) returns (block: MatrixBlock)
    requires grid.Valid() && grid.Coordinates(i, j, k)
    ensures block == BlockAt(rows, cols, grid, i, j, k)
  {
    var coarse := PartitionRows(rows, grid.side);
    var local := PartitionRows(coarse[i].rows, grid.nodeSize);
    var columns := PartitionRows(cols, grid.side);
    block := MatrixBlock(RowBlock(coarse[i].firstRow + local[k].firstRow, local[k].rows), columns[j]);
  }

  lemma BlockInside(total: nat, parts: nat, t: nat)
    requires t < parts
    ensures Block(total, parts, t).firstRow + Block(total, parts, t).rows == Start(total, parts, t + 1) <= total
  {
    StartStep(total, parts, t);
    StartEnds(total, parts);
    StartMonotone(total, parts, t + 1, parts);
  }

  lemma RowRangeInside(rows: nat, grid: ProcessGrid, i: nat, k: nat)
    requires grid.Valid() && i < grid.side && k < grid.nodeSize
    ensures RowRange(rows, grid, i, k).firstRow + RowRange(rows, grid, i, k).rows <= Start(rows, grid.side, i + 1) <= rows
    ensures Start(rows, grid.side, i) <= RowRange(rows, grid, i, k).firstRow
  {
    BlockInside(rows, grid.side, i);
    BlockInside(Block(rows, grid.side, i).rows, grid.nodeSize, k);
  }

  /** Every row lies in the slice of exactly one pair (i, k). */
  lemma RowOwner(rows: nat, grid: ProcessGrid, row: nat) returns (i: nat, k: nat)
    requires grid.Valid() && row < rows
    ensures i < grid.side && k < grid.nodeSize
    ensures InRange(row, RowRange(rows, grid, i, k))
  {
    i := BlocksPartition(rows, grid.side, row);
    var coarse := Block(rows, grid.side, i);
    StartStep(rows, grid.side, i);
    k := BlocksPartition(coarse.rows, grid.nodeSize, row - coarse.firstRow);
    StartStep(coarse.rows, grid.nodeSize, k);
  }

  ghost predicate InRange(row: int, range: RowBlock) {
    range.firstRow <= row < range.firstRow + range.rows
  }

  lemma RowOwnerUnique(rows: nat, grid: ProcessGrid, row: int, i: nat, k: nat, i': nat, k': nat)
    requires grid.Valid() && i < grid.side && k < grid.nodeSize && i' < grid.side && k' < grid.nodeSize
    requires InRange(row, RowRange(rows, grid, i, k)) && InRange(row, RowRange(rows, grid, i', k'))
    ensures i == i' && k == k'
  {
    RowRangeInside(rows, grid, i, k);
    RowRangeInside(rows, grid, i', k');
    InOneBlock(rows, grid.side, i, i', row);
    var coarse := Block(rows, grid.side, i);
    StartStep(coarse.rows, grid.nodeSize, k);
    StartStep(coarse.rows, grid.nodeSize, k');
    InOneBlock(coarse.rows, grid.nodeSize, k, k', row - coarse.firstRow);
  }

  // ----- slicing

  ghost predicate Inside(m: CsrMatrix, rows: RowBlock) {
    rows.firstRow + rows.rows <= m.rows
  }

  ghost function SlicedBefore(m: CsrMatrix, block: MatrixBlock, n: nat): (rows: seq<Row>)
    requires Shaped(m) && Inside(m, block.rows) && n <= block.rows.rows
    ensures |rows| == n
    ensures forall r :: 0 <= r < n ==>
      rows[r] == SliceRow(RowOf(m, block.rows.firstRow + r), block.cols.firstRow, block.cols.rows)
  {
    if n == 0 then []
    else SlicedBefore(m, block, n - 1) +
         [SliceRow(RowOf(m, block.rows.firstRow + n - 1), block.cols.firstRow, block.cols.rows)]
  }

  ghost function SliceRowsOf(m: CsrMatrix, block: MatrixBlock): seq<Row>
    requires Shaped(m) && Inside(m, block.rows)
  {
    SlicedBefore(m, block, block.rows.rows)
  }

  ghost function SliceMatrix(m: CsrMatrix, block: MatrixBlock): CsrMatrix
    requires Shaped(m) && Inside(m, block.rows)
  {
    FromRows(block.cols.rows, SliceRowsOf(m, block))
  }

  lemma SliceMatrixRows(m: CsrMatrix, block: MatrixBlock)
    requires Shaped(m) && Inside(m, block.rows)
    ensures Valid(SliceMatrix(m, block))
    ensures SliceMatrix(m, block).rows == block.rows.rows && SliceMatrix(m, block).cols == block.cols.rows
    ensures Rows(SliceMatrix(m, block)) == SliceRowsOf(m, block)
  {
    var sliced := SliceRowsOf(m, block);
    forall r | 0 <= r < |sliced| ensures ColumnsBelow(sliced[r], block.cols.rows) {
      var row := RowOf(m, block.rows.firstRow + r);
      SliceColumns(row, block.cols.firstRow, block.cols.rows, |row|);
    }
    FromRowsValid(block.cols.rows, sliced);
  }

  /** One more entry is kept, with its column renumbered, or skipped. */
  lemma SliceOneMore(stored: Row, cols: RowBlock, n: nat)
    requires n < |stored|
    ensures var before, after := SliceBefore(stored, cols.firstRow, cols.rows, n), SliceBefore(stored, cols.firstRow, cols.rows, n + 1);
            var col := stored[n].column - cols.firstRow;
            if 0 <= col < cols.rows then
              Columns(after) == Columns(before) + [col] && Values(after) == Values(before) + [stored[n].value] && |after| == |before| + 1
            else after == before
  {
    ColumnsAppend(SliceBefore(stored, cols.firstRow, cols.rows, n), Kept(stored[n], cols.firstRow, cols.rows));
  }

  method AppendSlicedRow(m: CsrMatrix, row: nat, cols: RowBlock, columns0: seq<int>, values0: seq<Value>, ghost stored: Row)
    returns (columns: seq<int>, values: seq<Value>)
    requires Shaped(m) && row < m.rows && stored == RowOf(m, row)
    ensures columns == columns0 + Columns(SliceRow(stored, cols.firstRow, cols.rows))
    ensures values == values0 + Values(SliceRow(stored, cols.firstRow, cols.rows))
    ensures |values| == |values0| + |SliceRow(stored, cols.firstRow, cols.rows)|
  {
    hide RowOf, Columns, Values;
    columns, values := columns0, values0;
    var first, last := m.rowPtr[row], m.rowPtr[row + 1];
    RowExtent(m, row);
    NoEntries();
    for p := first to last
      invariant |values| == |values0| + |SliceBefore(stored, cols.firstRow, cols.rows, p - first)|
      invariant columns == columns0 + Columns(SliceBefore(stored, cols.firstRow, cols.rows, p - first))
      invariant values == values0 + Values(SliceBefore(stored, cols.firstRow, cols.rows, p - first))
    {
      RowOfAt(m, row, p);
      SliceOneMore(stored, cols, p - first);
      var col := m.columnIndices[p] - cols.firstRow;
      if col >= 0 && col < cols.rows {
        columns, values := columns + [col], values + [m.values[p]];
      }
    }
  }

  method SliceBlock(matrix: CsrMatrix, block: MatrixBlock) returns (result: CsrMatrix)
    requires Shaped(matrix) && Inside(matrix, block.rows)
    ensures result == SliceMatrix(matrix, block)
  {
    hide Hold, SliceRow, RowOf, Columns, Values;
    var rowPtr: seq<nat>, columns: seq<int>, values: seq<Value> := [0], [], [];
    ghost var sliced := SliceRowsOf(matrix, block);
    HoldNothing(sliced);
    var first := block.rows.firstRow;
    for row := first to first + block.rows.rows
      invariant Hold(rowPtr, columns, values, sliced, row - first)
    {
      assert sliced[row - first] == SliceRow(RowOf(matrix, row), block.cols.firstRow, block.cols.rows);
      HoldOneMore(rowPtr, columns, values, sliced, row - first);
      columns, values := AppendSlicedRow(matrix, row, block.cols, columns, values, RowOf(matrix, row));
      rowPtr := rowPtr + [|values|];
    }
    HoldIsFromRows(block.cols.rows, rowPtr, columns, values, sliced);
    result := CsrMatrix(block.rows.rows, block.cols.rows, rowPtr, columns, values);
  }

  // ----- distribution

  ghost predicate Earlier(i: int, j: int, k: int, i': int, j': int, k': int) {
    i < i' || (i == i' && (j < j' || (j == j' && k < k')))
  }

  ghost function Tile(m: CsrMatrix, grid: ProcessGrid, i: nat, j: nat, k: nat): CsrMatrix
    requires Shaped(m) && grid.Valid() && grid.Coordinates(i, j, k)
  {
    RowRangeInside(m.rows, grid, i, k);
    SliceMatrix(m, BlockAt(m.rows, m.cols, grid, i, j, k))
  }

  ghost predicate Distributed(locals: seq<CsrMatrix>, m: CsrMatrix, grid: ProcessGrid)
    requires Shaped(m) && grid.Valid()
  {
    && |locals| == |grid.coordinateRanks|
    && forall i: nat, j: nat, k: nat | grid.Coordinates(i, j, k) ::
         locals[grid.RankAt(i, j, k)] == Tile(m, grid, i, j, k)
  }

  ghost predicate DistributedBefore(locals: seq<CsrMatrix>, m: CsrMatrix, grid: ProcessGrid, i: nat, j: nat, k: nat)
    requires Shaped(m) && grid.Valid()
  {
    && |locals| == |grid.coordinateRanks|
    && forall i': nat, j': nat, k': nat | grid.Coordinates(i', j', k') && Earlier(i', j', k', i, j, k) ::
         locals[grid.RankAt(i', j', k')] == Tile(m, grid, i', j', k')
  }

  lemma OneMoreTile(locals: seq<CsrMatrix>, m: CsrMatrix, grid: ProcessGrid, i: nat, j: nat, k: nat)
    requires Shaped(m) && grid.Valid() && grid.Coordinates(i, j, k)
    requires DistributedBefore(locals, m, grid, i, j, k)
    ensures DistributedBefore(locals[grid.RankAt(i, j, k) := Tile(m, grid, i, j, k)], m, grid, i, j, k + 1)
  {
    var next := locals[grid.RankAt(i, j, k) := Tile(m, grid, i, j, k)];
    forall i': nat, j': nat, k': nat | grid.Coordinates(i', j', k') && Earlier(i', j', k', i, j, k + 1)
      ensures next[grid.RankAt(i', j', k')] == Tile(m, grid, i', j', k')
    {
      if grid.RankAt(i', j', k') == grid.RankAt(i, j, k) {
        grid.RankAtInjective(i', j', k', i, j, k);
      }
    }
  }

  /** The root cuts every tile and sends it to the rank at its coordinates; `locals` holds what
      each rank then owns. */
  method DistributeBlocks(matrix: CsrMatrix, grid: ProcessGrid) returns (locals: seq<CsrMatrix>)
    requires Shaped(matrix) && grid.Valid()
    ensures Distributed(locals, matrix, grid)
  {
    var empty := CsrMatrix(0, 0, [0], [], []);
    locals := seq(|grid.coordinateRanks|, _ => empty);
    for i := 0 to grid.side
      invariant DistributedBefore(locals, matrix, grid, i, 0, 0)
    {
      for j := 0 to grid.side
        invariant DistributedBefore(locals, matrix, grid, i, j, 0)
      {
        for k := 0 to grid.nodeSize
          invariant DistributedBefore(locals, matrix, grid, i, j, k)
        {
          var block := MatrixBlockAt(matrix.rows, matrix.cols, grid, i, j, k);
          RowRangeInside(matrix.rows, grid, i, k);
          var tile := SliceBlock(matrix, block);
          OneMoreTile(locals, matrix, grid, i, j, k);
          locals := locals[grid.RankAt(i, j, k) := tile];
        }
      }
    }
  }
}
