/** gatherBlocks: the root puts the tiles of all ranks back into one matrix. */
module Gather {
  import opened Csr
  import opened Partition
  import opened Grid
  import opened Blocks
  import opened Stagger

  ghost predicate Received(tiles: seq<CsrMatrix>, grid: ProcessGrid) {
    |tiles| == |grid.coordinateRanks| && forall rank :: 0 <= rank < |tiles| ==> Shaped(tiles[rank])
  }

  ghost predicate Fits(tile: CsrMatrix, rows: nat, cols: nat, grid: ProcessGrid, i: nat, j: nat, k: nat)
    requires grid.Valid()
  {
    tile.rows == RowRange(rows, grid, i, k).rows && tile.cols == Block(cols, grid.side, j).rows
  }

  ghost predicate AllFit(tiles: seq<CsrMatrix>, rows: nat, cols: nat, grid: ProcessGrid)
    requires grid.Valid() && Received(tiles, grid)
  {
    forall i: nat, j: nat, k: nat | grid.Coordinates(i, j, k) ::
      Fits(tiles[grid.RankAt(i, j, k)], rows, cols, grid, i, j, k)
  }

  ghost predicate FitBefore(tiles: seq<CsrMatrix>, rows: nat, cols: nat, grid: ProcessGrid, i: nat, j: nat, k: nat)
    requires grid.Valid() && Received(tiles, grid)
  {
    forall i': nat, j': nat, k': nat | grid.Coordinates(i', j', k') && Earlier(i', j', k', i, j, k) ::
      Fits(tiles[grid.RankAt(i', j', k')], rows, cols, grid, i', j', k')
  }

  ghost function TileRowAt(tile: CsrMatrix, r: nat): Row {
    if Shaped(tile) && r < tile.rows then RowOf(tile, r) else []
  }

  /** The tiles of the ranks (i, 0, k), (i, 1, k), ... */
  ghost function RowTiles(tiles: seq<CsrMatrix>, grid: ProcessGrid, i: nat, k: nat, n: nat): (peers: seq<CsrMatrix>)
    requires grid.Valid() && Received(tiles, grid) && i < grid.side && k < grid.nodeSize && n <= grid.side
    ensures |peers| == n && forall j :: 0 <= j < n ==> peers[j] == tiles[grid.RankAt(i, j, k)]
  {
    if n == 0 then [] else RowTiles(tiles, grid, i, k, n - 1) + [tiles[grid.RankAt(i, n - 1, k)]]
  }

  /** Row r of the first n column tiles, with global columns, side by side. */
  ghost function SideBySide(peers: seq<CsrMatrix>, cols: nat, side: nat, r: nat, n: nat): Row
    requires side > 0 && n <= |peers|
  {
    if n == 0 then []
    else SideBySide(peers, cols, side, r, n - 1) + Shift(TileRowAt(peers[n - 1], r), Start(cols, side, n - 1))
  }

  /** The row of the whole matrix that is row r of slice (i, k). */
  ghost function RowIndex(rows: nat, grid: ProcessGrid, i: nat, k: nat, r: nat): nat
    requires grid.Valid()
  {
    RowRange(rows, grid, i, k).firstRow + r
  }

  /** How many column tiles of slice (i', k') come before tile (i, j, k) in the root's order. */
  ghost function Done(i: nat, j: nat, k: nat, i': nat, k': nat, side: nat): nat {
    if i' < i then side else if i' > i then 0 else if k' < k then j + 1 else j
  }

  ghost predicate GatheredTo(entries: seq<Row>, tiles: seq<CsrMatrix>, cols: nat, grid: ProcessGrid, i: nat, j: nat, k: nat)
    requires grid.Valid() && Received(tiles, grid)
  {
    forall i': nat, k': nat, r: nat | i' < grid.side && k' < grid.nodeSize && r < RowRange(|entries|, grid, i', k').rows ::
      RowGathered(entries, tiles, cols, grid, i, j, k, i', k', r)
  }

  /** Row r of slice (i', k') consists of the column tiles that come before tile (i, j, k). */
  ghost predicate RowGathered(entries: seq<Row>, tiles: seq<CsrMatrix>, cols: nat, grid: ProcessGrid,
                              i: nat, j: nat, k: nat, i': nat, k': nat, r: nat)
    requires grid.Valid() && Received(tiles, grid) && i' < grid.side && k' < grid.nodeSize
  {
    var g, done := RowIndex(|entries|, grid, i', k', r), Done(i, j, k, i', k', grid.side);
    g < |entries| && done <= grid.side ==>
      entries[g] == SideBySide(RowTiles(tiles, grid, i', k', grid.side), cols, grid.side, r, done)
  }

  method AppendShifted(row0: Row, tile: CsrMatrix, r: nat, distance: nat, ghost stored: Row) returns (row: Row)
    requires Shaped(tile) && r < tile.rows && stored == RowOf(tile, r)
    ensures row == row0 + Shift(stored, distance)
  {
    row := row0;
    var first, last := tile.rowPtr[r], tile.rowPtr[r + 1];
    for p := first to last
      invariant row == row0 + ShiftBefore(stored, distance, p - first)
    {
      RowOfAt(tile, r, p);
      row := row + [Entry(distance + tile.columnIndices[p], tile.values[p])];
    }
  }

  method AppendTile(entries0: seq<Row>, tile: CsrMatrix, first: nat, distance: nat) returns (entries: seq<Row>)
    requires Shaped(tile) && first + tile.rows <= |entries0|
    ensures |entries| == |entries0|
    ensures forall g :: 0 <= g < |entries| ==>
      entries[g] == if InRange(g, RowBlock(first, tile.rows))
                    then entries0[g] + Shift(TileRowAt(tile, g - first), distance) else entries0[g]
  {
    entries := entries0;
    for r := 0 to tile.rows
      invariant |entries| == |entries0|
      invariant forall g :: 0 <= g < |entries| ==>
        entries[g] == if first <= g < first + r then entries0[g] + Shift(TileRowAt(tile, g - first), distance) else entries0[g]
    {
      var row := AppendShifted(entries[first + r], tile, r, distance, RowOf(tile, r));
      entries := entries[first + r := row];
    }
  }

  lemma SliceOfRow(rows: nat, grid: ProcessGrid, i: nat, k: nat, range: RowBlock, i': nat, k': nat, r: nat, g: nat)
    requires grid.Valid() && i < grid.side && k < grid.nodeSize && i' < grid.side && k' < grid.nodeSize
    requires range == RowRange(rows, grid, i, k)
    requires r < RowRange(rows, grid, i', k').rows && g == RowIndex(rows, grid, i', k', r)
    ensures InRange(g, range) <==> i == i' && k == k'
    ensures InRange(g, range) ==> g - range.firstRow == r
  {
    assert InRange(g, RowRange(rows, grid, i', k'));
    if InRange(g, range) {
      RowOwnerUnique(rows, grid, g, i, k, i', k');
    }
  }

  /** Row r of slice (i', k') after tile (i, j, k): one tile longer if the slice is the tile's, else as before. */
  lemma GatherRowStep(before: Row, after: Row, tiles: seq<CsrMatrix>, cols: nat, grid: ProcessGrid,
                      i: nat, j: nat, k: nat, i': nat, k': nat, r: nat)
    requires grid.Valid() && Received(tiles, grid) && grid.Coordinates(i, j, k)
    requires i' < grid.side && k' < grid.nodeSize
    requires before == SideBySide(RowTiles(tiles, grid, i', k', grid.side), cols, grid.side, r, Done(i, j, k, i', k', grid.side))
    requires after == if i == i' && k == k'
                      then before + Shift(TileRowAt(tiles[grid.RankAt(i, j, k)], r), Start(cols, grid.side, j))
                      else before
    ensures after == SideBySide(RowTiles(tiles, grid, i', k', grid.side), cols, grid.side, r, Done(i, j, k + 1, i', k', grid.side))
  {
    if i == i' && k == k' {
      assert Done(i, j, k + 1, i', k', grid.side) == j + 1 && Done(i, j, k, i', k', grid.side) == j;
    } else {
      assert Done(i, j, k + 1, i', k', grid.side) == Done(i, j, k, i', k', grid.side);
    }
  }

  /** Appending tile (i, j, k) takes every row of the root one tile further. */
  lemma GatherStep(before: seq<Row>, after: seq<Row>, tiles: seq<CsrMatrix>, rows: nat, cols: nat, grid: ProcessGrid,
                   i: nat, j: nat, k: nat, range: RowBlock, tile: CsrMatrix)
    requires grid.Valid() && Received(tiles, grid) && grid.Coordinates(i, j, k)
    requires |before| == |after| == rows && range == RowRange(rows, grid, i, k)
    requires tile == tiles[grid.RankAt(i, j, k)] && tile.rows == range.rows
    requires GatheredTo(before, tiles, cols, grid, i, j, k)
    requires forall g :: 0 <= g < rows ==>
      after[g] == if InRange(g, range) then before[g] + Shift(TileRowAt(tile, g - range.firstRow), Start(cols, grid.side, j))
                  else before[g]
    ensures GatheredTo(after, tiles, cols, grid, i, j, k + 1)
  {
    hide RowGathered, TileRowAt, Shift, Start;
    var next := k + 1;
    forall i': nat, k': nat, r: nat | i' < grid.side && k' < grid.nodeSize && r < RowRange(rows, grid, i', k').rows
      ensures RowGathered(after, tiles, cols, grid, i, j, next, i', k', r)
    {
      assert RowGathered(before, tiles, cols, grid, i, j, k, i', k', r);
      RowTaken(before, after, tiles, rows, cols, grid, i, j, k, range, tile, i', k', r);
    }
  }

  lemma RowTaken(before: seq<Row>, after: seq<Row>, tiles: seq<CsrMatrix>, rows: nat, cols: nat, grid: ProcessGrid,
                 i: nat, j: nat, k: nat, range: RowBlock, tile: CsrMatrix, i': nat, k': nat, r: nat)
    requires grid.Valid() && Received(tiles, grid) && grid.Coordinates(i, j, k) && i' < grid.side && k' < grid.nodeSize
    requires |before| == |after| == rows && range == RowRange(rows, grid, i, k) && r < RowRange(rows, grid, i', k').rows
    requires tile == tiles[grid.RankAt(i, j, k)]
    requires var g := RowIndex(rows, grid, i', k', r);
             g < rows ==> after[g] == (if InRange(g, range) then before[g] + Shift(TileRowAt(tile, g - range.firstRow), Start(cols, grid.side, j))
                                       else before[g])
    requires RowGathered(before, tiles, cols, grid, i, j, k, i', k', r)
    ensures RowGathered(after, tiles, cols, grid, i, j, k + 1, i', k', r)
  {
    hide Received, RowTiles, SideBySide, TileRowAt, Shift, Start, RowRange, InRange;
    var g := RowIndex(rows, grid, i', k', r);
    SliceOfRow(rows, grid, i, k, range, i', k', r, g);
    if g < rows && Done(i, j, k + 1, i', k', grid.side) <= grid.side {
      GatherRowStep(before[g], after[g], tiles, cols, grid, i, j, k, i', k', r);
    }
  }

  lemma NothingGathered(entries: seq<Row>, tiles: seq<CsrMatrix>, cols: nat, grid: ProcessGrid)
    requires grid.Valid() && Received(tiles, grid) && forall g :: 0 <= g < |entries| ==> entries[g] == []
    ensures GatheredTo(entries, tiles, cols, grid, 0, 0, 0)
  {
  }

  /** Where as many column tiles are done, the same rows are gathered. */
  lemma SameDone(entries: seq<Row>, tiles: seq<CsrMatrix>, cols: nat, grid: ProcessGrid,
                 i: nat, j: nat, k: nat, u: nat, v: nat, w: nat)
    requires grid.Valid() && Received(tiles, grid) && GatheredTo(entries, tiles, cols, grid, i, j, k)
    requires forall i': nat, k': nat :: k' < grid.nodeSize ==> Done(i, j, k, i', k', grid.side) == Done(u, v, w, i', k', grid.side)
    ensures GatheredTo(entries, tiles, cols, grid, u, v, w)
  {
    hide SideBySide, RowTiles, Received, Done, RowRange, RowIndex;
    forall i': nat, k': nat, r: nat | i' < grid.side && k' < grid.nodeSize && r < RowRange(|entries|, grid, i', k').rows
      ensures RowGathered(entries, tiles, cols, grid, u, v, w, i', k', r)
    {
      assert RowGathered(entries, tiles, cols, grid, i, j, k, i', k', r);
    }
  }

  /** The end of a node is the start of the next. */
  lemma NextNode(entries: seq<Row>, tiles: seq<CsrMatrix>, rows: nat, cols: nat, grid: ProcessGrid, i: nat, j: nat)
    requires grid.Valid() && Received(tiles, grid) && j < grid.side
    requires GatheredTo(entries, tiles, cols, grid, i, j, grid.nodeSize)
    requires FitBefore(tiles, rows, cols, grid, i, j, grid.nodeSize)
    ensures GatheredTo(entries, tiles, cols, grid, i, j + 1, 0)
    ensures FitBefore(tiles, rows, cols, grid, i, j + 1, 0)
  {
    hide GatheredTo, Fits;
    SameDone(entries, tiles, cols, grid, i, j, grid.nodeSize, i, j + 1, 0);
  }

  lemma NextNodeRow(entries: seq<Row>, tiles: seq<CsrMatrix>, rows: nat, cols: nat, grid: ProcessGrid, i: nat)
    requires grid.Valid() && Received(tiles, grid)
    requires GatheredTo(entries, tiles, cols, grid, i, grid.side, 0)
    requires FitBefore(tiles, rows, cols, grid, i, grid.side, 0)
    ensures GatheredTo(entries, tiles, cols, grid, i + 1, 0, 0)
    ensures FitBefore(tiles, rows, cols, grid, i + 1, 0, 0)
  {
    hide GatheredTo, Fits;
    SameDone(entries, tiles, cols, grid, i, grid.side, 0, i + 1, 0, 0);
  }

  lemma OneMoreFits(tiles: seq<CsrMatrix>, rows: nat, cols: nat, grid: ProcessGrid, i: nat, j: nat, k: nat)
    requires grid.Valid() && Received(tiles, grid) && grid.Coordinates(i, j, k)
    requires FitBefore(tiles, rows, cols, grid, i, j, k) && Fits(tiles[grid.RankAt(i, j, k)], rows, cols, grid, i, j, k)
    ensures FitBefore(tiles, rows, cols, grid, i, j, k + 1)
  {
  }

  /** A gathered matrix: every row is the rows of its column tiles, side by side and sorted. */
  ghost predicate IsGathered(m: CsrMatrix, tiles: seq<CsrMatrix>, rows: nat, cols: nat, grid: ProcessGrid)
    requires grid.Valid() && Received(tiles, grid)
  {
    && Shaped(m) && m.rows == rows && m.cols == cols
    && forall i: nat, k: nat, r: nat ::
         i < grid.side && k < grid.nodeSize && r < RowRange(rows, grid, i, k).rows && RowIndex(rows, grid, i, k, r) < rows ==>
         RowOf(m, RowIndex(rows, grid, i, k, r)) ==
         SortPairs(SideBySide(RowTiles(tiles, grid, i, k, grid.side), cols, grid.side, r, grid.side))
  }

  ghost function SortedBefore(entries: seq<Row>, n: nat): (sorted: seq<Row>)
    requires n <= |entries|
    ensures |sorted| == n && forall g :: 0 <= g < n ==> sorted[g] == SortPairs(entries[g])
  {
    if n == 0 then [] else SortedBefore(entries, n - 1) + [SortPairs(entries[n - 1])]
  }

  method AppendRow(row: Row, columns0: seq<int>, values0: seq<Value>) returns (columns: seq<int>, values: seq<Value>)
    ensures columns == columns0 + Columns(row) && values == values0 + Values(row)
  {
    columns, values := columns0, values0;
    for n := 0 to |row|
      invariant columns == columns0 + ColumnsBefore(row, n) && values == values0 + ValuesBefore(row, n)
    {
      columns, values := columns + [row[n].column], values + [row[n].value];
    }
  }

  method AppendSorted(entries: Row, columns0: seq<int>, values0: seq<Value>, ghost sorted: Row)
    returns (columns: seq<int>, values: seq<Value>)
    requires sorted == SortPairs(entries)
    ensures columns == columns0 + Columns(sorted) && values == values0 + Values(sorted)
    ensures |values| == |values0| + |sorted|
  {
    columns, values := AppendRow(SortPairs(entries), columns0, values0);
  }

  method SortRows(entries: seq<Row>, cols: nat) returns (result: CsrMatrix)
    ensures result == FromRows(cols, SortedBefore(entries, |entries|))
  {
    hide Hold, SortPairs, FromRows, Columns, Values;
    HoldNothing(SortedBefore(entries, |entries|));
    var rowPtr: seq<nat>, columns: seq<int>, values: seq<Value> := [0], [], [];
    ghost var sorted := SortedBefore(entries, |entries|);
    for g := 0 to |entries|
      invariant Hold(rowPtr, columns, values, sorted, g)
    {
      HoldOneMore(rowPtr, columns, values, sorted, g);
      columns, values := AppendSorted(entries[g], columns, values, sorted[g]);
      rowPtr := rowPtr + [|values|];
    }
    HoldIsFromRows(cols, rowPtr, columns, values, sorted);
    result := CsrMatrix(|entries|, cols, rowPtr, columns, values);
  }

  lemma FromRowsShape(cols: nat, rows: seq<Row>)
    ensures Shaped(FromRows(cols, rows)) && FromRows(cols, rows).rows == |rows| && FromRows(cols, rows).cols == cols
  {
    FromRowsShaped(cols, rows);
  }

  lemma SortedIsGathered(entries: seq<Row>, tiles: seq<CsrMatrix>, rows: nat, cols: nat, grid: ProcessGrid)
    requires grid.Valid() && Received(tiles, grid) && |entries| == rows
    requires GatheredTo(entries, tiles, cols, grid, grid.side, 0, 0)
    ensures IsGathered(FromRows(cols, SortedBefore(entries, rows)), tiles, rows, cols, grid)
  {
    hide SideBySide, RowTiles, FromRows, Received, SortPairs, RowOf;
    var sorted := SortedBefore(entries, rows);
    FromRowsShape(cols, sorted);
    forall i: nat, k: nat, r: nat |
      i < grid.side && k < grid.nodeSize && r < RowRange(rows, grid, i, k).rows && RowIndex(rows, grid, i, k, r) < rows
      ensures RowOf(FromRows(cols, sorted), RowIndex(rows, grid, i, k, r)) ==
              SortPairs(SideBySide(RowTiles(tiles, grid, i, k, grid.side), cols, grid.side, r, grid.side))
    {
      assert RowGathered(entries, tiles, cols, grid, grid.side, 0, 0, i, k, r);
      FromRowsRow(cols, sorted, RowIndex(rows, grid, i, k, r));
    }
  }

  lemma OneUnfit(tiles: seq<CsrMatrix>, rows: nat, cols: nat, grid: ProcessGrid, i: nat, j: nat, k: nat)
    requires grid.Valid() && Received(tiles, grid) && grid.Coordinates(i, j, k)
    requires !Fits(tiles[grid.RankAt(i, j, k)], rows, cols, grid, i, j, k)
    ensures !AllFit(tiles, rows, cols, grid)
  {
    hide Fits;
  }

  method GatherTile(entries0: seq<Row>, tiles: seq<CsrMatrix>, rows: nat, cols: nat, grid: ProcessGrid, i: nat, j: nat, k: nat)
    returns (outcome: Result<seq<Row>>)
    requires grid.Valid() && Received(tiles, grid) && grid.Coordinates(i, j, k)
    requires |entries0| == rows && GatheredTo(entries0, tiles, cols, grid, i, j, k)
    requires FitBefore(tiles, rows, cols, grid, i, j, k)
    ensures outcome.Error? ==> !AllFit(tiles, rows, cols, grid)
    ensures outcome.Ok? ==> |outcome.value| == rows && GatheredTo(outcome.value, tiles, cols, grid, i, j, k + 1)
    ensures outcome.Ok? ==> FitBefore(tiles, rows, cols, grid, i, j, k + 1)
  {
    hide GatheredTo, FitBefore, AllFit, Start, BlockRows, RowRange, TileRowAt, Shift;
    var block := MatrixBlockAt(rows, cols, grid, i, j, k);
    var tile := tiles[grid.RankAt(i, j, k)];
    if tile.rows != block.rows.rows || tile.cols != block.cols.rows {
      OneUnfit(tiles, rows, cols, grid, i, j, k);
      return Error("unexpected Trident result block shape");
    }
    RowRangeInside(rows, grid, i, k);
    var entries := AppendTile(entries0, tile, block.rows.firstRow, block.cols.firstRow);
    GatherStep(entries0, entries, tiles, rows, cols, grid, i, j, k, block.rows, tile);
    OneMoreFits(tiles, rows, cols, grid, i, j, k);
    outcome := Ok(entries);
  }

  method GatherNode(entries0: seq<Row>, tiles: seq<CsrMatrix>, rows: nat, cols: nat, grid: ProcessGrid, i: nat, j: nat)
    returns (outcome: Result<seq<Row>>)
    requires grid.Valid() && Received(tiles, grid) && i < grid.side && j < grid.side
    requires |entries0| == rows && GatheredTo(entries0, tiles, cols, grid, i, j, 0)
    requires FitBefore(tiles, rows, cols, grid, i, j, 0)
    ensures outcome.Error? ==> !AllFit(tiles, rows, cols, grid)
    ensures outcome.Ok? ==> |outcome.value| == rows && GatheredTo(outcome.value, tiles, cols, grid, i, j + 1, 0)
    ensures outcome.Ok? ==> FitBefore(tiles, rows, cols, grid, i, j + 1, 0)
  {
    var entries := entries0;
    for k := 0 to grid.nodeSize
      invariant |entries| == rows && GatheredTo(entries, tiles, cols, grid, i, j, k)
      invariant FitBefore(tiles, rows, cols, grid, i, j, k)
    {
      outcome := GatherTile(entries, tiles, rows, cols, grid, i, j, k);
      if outcome.Error? {
        return;
      }
      entries := outcome.value;
    }
    NextNode(entries, tiles, rows, cols, grid, i, j);
    outcome := Ok(entries);
  }

  /** The root receives the tile of every rank, tile by tile in the order of its loops. */
  method GatherBlocks(tiles: seq<CsrMatrix>, rows: nat, cols: nat, grid: ProcessGrid) returns (result: Result<CsrMatrix>)
    requires grid.Valid() && Received(tiles, grid)
    ensures result.Ok? <==> AllFit(tiles, rows, cols, grid)
    ensures result.Ok? ==> IsGathered(result.value, tiles, rows, cols, grid)
  {
    hide GatheredTo, IsGathered, Received, Fits;
    var entries: seq<Row> := seq(rows, _ => []);
    NothingGathered(entries, tiles, cols, grid);
    for i := 0 to grid.side
      invariant |entries| == rows && GatheredTo(entries, tiles, cols, grid, i, 0, 0)
      invariant FitBefore(tiles, rows, cols, grid, i, 0, 0)
    {
      for j := 0 to grid.side
        invariant |entries| == rows && GatheredTo(entries, tiles, cols, grid, i, j, 0)
        invariant FitBefore(tiles, rows, cols, grid, i, j, 0)
      {
        var outcome := GatherNode(entries, tiles, rows, cols, grid, i, j);
        if outcome.Error? {
          return Error(outcome.message);
        }
        entries := outcome.value;
      }
      NextNodeRow(entries, tiles, rows, cols, grid, i);
    }
    SortedIsGathered(entries, tiles, rows, cols, grid);
    var gathered := SortRows(entries, cols);
    result := Ok(gathered);
  }
}
