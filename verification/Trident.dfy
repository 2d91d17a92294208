/** The whole staged product: distribute, plan, run every rank, gather.  Its result is the
    serial product. */
module Trident {
  import opened Csr
  import opened Serial
  import opened Dense
  import opened Partition
  import opened Grid
  import opened Blocks
  import opened Stages
  import opened Assembly
  import opened Accumulator
  import opened Stagger
  import opened Execution

  lemma SlicedRow(m: CsrMatrix, block: MatrixBlock, r: nat)
    requires Shaped(m) && Inside(m, block.rows) && r < block.rows.rows
    ensures Valid(SliceMatrix(m, block)) && SliceMatrix(m, block).rows == block.rows.rows
    ensures RowOf(SliceMatrix(m, block), r) ==
            SliceRow(RowOf(m, block.rows.firstRow + r), block.cols.firstRow, block.cols.rows)
  {
    hide SliceRow, RowOf, Rows, SliceMatrix, Valid;
    SliceMatrixRows(m, block);
    RowsAt(SliceMatrix(m, block), r);
  }

  lemma TileRow(m: CsrMatrix, grid: ProcessGrid, i: nat, j: nat, k: nat, range: RowBlock, cols: RowBlock, r: nat)
    requires Shaped(m) && grid.Valid() && grid.Coordinates(i, j, k)
    requires range == RowRange(m.rows, grid, i, k) && cols == Block(m.cols, grid.side, j) && r < range.rows
    ensures Valid(Tile(m, grid, i, j, k))
    ensures Tile(m, grid, i, j, k).rows == range.rows
    ensures range.firstRow + r < m.rows
    ensures RowOf(Tile(m, grid, i, j, k), r) == SliceRow(RowOf(m, range.firstRow + r), cols.firstRow, cols.rows)
  {
    RowRangeInside(m.rows, grid, i, k);
    SlicedRow(m, MatrixBlock(range, cols), r);
  }

  lemma TileIsShaped(m: CsrMatrix, grid: ProcessGrid, i: nat, j: nat, k: nat)
    requires Shaped(m) && grid.Valid() && grid.Coordinates(i, j, k)
    ensures Valid(Tile(m, grid, i, j, k))
    ensures Tile(m, grid, i, j, k).rows == RowRange(m.rows, grid, i, k).rows
    ensures Tile(m, grid, i, j, k).cols == Block(m.cols, grid.side, j).rows
  {
    RowRangeInside(m.rows, grid, i, k);
    SliceMatrixRows(m, BlockAt(m.rows, m.cols, grid, i, j, k));
  }

  // ----- assembling the slices of a coarse tile gives the coarse tile

  ghost function NodeTiles(m: CsrMatrix, grid: ProcessGrid, h: nat, j: nat, n: nat): (tiles: seq<CsrMatrix>)
    requires Shaped(m) && grid.Valid() && h < grid.side && j < grid.side && n <= grid.nodeSize
    ensures |tiles| == n
  {
    if n == 0 then [] else NodeTiles(m, grid, h, j, n - 1) + [Tile(m, grid, h, j, n - 1)]
  }

  lemma {:induction false} NodeTilesAt(m: CsrMatrix, grid: ProcessGrid, h: nat, j: nat, n: nat, k: nat)
    requires Shaped(m) && grid.Valid() && h < grid.side && j < grid.side && k < n <= grid.nodeSize
    ensures NodeTiles(m, grid, h, j, n)[k] == Tile(m, grid, h, j, k)
    ensures Shaped(NodeTiles(m, grid, h, j, n)[k])
  {
    hide Tile;
    if k < n - 1 {
      NodeTilesAt(m, grid, h, j, n - 1, k);
    } else {
      TileIsShaped(m, grid, h, j, k);
    }
  }

  lemma {:induction false} PanelConcat(bRows: seq<Row>, first: nat, count: nat, more: nat, colFirst: nat, colCount: nat)
    requires first + count + more <= |bRows|
    ensures Panel(bRows, first, count + more, colFirst, colCount) ==
            Panel(bRows, first, count, colFirst, colCount) + Panel(bRows, first + count, more, colFirst, colCount)
  {
    if more > 0 {
      PanelConcat(bRows, first, count, more - 1, colFirst, colCount);
    }
  }

  lemma SliceIsPanel(m: CsrMatrix, block: MatrixBlock)
    requires Shaped(m) && Inside(m, block.rows)
    ensures Valid(SliceMatrix(m, block))
    ensures Rows(SliceMatrix(m, block)) ==
            Panel(Rows(m), block.rows.firstRow, block.rows.rows, block.cols.firstRow, block.cols.rows)
  {
    SliceMatrixRows(m, block);
    forall r | 0 <= r < block.rows.rows
      ensures SliceRowsOf(m, block)[r] ==
              Panel(Rows(m), block.rows.firstRow, block.rows.rows, block.cols.firstRow, block.cols.rows)[r]
    {
      RowsAt(m, block.rows.firstRow + r);
      PanelAt(Rows(m), block.rows.firstRow, block.rows.rows, block.cols.firstRow, block.cols.rows, r);
    }
  }

  /** Slice k holds rows offsets[k] up to offsets[k + 1] of the panel that begins at `first`. */
  ghost predicate PanelPiece(tile: CsrMatrix, bRows: seq<Row>, first: nat, lo: nat, hi: nat, cols: RowBlock) {
    lo <= hi && first + hi <= |bRows| && SliceRows(tile) == Panel(bRows, first + lo, hi - lo, cols.firstRow, cols.rows)
  }

  /** Consecutive panels, one after another, are one panel. */
  lemma {:induction false} ConcatPanels(tiles: seq<CsrMatrix>, offsets: seq<nat>, bRows: seq<Row>, first: nat,
                                        cols: RowBlock, n: nat)
    requires n <= |tiles| && |offsets| == |tiles| + 1 && offsets[0] == 0 && first <= |bRows|
    requires forall k :: 0 <= k < |tiles| ==> PanelPiece(tiles[k], bRows, first, offsets[k], offsets[k + 1], cols)
    ensures first + offsets[n] <= |bRows|
    ensures ConcatBefore(tiles, n) == Panel(bRows, first, offsets[n], cols.firstRow, cols.rows)
  {
    hide Panel, SliceRows;
    if n > 0 {
      ConcatPanels(tiles, offsets, bRows, first, cols, n - 1);
      assert PanelPiece(tiles[n - 1], bRows, first, offsets[n - 1], offsets[n], cols);
      PanelConcat(bRows, first, offsets[n - 1], offsets[n] - offsets[n - 1], cols.firstRow, cols.rows);
    }
  }

  ghost function Starts(total: nat, parts: nat, n: nat): (starts: seq<nat>)
    requires parts > 0
    ensures |starts| == n + 1 && forall k :: 0 <= k <= n ==> starts[k] == Start(total, parts, k)
  {
    if n == 0 then [0] else Starts(total, parts, n - 1) + [Start(total, parts, n)]
  }

  lemma NodeTileIsPanel(m: CsrMatrix, grid: ProcessGrid, h: nat, j: nat, k: nat, coarse: RowBlock, cols: RowBlock)
    requires Shaped(m) && grid.Valid() && grid.Coordinates(h, j, k)
    requires coarse == Block(m.rows, grid.side, h) && cols == Block(m.cols, grid.side, j)
    ensures PanelPiece(Tile(m, grid, h, j, k), Rows(m), coarse.firstRow,
                       Start(coarse.rows, grid.nodeSize, k), Start(coarse.rows, grid.nodeSize, k + 1), cols)
  {
    hide Start, Valid, Panel, Rows, SliceMatrix, RowRange, Tile, BlockRows;
    BlockInside(m.rows, grid.side, h);
    BlockInside(coarse.rows, grid.nodeSize, k);
    RowRangeInside(m.rows, grid, h, k);
    RangeOfSlice(m.rows, grid, h, k, coarse);
    TileIsSlice(m, grid, h, j, k, cols);
    SliceIsPanel(m, MatrixBlock(RowRange(m.rows, grid, h, k), cols));
    TileIsShaped(m, grid, h, j, k);
    ShapedRows(Tile(m, grid, h, j, k));
  }

  lemma TileIsSlice(m: CsrMatrix, grid: ProcessGrid, h: nat, j: nat, k: nat, cols: RowBlock)
    requires Shaped(m) && grid.Valid() && grid.Coordinates(h, j, k) && cols == Block(m.cols, grid.side, j)
    ensures Inside(m, RowRange(m.rows, grid, h, k))
    ensures Tile(m, grid, h, j, k) == SliceMatrix(m, MatrixBlock(RowRange(m.rows, grid, h, k), cols))
  {
    RowRangeInside(m.rows, grid, h, k);
  }

  lemma RangeOfSlice(rows: nat, grid: ProcessGrid, h: nat, k: nat, coarse: RowBlock)
    requires grid.Valid() && coarse == Block(rows, grid.side, h)
    ensures var range := RowRange(rows, grid, h, k);
            && range.firstRow == coarse.firstRow + Start(coarse.rows, grid.nodeSize, k)
            && range.firstRow + range.rows == coarse.firstRow + Start(coarse.rows, grid.nodeSize, k + 1)
  {
    StartStep(coarse.rows, grid.nodeSize, k);
  }

  lemma ShapedRows(tile: CsrMatrix)
    requires Valid(tile)
    ensures Shaped(tile) && SliceRows(tile) == Rows(tile)
  {
  }

  /** The row slices of a node, put together, are the coarse tile cut directly from the matrix. */
  lemma AssembledNodeIsCoarseTile(m: CsrMatrix, grid: ProcessGrid, h: nat, j: nat, coarse: RowBlock, cols: RowBlock,
                                  tiles: seq<CsrMatrix>)
    requires Shaped(m) && grid.Valid() && h < grid.side && j < grid.side
    requires coarse == Block(m.rows, grid.side, h) && cols == Block(m.cols, grid.side, j)
    requires tiles == NodeTiles(m, grid, h, j, grid.nodeSize)
    ensures coarse.firstRow + coarse.rows <= m.rows
    ensures FromRows(cols.rows, ConcatBefore(tiles, grid.nodeSize)) == SliceMatrix(m, MatrixBlock(coarse, cols))
  {
    BlockInside(m.rows, grid.side, h);
    var offsets := Starts(coarse.rows, grid.nodeSize, grid.nodeSize);
    forall k | 0 <= k < grid.nodeSize
      ensures PanelPiece(tiles[k], Rows(m), coarse.firstRow, offsets[k], offsets[k + 1], cols)
    {
      NodeTilesAt(m, grid, h, j, grid.nodeSize, k);
      NodeTileIsPanel(m, grid, h, j, k, coarse, cols);
    }
    ConcatPanels(tiles, offsets, Rows(m), coarse.firstRow, cols, grid.nodeSize);
    StartEnds(coarse.rows, grid.nodeSize);
    SliceIsPanel(m, MatrixBlock(coarse, cols));
    SliceMatrixRows(m, MatrixBlock(coarse, cols));
  }

  // ----- what one stage adds

  ghost predicate Multipliable(a: CsrMatrix, b: CsrMatrix) {
    Valid(a) && Valid(b) && a.cols == b.rows
  }

  /** Stage h adds to cell (r, c) of C(i, j, k) exactly block h's share of the dense product. */
  lemma StageShare(a: CsrMatrix, b: CsrMatrix, grid: ProcessGrid, i: nat, j: nat, k: nat, h: nat,
                   range: RowBlock, inner: RowBlock, cols: RowBlock, r: nat, c: nat)
    requires Multipliable(a, b) && grid.Valid() && grid.Coordinates(i, j, k) && h < grid.side
    requires range == RowRange(a.rows, grid, i, k) && inner == Block(a.cols, grid.side, h)
    requires inner.firstRow + inner.rows <= b.rows && r < range.rows && c < cols.rows
    ensures Valid(Tile(a, grid, i, h, k)) && Tile(a, grid, i, h, k).rows == range.rows
    ensures range.firstRow + r < a.rows
    ensures Dot(RowOf(Tile(a, grid, i, h, k), r),
                Panel(Rows(b), inner.firstRow, inner.rows, cols.firstRow, cols.rows), c) ==
            DotWindow(RowOf(a, range.firstRow + r), Rows(b), cols.firstRow + c,
                      inner.firstRow, inner.firstRow + inner.rows)
  {
    TileRow(a, grid, i, h, k, range, inner, r);
    ShareOfSlice(RowOf(a, range.firstRow + r), Rows(b), inner, cols, c);
  }

  lemma ShareOfSlice(aRow: Row, bRows: seq<Row>, inner: RowBlock, cols: RowBlock, c: nat)
    requires inner.firstRow + inner.rows <= |bRows| && c < cols.rows
    ensures Dot(SliceRow(aRow, inner.firstRow, inner.rows),
                Panel(bRows, inner.firstRow, inner.rows, cols.firstRow, cols.rows), c) ==
            DotWindow(aRow, bRows, cols.firstRow + c, inner.firstRow, inner.firstRow + inner.rows)
  {
    SlicedDot(aRow, bRows, inner.firstRow, inner.rows, cols.firstRow, cols.rows, c, |aRow|);
  }

  // ----- the plan of distributed tiles is free of shape errors

  ghost predicate Announced(shapes: seq<RankShapes>, aTiles: seq<CsrMatrix>, bTiles: seq<CsrMatrix>) {
    && |shapes| == |aTiles| == |bTiles|
    && forall rank :: 0 <= rank < |shapes| ==> shapes[rank] == RankShapes(ShapeOf(aTiles[rank]), ShapeOf(bTiles[rank]))
  }

  /** What the rank at (i, j, k) announces for tiles cut by distributeBlocks. */
  lemma AnnouncedAt(a: CsrMatrix, b: CsrMatrix, grid: ProcessGrid, aTiles: seq<CsrMatrix>, bTiles: seq<CsrMatrix>,
                    shapes: seq<RankShapes>, i: nat, j: nat, k: nat)
    requires Multipliable(a, b) && grid.Valid() && grid.Coordinates(i, j, k)
    requires Distributed(aTiles, a, grid) && Distributed(bTiles, b, grid) && Announced(shapes, aTiles, bTiles)
    ensures var shape := shapes[grid.RankAt(i, j, k)];
            && shape.a == ShapeOf(Tile(a, grid, i, j, k)) && shape.b == ShapeOf(Tile(b, grid, i, j, k))
            && shape.a.rows == RowRange(a.rows, grid, i, k).rows && shape.a.cols == Block(a.cols, grid.side, j).rows
            && shape.b.rows == RowRange(b.rows, grid, i, k).rows && shape.b.cols == Block(b.cols, grid.side, j).rows
  {
    TileIsShaped(a, grid, i, j, k);
    TileIsShaped(b, grid, i, j, k);
  }

  lemma {:induction false} RowsOfShapesAreStarts(peers: seq<TileShape>, total: nat, n: nat)
    requires n <= |peers| && |peers| > 0
    requires forall k :: 0 <= k < |peers| ==> peers[k].rows == BlockRows(total, |peers|, k)
    ensures RowsOfShapes(peers, n) == Start(total, |peers|, n)
  {
    if n > 0 {
      RowsOfShapesAreStarts(peers, total, n - 1);
    }
  }

  /** A node's B slices together have the rows of its coarse block. */
  lemma PanelRowsAreBlockRows(a: CsrMatrix, b: CsrMatrix, grid: ProcessGrid, aTiles: seq<CsrMatrix>, bTiles: seq<CsrMatrix>,
                              shapes: seq<RankShapes>, h: nat, j: nat)
    requires Multipliable(a, b) && grid.Valid() && h < grid.side && j < grid.side
    requires Distributed(aTiles, a, grid) && Distributed(bTiles, b, grid) && Announced(shapes, aTiles, bTiles)
    ensures PanelRows(shapes, grid, h, j, grid.nodeSize) == Block(b.rows, grid.side, h).rows
  {
    var peers, total := NodeShapes(shapes, grid, h, j, grid.nodeSize), Block(b.rows, grid.side, h).rows;
    forall k | 0 <= k < grid.nodeSize ensures peers[k].rows == BlockRows(total, grid.nodeSize, k) {
      AnnouncedAt(a, b, grid, aTiles, bTiles, shapes, h, j, k);
    }
    PanelRowsOfNode(shapes, grid, h, j, grid.nodeSize);
    RowsOfShapesAreStarts(peers, total, grid.nodeSize);
    StartEnds(total, grid.nodeSize);
  }

  /** Neither shape error of preparePlan can fire for tiles cut by distributeBlocks. */
  lemma DistributedTilesAreConsistent(a: CsrMatrix, b: CsrMatrix, grid: ProcessGrid,
                                      aTiles: seq<CsrMatrix>, bTiles: seq<CsrMatrix>,
                                      shapes: seq<RankShapes>, i: nat, j: nat, k: nat)
    requires Multipliable(a, b) && grid.Valid() && grid.Coordinates(i, j, k)
    requires Distributed(aTiles, a, grid) && Distributed(bTiles, b, grid) && Announced(shapes, aTiles, bTiles)
    ensures Consistent(shapes, grid, i, j, k)
  {
    AnnouncedAt(a, b, grid, aTiles, bTiles, shapes, i, j, k);
    forall h: nat | h < grid.side ensures InnerConsistent(shapes, grid, i, j, k, h) {
      AnnouncedAt(a, b, grid, aTiles, bTiles, shapes, i, h, k);
      PanelRowsAreBlockRows(a, b, grid, aTiles, bTiles, shapes, h, j);
      forall l | 0 <= l < grid.nodeSize
        ensures shapes[grid.RankAt(h, j, l)].b.cols == shapes[grid.RankAt(i, j, k)].b.cols
      {
        AnnouncedAt(a, b, grid, aTiles, bTiles, shapes, h, j, l);
      }
    }
  }

  // ----- one rank

  /** Row g of the product, restricted to the columns of a tile. */
  ghost function TileProductRow(a: CsrMatrix, b: CsrMatrix, g: nat, cols: RowBlock): Row
    requires Shaped(a) && Shaped(b) && g < a.rows
  {
    NonzeroCells(From(DotRow(RowOf(a, g), Rows(b)), cols.firstRow), cols.rows)
  }

  ghost function TileProductRows(a: CsrMatrix, b: CsrMatrix, range: RowBlock, cols: RowBlock, n: nat): (rows: seq<Row>)
    requires Shaped(a) && Shaped(b) && range.firstRow + n <= a.rows
    ensures |rows| == n
  {
    if n == 0 then []
    else TileProductRows(a, b, range, cols, n - 1) + [TileProductRow(a, b, range.firstRow + n - 1, cols)]
  }

  lemma {:induction false} TileProductRowsAt(a: CsrMatrix, b: CsrMatrix, range: RowBlock, cols: RowBlock, n: nat, r: nat)
    requires Shaped(a) && Shaped(b) && range.firstRow + n <= a.rows && r < n
    ensures TileProductRows(a, b, range, cols, n)[r] == TileProductRow(a, b, range.firstRow + r, cols)
  {
    if r < n - 1 {
      TileProductRowsAt(a, b, range, cols, n - 1, r);
    }
  }

  /** What cell (r, c) holds after some rounds. */
  ghost function CellAfter(aRow: Row, bRows: seq<Row>, c: int, total: nat, side: nat, start: nat, rounds: nat): int
    requires side > 0
  {
    RoundSum(Shares(aRow, bRows, c, total, side), start, side, rounds)
  }

  /** The cells of one row of a tile after some rounds. */
  ghost predicate RowAccumulated(cells: map<int, int>, aRow: Row, bRows: seq<Row>, cols: RowBlock,
                                 total: nat, side: nat, start: nat, rounds: nat)
    requires side > 0
  {
    forall c :: 0 <= c < cols.rows ==>
      Lookup(cells, c) == CellAfter(aRow, bRows, cols.firstRow + c, total, side, start, rounds)
  }

  ghost predicate Accumulated(cells: seq<map<int, int>>, a: CsrMatrix, b: CsrMatrix, range: RowBlock, cols: RowBlock,
                              side: nat, start: nat, rounds: nat)
    requires Shaped(a) && Shaped(b) && side > 0 && |cells| == range.rows && range.firstRow + range.rows <= a.rows
  {
    forall r :: 0 <= r < range.rows ==>
      RowAccumulated(cells[r], RowOf(a, range.firstRow + r), Rows(b), cols, a.cols, side, start, rounds)
  }

  lemma FinishedTileRow(cells: map<int, int>, aRow: Row, bRows: seq<Row>, cols: RowBlock, total: nat, side: nat, start: nat)
    requires side > 0 && ColumnsBelow(aRow, total)
    requires RowAccumulated(cells, aRow, bRows, cols, total, side, start, side)
    ensures Collect(cells, 0, cols.rows) == NonzeroCells(From(DotRow(aRow, bRows), cols.firstRow), cols.rows)
  {
    var f := From(DotRow(aRow, bRows), cols.firstRow);
    forall c | 0 <= c < cols.rows ensures Lookup(cells, c) == f(c) {
      RoundsSumToDot(aRow, bRows, cols.firstRow + c, total, side, start);
    }
    CollectIsNonzeroCells(cells, f, cols.rows);
  }

  /** After all rounds the finished tile is the tile of the dense product. */
  lemma FinishedTile(cells: seq<map<int, int>>, a: CsrMatrix, b: CsrMatrix, range: RowBlock, cols: RowBlock,
                     side: nat, start: nat)
    requires Multipliable(a, b) && side > 0 && |cells| == range.rows && range.firstRow + range.rows <= a.rows
    requires Accumulated(cells, a, b, range, cols, side, start, side)
    ensures CollectRows(cells, cols.rows) == TileProductRows(a, b, range, cols, range.rows)
  {
    forall r | 0 <= r < range.rows
      ensures CollectRows(cells, cols.rows)[r] == TileProductRows(a, b, range, cols, range.rows)[r]
    {
      TileProductRowsAt(a, b, range, cols, range.rows, r);
      FinishedTileRow(cells[r], RowOf(a, range.firstRow + r), Rows(b), cols, a.cols, side, start);
    }
  }

  /** Stage h of the rank at (i, j, k): its A tile against the assembled panel gives block h's shares. */
  lemma StageRow(a: CsrMatrix, b: CsrMatrix, grid: ProcessGrid, i: nat, j: nat, k: nat, h: nat,
                 range: RowBlock, cols: RowBlock, panel: CsrMatrix, r: nat, c: nat)
    requires Multipliable(a, b) && grid.Valid() && grid.Coordinates(i, j, k) && h < grid.side
    requires range == RowRange(a.rows, grid, i, k) && cols == Block(b.cols, grid.side, j)
    requires Shaped(panel) && IsCoarseTile(panel, b, Block(b.rows, grid.side, h), cols)
    requires r < range.rows && c < cols.rows
    ensures Valid(Tile(a, grid, i, h, k)) && Tile(a, grid, i, h, k).rows == range.rows && range.firstRow + r < a.rows
    ensures Dot(RowOf(Tile(a, grid, i, h, k), r), Rows(panel), c) ==
            BlockShare(RowOf(a, range.firstRow + r), Rows(b), cols.firstRow + c, a.cols, grid.side, h)
  {
    hide Dot, DotWindow, Panel, Tile, Rows, RowRange, RowOf;
    var inner := Block(b.rows, grid.side, h);
    BlockInside(b.rows, grid.side, h);
    StageShare(a, b, grid, i, j, k, h, range, inner, cols, r, c);
  }

  ghost predicate IsCoarseTile(panel: CsrMatrix, b: CsrMatrix, inner: RowBlock, cols: RowBlock)
    requires Shaped(panel) && Shaped(b)
  {
    && panel.rows == inner.rows && panel.cols == cols.rows && inner.firstRow + inner.rows <= b.rows
    && Rows(panel) == Panel(Rows(b), inner.firstRow, inner.rows, cols.firstRow, cols.rows)
  }

  /** The slices a node assembles for inner index h make the coarse tile B(h, j). */
  lemma PanelIsCoarseTile(b: CsrMatrix, grid: ProcessGrid, h: nat, j: nat, received: seq<CsrMatrix>, panel: CsrMatrix)
    requires Valid(b) && grid.Valid() && h < grid.side && j < grid.side
    requires received == NodeTiles(b, grid, h, j, grid.nodeSize)
    requires panel == FromRows(Block(b.cols, grid.side, j).rows, ConcatBefore(received, |received|))
    ensures Valid(panel) && IsCoarseTile(panel, b, Block(b.rows, grid.side, h), Block(b.cols, grid.side, j))
  {
    var inner, cols := Block(b.rows, grid.side, h), Block(b.cols, grid.side, j);
    AssembledNodeIsCoarseTile(b, grid, h, j, inner, cols, received);
    SliceIsPanel(b, MatrixBlock(inner, cols));
    SliceMatrixRows(b, MatrixBlock(inner, cols));
  }

  /** Collects what the ranks of a node fetched in one stage. */
  method NodeSlices(bTiles: seq<CsrMatrix>, grid: ProcessGrid, h: nat, j: nat, ghost b: CsrMatrix)
    returns (received: seq<CsrMatrix>)
    requires Valid(b) && grid.Valid() && Distributed(bTiles, b, grid) && h < grid.side && j < grid.side
    ensures received == NodeTiles(b, grid, h, j, grid.nodeSize)
  {
    received := [];
    for k := 0 to grid.nodeSize
      invariant received == NodeTiles(b, grid, h, j, k)
    {
      received := received + [bTiles[grid.RankAt(h, j, k)]];
    }
  }

  lemma SlicesArePlanned(b: CsrMatrix, grid: ProcessGrid, j: nat, aTiles: seq<CsrMatrix>, bTiles: seq<CsrMatrix>,
                         shapes: seq<RankShapes>, stage: Stage, received: seq<CsrMatrix>)
    requires Valid(b) && grid.Valid() && j < grid.side && |shapes| == |grid.coordinateRanks|
    requires Distributed(bTiles, b, grid) && Announced(shapes, aTiles, bTiles)
    requires PanelPlanned(stage, shapes, grid, j) && received == NodeTiles(b, grid, stage.inner, j, grid.nodeSize)
    ensures Planned(stage, received)
  {
    forall k | 0 <= k < grid.nodeSize
      ensures Shaped(received[k]) && received[k].rows == stage.rowCounts[k] && |received[k].values| == stage.nnzCounts[k]
    {
      NodeTilesAt(b, grid, stage.inner, j, grid.nodeSize, k);
    }
  }

  /** A row of cells after one partial product. */
  ghost predicate RowAdded(before: map<int, int>, after: map<int, int>, aRow: Row, bRows: seq<Row>) {
    forall c :: Lookup(after, c) == Lookup(before, c) + Dot(aRow, bRows, c)
  }

  /** A row of an A tile against the panel gives block h's shares of a row of the dense product. */
  ghost predicate GivesShares(tileRow: Row, panelRows: seq<Row>, aRow: Row, bRows: seq<Row>, cols: RowBlock,
                              total: nat, side: nat, h: nat)
    requires side > 0
  {
    forall c :: 0 <= c < cols.rows ==>
      Dot(tileRow, panelRows, c) == BlockShare(aRow, bRows, cols.firstRow + c, total, side, h)
  }

  lemma AccumulatedRowOnce(before: map<int, int>, after: map<int, int>, tileRow: Row, panelRows: seq<Row>,
                           aRow: Row, bRows: seq<Row>, cols: RowBlock, total: nat, side: nat, start: nat, round: nat)
    requires side > 0 && RowAccumulated(before, aRow, bRows, cols, total, side, start, round)
    requires GivesShares(tileRow, panelRows, aRow, bRows, cols, total, side, (start + round) % side)
    requires RowAdded(before, after, tileRow, panelRows)
    ensures RowAccumulated(after, aRow, bRows, cols, total, side, start, round + 1)
  {
  }

  lemma StageGivesShares(a: CsrMatrix, b: CsrMatrix, grid: ProcessGrid, i: nat, j: nat, k: nat, h: nat,
                         range: RowBlock, cols: RowBlock, panel: CsrMatrix, r: nat)
    requires Multipliable(a, b) && grid.Valid() && grid.Coordinates(i, j, k) && h < grid.side
    requires range == RowRange(a.rows, grid, i, k) && cols == Block(b.cols, grid.side, j)
    requires Shaped(panel) && IsCoarseTile(panel, b, Block(b.rows, grid.side, h), cols) && r < range.rows
    ensures Valid(Tile(a, grid, i, h, k)) && Tile(a, grid, i, h, k).rows == range.rows && range.firstRow + r < a.rows
    ensures GivesShares(RowOf(Tile(a, grid, i, h, k), r), Rows(panel), RowOf(a, range.firstRow + r), Rows(b), cols,
                        a.cols, grid.side, h)
  {
    TileIsShaped(a, grid, i, h, k);
    RowRangeInside(a.rows, grid, i, k);
    forall c: nat | c < cols.rows
      ensures Dot(RowOf(Tile(a, grid, i, h, k), r), Rows(panel), c) ==
              BlockShare(RowOf(a, range.firstRow + r), Rows(b), cols.firstRow + c, a.cols, grid.side, h)
    {
      StageRow(a, b, grid, i, j, k, h, range, cols, panel, r, c);
    }
  }

  /** One more stage: every cell has received one more block's share. */
  lemma AccumulatedOnce(before: seq<map<int, int>>, after: seq<map<int, int>>, a: CsrMatrix, b: CsrMatrix,
                        grid: ProcessGrid, i: nat, j: nat, k: nat, round: nat, h: nat,
                        range: RowBlock, cols: RowBlock, aTile: CsrMatrix, panel: CsrMatrix)
    requires Multipliable(a, b) && grid.Valid() && grid.Coordinates(i, j, k) && h == Inner(i, j, round, grid.side) < grid.side
    requires range == RowRange(a.rows, grid, i, k) && cols == Block(b.cols, grid.side, j)
    requires |before| == |after| == range.rows && range.firstRow + range.rows <= a.rows
    requires Shaped(panel) && IsCoarseTile(panel, b, Block(b.rows, grid.side, h), cols)
    requires aTile == Tile(a, grid, i, h, k) && Valid(aTile) && aTile.rows == range.rows
    requires Accumulated(before, a, b, range, cols, grid.side, i + j, round)
    requires forall r :: 0 <= r < range.rows ==> RowAdded(before[r], after[r], RowOf(aTile, r), Rows(panel))
    ensures Accumulated(after, a, b, range, cols, grid.side, i + j, round + 1)
  {
    hide RowAccumulated, GivesShares, RowAdded, Tile, RowRange, Block, IsCoarseTile, Rows;
    forall r: nat | r < range.rows
      ensures RowAccumulated(after[r], RowOf(a, range.firstRow + r), Rows(b), cols, a.cols, grid.side, i + j, round + 1)
    {
      StageGivesShares(a, b, grid, i, j, k, h, range, cols, panel, r);
      AccumulatedRowOnce(before[r], after[r], RowOf(aTile, r), Rows(panel), RowOf(a, range.firstRow + r), Rows(b),
                         cols, a.cols, grid.side, i + j, round);
    }
  }

  lemma NothingAccumulated(cells: seq<map<int, int>>, a: CsrMatrix, b: CsrMatrix, range: RowBlock, cols: RowBlock,
                           side: nat, start: nat)
    requires Multipliable(a, b) && side > 0 && |cells| == range.rows && range.firstRow + range.rows <= a.rows
    requires forall r, c :: 0 <= r < range.rows ==> Lookup(cells[r], c) == 0
    ensures Accumulated(cells, a, b, range, cols, side, start, 0)
  {
  }
}
