/** multiply and gatherBlocks: every rank runs its stages, the root collects the tiles. */
module Product {
  import opened Csr
  import opened Serial
  import opened Dense
  import opened Partition
  import opened Grid
  import opened Blocks
  import opened Stages
  import opened Assembly
  import opened Accumulator
  import opened Stagger
  import opened Execution
  import opened Trident
  import opened Gather
  import opened Work
  import opened Workload

  /** Within a stage every rank of the node holds its slice of B(h, j); the node assembles the panel. */
  method AssembleStage(panel: PanelBuffer, stage: Stage, bTiles: seq<CsrMatrix>, grid: ProcessGrid, j: nat, k: nat,
                       ghost b: CsrMatrix, ghost aTiles: seq<CsrMatrix>, ghost shapes: seq<RankShapes>)
    returns (assembled: CsrMatrix)
    requires Valid(b) && grid.Valid() && j < grid.side && k < grid.nodeSize && |shapes| == |grid.coordinateRanks|
    requires Distributed(bTiles, b, grid) && Announced(shapes, aTiles, bTiles)
    requires PanelPlanned(stage, shapes, grid, j) && stage.panel.cols == Block(b.cols, grid.side, j).rows
    modifies panel
    ensures Valid(assembled)
    ensures IsCoarseTile(assembled, b, Block(b.rows, grid.side, stage.inner), Block(b.cols, grid.side, j))
  {
    var received := NodeSlices(bTiles, grid, stage.inner, j, b);
    SlicesArePlanned(b, grid, j, aTiles, bTiles, shapes, stage, received);
    panel.Assemble(received[k], stage, k, received);
    assembled := CsrMatrix(panel.rows, panel.cols, panel.rowPtr, panel.columnIndices, panel.values);
    PanelIsCoarseTile(b, grid, stage.inner, j, received, assembled);
  }

  /** addProduct accepts tiles of matching shapes and adds their product to every row of cells. */
  method AddStage(accumulator: LocalAccumulator, a: CsrMatrix, b: CsrMatrix) returns (ghost made: nat)
    requires accumulator.Valid() && Valid(a) && Valid(b)
    requires a.cols == b.rows && a.rows == |accumulator.rows_| && b.cols == accumulator.cols_
    modifies accumulator
    ensures accumulator.Valid() && |accumulator.rows_| == old(|accumulator.rows_|)
    ensures forall r :: 0 <= r < a.rows ==> RowAdded(old(accumulator.rows_)[r], accumulator.rows_[r], RowOf(a, r), Rows(b))
    ensures made == ProductWork(Rows(a), Rows(b), a.rows)
  {
    ghost var before := accumulator.rows_;
    var outcome;
    outcome, made := accumulator.AddProduct(a, b);
    assert outcome.Ok?;
    forall r, c | 0 <= r < a.rows
      ensures Lookup(accumulator.rows_[r], c) == Lookup(before[r], c) + Dot(RowOf(a, r), Rows(b), c)
    {
      assert accumulator.Cell(r, c) == old(accumulator.Cell(r, c)) + Dot(RowOf(a, r), Rows(b), c);
    }
  }

  /** One stage: the transport has delivered A(i, h, k) and, on every rank of the node, its slice
      of B(h, j); the node assembles the panel and the rank accumulates the partial product. */
  method MultiplyStage(accumulator: LocalAccumulator, panel: PanelBuffer, stage: Stage,
                       aTiles: seq<CsrMatrix>, bTiles: seq<CsrMatrix>, grid: ProcessGrid, i: nat, j: nat, k: nat, round: nat,
                       ghost a: CsrMatrix, ghost b: CsrMatrix, ghost shapes: seq<RankShapes>,
                       ghost range: RowBlock, ghost cols: RowBlock)
    returns (ghost made: nat)
    requires Multipliable(a, b) && grid.Valid() && grid.Coordinates(i, j, k)
    requires Distributed(aTiles, a, grid) && Distributed(bTiles, b, grid) && Announced(shapes, aTiles, bTiles)
    requires range == RowRange(a.rows, grid, i, k) && cols == Block(b.cols, grid.side, j)
    requires range.firstRow + range.rows <= a.rows
    requires StagePlanned(stage, round, shapes, grid, i, j, k)
    requires accumulator.Valid() && accumulator.cols_ == cols.rows && |accumulator.rows_| == range.rows
    requires Accumulated(accumulator.rows_, a, b, range, cols, grid.side, i + j, round)
    modifies accumulator, panel
    ensures accumulator.Valid() && |accumulator.rows_| == range.rows
    ensures Accumulated(accumulator.rows_, a, b, range, cols, grid.side, i + j, round + 1)
    ensures made == StageTotal(a, b, range, cols, grid.side, range.rows, Inner(i, j, round, grid.side))
  {
    var h := stage.inner;
    AnnouncedAt(a, b, grid, aTiles, bTiles, shapes, i, j, k);
    var assembled := AssembleStage(panel, stage, bTiles, grid, j, k, b, aTiles, shapes);
    TileIsShaped(a, grid, i, h, k);
    var aTile := aTiles[stage.aSource];
    ghost var before := accumulator.rows_;
    made := AddStage(accumulator, aTile, assembled);
    StageMade(a, b, grid, i, j, k, h, range, cols, aTile, assembled);
    AccumulatedOnce(before, accumulator.rows_, a, b, grid, i, j, k, round, h, range, cols, aTile, assembled);
  }

  /** Tile (i, j, k) of the product of a and b. */
  ghost function ProductTile(a: CsrMatrix, b: CsrMatrix, grid: ProcessGrid, i: nat, j: nat, k: nat): CsrMatrix
    requires Shaped(a) && Shaped(b) && grid.Valid() && grid.Coordinates(i, j, k)
  {
    RowRangeInside(a.rows, grid, i, k);
    var range, cols := RowRange(a.rows, grid, i, k), Block(b.cols, grid.side, j);
    FromRows(cols.rows, TileProductRows(a, b, range, cols, range.rows))
  }

  ghost predicate PlanOf(plan: ExecutionPlan, shapes: seq<RankShapes>, grid: ProcessGrid, i: nat, j: nat, k: nat)
    requires grid.Valid() && |shapes| == |grid.coordinateRanks| && grid.Coordinates(i, j, k)
  {
    && plan.resultRows == shapes[grid.RankAt(i, j, k)].a.rows
    && plan.resultCols == shapes[grid.RankAt(i, j, k)].b.cols
    && |plan.stages| == grid.side
    && forall round :: 0 <= round < grid.side ==> StagePlanned(plan.stages[round], round, shapes, grid, i, j, k)
  }

  method EmptyAccumulator(rows: nat, columns: nat, ghost a: CsrMatrix, ghost b: CsrMatrix, ghost range: RowBlock,
                          ghost cols: RowBlock, ghost side: nat, ghost start: nat)
    returns (accumulator: LocalAccumulator)
    requires Multipliable(a, b) && side > 0 && rows == range.rows && columns == cols.rows
    requires range.firstRow + range.rows <= a.rows
    ensures fresh(accumulator) && accumulator.Valid() && accumulator.cols_ == cols.rows && |accumulator.rows_| == range.rows
    ensures Accumulated(accumulator.rows_, a, b, range, cols, side, start, 0)
  {
    accumulator := new LocalAccumulator(rows, columns);
    forall r, c | 0 <= r < range.rows ensures Lookup(accumulator.rows_[r], c) == 0 {
      assert accumulator.Cell(r, c) == 0;
    }
    NothingAccumulated(accumulator.rows_, a, b, range, cols, side, start);
  }

  method RunStages(accumulator: LocalAccumulator, panel: PanelBuffer, stages: seq<Stage>,
                   aTiles: seq<CsrMatrix>, bTiles: seq<CsrMatrix>, grid: ProcessGrid, i: nat, j: nat, k: nat,
                   ghost a: CsrMatrix, ghost b: CsrMatrix, ghost shapes: seq<RankShapes>,
                   ghost range: RowBlock, ghost cols: RowBlock)
    returns (ghost made: nat)
    requires Multipliable(a, b) && grid.Valid() && grid.Coordinates(i, j, k)
    requires Distributed(aTiles, a, grid) && Distributed(bTiles, b, grid) && Announced(shapes, aTiles, bTiles)
    requires range == RowRange(a.rows, grid, i, k) && cols == Block(b.cols, grid.side, j)
    requires range.firstRow + range.rows <= a.rows && |stages| == grid.side
    requires forall round :: 0 <= round < grid.side ==> StagePlanned(stages[round], round, shapes, grid, i, j, k)
    requires accumulator.Valid() && accumulator.cols_ == cols.rows && |accumulator.rows_| == range.rows
    requires Accumulated(accumulator.rows_, a, b, range, cols, grid.side, i + j, 0)
    modifies accumulator, panel
    ensures accumulator.Valid() && |accumulator.rows_| == range.rows
    ensures Accumulated(accumulator.rows_, a, b, range, cols, grid.side, i + j, grid.side)
    ensures made == RoundsTotal(a, b, range, cols, grid.side, range.rows, i + j, grid.side)
  {
    hide Accumulated, StagePlanned, RoundsTotal, StageTotal, RowRange, Distributed;
    made := 0;
    NoRounds(a, b, range, cols, grid.side, range.rows, i + j);
    for round := 0 to |stages|
      invariant accumulator.Valid() && |accumulator.rows_| == range.rows
      invariant Accumulated(accumulator.rows_, a, b, range, cols, grid.side, i + j, round)
      invariant made == RoundsTotal(a, b, range, cols, grid.side, range.rows, i + j, round)
    {
      ghost var count := MultiplyStage(accumulator, panel, stages[round], aTiles, bTiles, grid, i, j, k, round, a, b, shapes, range, cols);
      OneMoreRound(a, b, range, cols, grid.side, range.rows, i + j, round);
      made := made + count;
    }
  }

  /** The run of one rank: all its stages, in the order of its plan.  It makes exactly the multiplications
      that scalarProductsByRank counts for it. */
  method MultiplyRank(plan: ExecutionPlan, aTiles: seq<CsrMatrix>, bTiles: seq<CsrMatrix>,
                      grid: ProcessGrid, i: nat, j: nat, k: nat,
                      ghost a: CsrMatrix, ghost b: CsrMatrix, ghost shapes: seq<RankShapes>)
    returns (result: CsrMatrix, ghost made: nat)
    requires Multipliable(a, b) && grid.Valid() && grid.Coordinates(i, j, k)
    requires Distributed(aTiles, a, grid) && Distributed(bTiles, b, grid) && Announced(shapes, aTiles, bTiles)
    requires PlanOf(plan, shapes, grid, i, j, k)
    ensures result == ProductTile(a, b, grid, i, j, k) && made == RankWork(a, b, grid, i, j, k)
  {
    AnnouncedAt(a, b, grid, aTiles, bTiles, shapes, i, j, k);
    RowRangeInside(a.rows, grid, i, k);
    ghost var range, cols := RowRange(a.rows, grid, i, k), Block(b.cols, grid.side, j);
    var accumulator := EmptyAccumulator(plan.resultRows, plan.resultCols, a, b, range, cols, grid.side, i + j);
    var panel := new PanelBuffer();
    made := RunStages(accumulator, panel, plan.stages, aTiles, bTiles, grid, i, j, k, a, b, shapes, range, cols);
    FinishedTile(accumulator.rows_, a, b, range, cols, grid.side, i + j);
    AllRoundsMakeRankWork(a, b, grid, i, j, k);
    result := accumulator.Finish();
  }

  // ----- all ranks

  ghost predicate Computed(tiles: seq<CsrMatrix>, a: CsrMatrix, b: CsrMatrix, grid: ProcessGrid)
    requires Shaped(a) && Shaped(b) && grid.Valid()
  {
    && |tiles| == |grid.coordinateRanks|
    && forall i: nat, j: nat, k: nat | grid.Coordinates(i, j, k) ::
         tiles[grid.RankAt(i, j, k)] == ProductTile(a, b, grid, i, j, k)
  }

  lemma RowOfProductRows(a: CsrMatrix, b: CsrMatrix, range: RowBlock, cols: RowBlock, r: nat)
    requires Shaped(a) && Shaped(b) && range.firstRow + range.rows <= a.rows && r < range.rows
    ensures TileRowAt(FromRows(cols.rows, TileProductRows(a, b, range, cols, range.rows)), r) ==
            TileProductRow(a, b, range.firstRow + r, cols)
  {
    var rows := TileProductRows(a, b, range, cols, range.rows);
    FromRowsShaped(cols.rows, rows);
    FromRowsRow(cols.rows, rows, r);
    TileProductRowsAt(a, b, range, cols, range.rows, r);
  }

  /** Row r of a product tile is row g of the dense product on the tile's columns. */
  lemma ProductTileRow(a: CsrMatrix, b: CsrMatrix, grid: ProcessGrid, i: nat, j: nat, k: nat, r: nat, g: nat)
    requires Shaped(a) && Shaped(b) && grid.Valid() && grid.Coordinates(i, j, k)
    requires r < RowRange(a.rows, grid, i, k).rows && g == RowIndex(a.rows, grid, i, k, r) < a.rows
    ensures TileRowAt(ProductTile(a, b, grid, i, j, k), r) ==
            NonzeroCells(From(DotRow(RowOf(a, g), Rows(b)), Start(b.cols, grid.side, j)), BlockRows(b.cols, grid.side, j))
  {
    RowRangeInside(a.rows, grid, i, k);
    RowOfProductRows(a, b, RowRange(a.rows, grid, i, k), Block(b.cols, grid.side, j), r);
  }

  /** In row r, column tile j holds the nonzero values of f on its columns. */
  ghost predicate TileHolds(tile: CsrMatrix, cols: nat, side: nat, j: nat, r: nat, f: int -> int)
    requires side > 0
  {
    TileRowAt(tile, r) == NonzeroCells(From(f, Start(cols, side, j)), BlockRows(cols, side, j))
  }

  lemma PrefixStep(tile: CsrMatrix, cols: nat, side: nat, j: nat, r: nat, f: int -> int, prefix: Row, start: nat)
    requires side > 0 && TileHolds(tile, cols, side, j, r, f)
    requires start == Start(cols, side, j) && prefix == NonzeroCells(f, start)
    ensures prefix + Shift(TileRowAt(tile, r), start) == NonzeroCells(f, Start(cols, side, j + 1))
  {
    NonzeroCellsSplit(f, start, BlockRows(cols, side, j));
  }

  /** The first n column tiles of a row, side by side, are the nonzero cells of its first columns. */
  lemma {:induction false} SideBySideIsPrefix(peers: seq<CsrMatrix>, cols: nat, side: nat, r: nat, f: int -> int, n: nat, start: nat)
    requires side > 0 && n <= |peers| && start == Start(cols, side, n)
    requires forall j :: 0 <= j < |peers| ==> TileHolds(peers[j], cols, side, j, r, f)
    ensures SideBySide(peers, cols, side, r, n) == NonzeroCells(f, start)
  {
    if n > 0 {
      var before := Start(cols, side, n - 1);
      SideBySideIsPrefix(peers, cols, side, r, f, n - 1, before);
      PrefixStep(peers[n - 1], cols, side, n - 1, r, f, SideBySide(peers, cols, side, r, n - 1), before);
    }
  }

  /** A row gathered from the product tiles is the row of the serial product. */
  lemma GatheredRowIsSerial(tiles: seq<CsrMatrix>, a: CsrMatrix, b: CsrMatrix, grid: ProcessGrid, g: nat, m: CsrMatrix)
    requires Shaped(a) && Shaped(b) && grid.Valid() && Received(tiles, grid) && Computed(tiles, a, b, grid) && g < a.rows
    requires IsGathered(m, tiles, a.rows, b.cols, grid)
    ensures RowOf(m, g) == SerialRow(Integers, RowOf(a, g), Rows(b), b.cols)
  {
    var i, k := RowOwner(a.rows, grid, g);
    var r := g - RowRange(a.rows, grid, i, k).firstRow;
    var f := DotRow(RowOf(a, g), Rows(b));
    assert RowIndex(a.rows, grid, i, k, r) == g;
    var peers := RowTiles(tiles, grid, i, k, grid.side);
    forall j | 0 <= j < grid.side ensures TileHolds(peers[j], b.cols, grid.side, j, r, f) {
      ProductTileRow(a, b, grid, i, j, k, r, g);
    }
    StartEnds(b.cols, grid.side);
    SideBySideIsPrefix(peers, b.cols, grid.side, r, f, grid.side, b.cols);
    NonzeroCellsSorted(f, b.cols);
    SortSorted(NonzeroCells(f, b.cols));
    SerialRowIsDense(RowOf(a, g), Rows(b), b.cols);
  }

  /** Gathering the tiles of the staged product gives the serial product. */
  lemma GatheredIsSerial(tiles: seq<CsrMatrix>, a: CsrMatrix, b: CsrMatrix, grid: ProcessGrid, m: CsrMatrix)
    requires Shaped(a) && Shaped(b) && grid.Valid() && Received(tiles, grid) && Computed(tiles, a, b, grid)
    requires IsGathered(m, tiles, a.rows, b.cols, grid)
    ensures m == SerialProduct(Integers, a, b)
  {
    var rows := SerialRows(Integers, a, b);
    RowsOfFromRows(b.cols, rows);
    forall g | 0 <= g < a.rows ensures Rows(m)[g] == rows[g] {
      RowsAt(m, g);
      SerialRowsAt(Integers, a, b, a.rows, g);
      GatheredRowIsSerial(tiles, a, b, grid, g, m);
    }
    EqualRowsEqualMatrices(m, SerialProduct(Integers, a, b));
  }

  lemma ProductTilesFit(tiles: seq<CsrMatrix>, a: CsrMatrix, b: CsrMatrix, grid: ProcessGrid)
    requires Shaped(a) && Shaped(b) && grid.Valid() && Computed(tiles, a, b, grid)
    ensures Received(tiles, grid) && AllFit(tiles, a.rows, b.cols, grid)
  {
    forall rank | 0 <= rank < |tiles| ensures Shaped(tiles[rank]) {
      var i, j, k := grid.RankHasCoordinates(rank);
      RowRangeInside(a.rows, grid, i, k);
      var range, cols := RowRange(a.rows, grid, i, k), Block(b.cols, grid.side, j);
      FromRowsShaped(cols.rows, TileProductRows(a, b, range, cols, range.rows));
    }
  }

  ghost predicate ComputedBefore(tiles: seq<CsrMatrix>, a: CsrMatrix, b: CsrMatrix, grid: ProcessGrid, i: nat, j: nat, k: nat)
    requires Shaped(a) && Shaped(b) && grid.Valid()
  {
    && |tiles| == |grid.coordinateRanks|
    && forall i': nat, j': nat, k': nat | grid.Coordinates(i', j', k') && Earlier(i', j', k', i, j, k) ::
         tiles[grid.RankAt(i', j', k')] == ProductTile(a, b, grid, i', j', k')
  }

  lemma OneMoreProduct(tiles: seq<CsrMatrix>, a: CsrMatrix, b: CsrMatrix, grid: ProcessGrid, i: nat, j: nat, k: nat)
    requires Shaped(a) && Shaped(b) && grid.Valid() && grid.Coordinates(i, j, k)
    requires ComputedBefore(tiles, a, b, grid, i, j, k)
    ensures ComputedBefore(tiles[grid.RankAt(i, j, k) := ProductTile(a, b, grid, i, j, k)], a, b, grid, i, j, k + 1)
  {
    var next := tiles[grid.RankAt(i, j, k) := ProductTile(a, b, grid, i, j, k)];
    forall i': nat, j': nat, k': nat | grid.Coordinates(i', j', k') && Earlier(i', j', k', i, j, k + 1)
      ensures next[grid.RankAt(i', j', k')] == ProductTile(a, b, grid, i', j', k')
    {
      if grid.RankAt(i', j', k') == grid.RankAt(i, j, k) {
        grid.RankAtInjective(i', j', k', i, j, k);
      }
    }
  }

  /** The all-gather of the tile shapes. */
  method AnnounceShapes(aTiles: seq<CsrMatrix>, bTiles: seq<CsrMatrix>) returns (shapes: seq<RankShapes>)
    requires |aTiles| == |bTiles|
    ensures Announced(shapes, aTiles, bTiles)
  {
    shapes := [];
    for rank := 0 to |aTiles|
      invariant |shapes| == rank
      invariant forall r :: 0 <= r < rank ==> shapes[r] == RankShapes(ShapeOf(aTiles[r]), ShapeOf(bTiles[r]))
    {
      var a, b := aTiles[rank], bTiles[rank];
      shapes := shapes + [RankShapes(TileShape(a.rows, a.cols, |a.values|), TileShape(b.rows, b.cols, |b.values|))];
    }
  }

  /** Plans and runs the rank at (i, j, k). */
  method PlanAndMultiply(shapes: seq<RankShapes>, aTiles: seq<CsrMatrix>, bTiles: seq<CsrMatrix>,
                         grid: ProcessGrid, i: nat, j: nat, k: nat, ghost a: CsrMatrix, ghost b: CsrMatrix)
    returns (tile: CsrMatrix)
    requires Multipliable(a, b) && grid.Valid() && grid.Coordinates(i, j, k)
    requires Distributed(aTiles, a, grid) && Distributed(bTiles, b, grid) && Announced(shapes, aTiles, bTiles)
    ensures tile == ProductTile(a, b, grid, i, j, k)
  {
    var plan := PreparePlan(shapes, grid, i, j, k);
    DistributedTilesAreConsistent(a, b, grid, aTiles, bTiles, shapes, i, j, k);
    ghost var made;
    tile, made := MultiplyRank(plan.value, aTiles, bTiles, grid, i, j, k, a, b, shapes);
  }

  /** Distribute both matrices, plan and run every rank, gather the tiles. */
  method TridentProduct(a: CsrMatrix, b: CsrMatrix, grid: ProcessGrid) returns (result: Result<CsrMatrix>)
    requires Multipliable(a, b) && grid.Valid()
    ensures result == Ok(SerialProduct(Integers, a, b))
  {
    var aTiles := DistributeBlocks(a, grid);
    var bTiles := DistributeBlocks(b, grid);
    var shapes := AnnounceShapes(aTiles, bTiles);
    var tiles := aTiles;
    for i := 0 to grid.side
      invariant ComputedBefore(tiles, a, b, grid, i, 0, 0)
    {
      for j := 0 to grid.side
        invariant ComputedBefore(tiles, a, b, grid, i, j, 0)
      {
        for k := 0 to grid.nodeSize
          invariant ComputedBefore(tiles, a, b, grid, i, j, k)
        {
          var tile := PlanAndMultiply(shapes, aTiles, bTiles, grid, i, j, k, a, b);
          OneMoreProduct(tiles, a, b, grid, i, j, k);
          tiles := tiles[grid.RankAt(i, j, k) := tile];
        }
      }
    }
    ProductTilesFit(tiles, a, b, grid);
    result := GatherBlocks(tiles, a.rows, b.cols, grid);
    GatheredIsSerial(tiles, a, b, grid, result.value);
  }
}
