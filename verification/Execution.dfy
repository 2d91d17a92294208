/** preparePlan and multiply: the static plan of a product, and one rank's run through it. */
module Execution {
  import opened Csr
  import opened Grid
  import opened Stages

  // ----- the plan

  ghost predicate PanelConsistent(shapes: seq<RankShapes>, grid: ProcessGrid, h: nat, j: nat, cols: nat)
    requires grid.Valid() && |shapes| == |grid.coordinateRanks| && h < grid.side && j < grid.side
  {
    forall k :: 0 <= k < grid.nodeSize ==> shapes[grid.RankAt(h, j, k)].b.cols == cols
  }

  ghost function PanelRows(shapes: seq<RankShapes>, grid: ProcessGrid, h: nat, j: nat, n: nat): nat
    requires grid.Valid() && |shapes| == |grid.coordinateRanks| && h < grid.side && j < grid.side && n <= grid.nodeSize
  {
    if n == 0 then 0 else PanelRows(shapes, grid, h, j, n - 1) + shapes[grid.RankAt(h, j, n - 1)].b.rows
  }

  ghost predicate InnerConsistent(shapes: seq<RankShapes>, grid: ProcessGrid, i: nat, j: nat, k: nat, h: nat)
    requires grid.Valid() && |shapes| == |grid.coordinateRanks| && grid.Coordinates(i, j, k) && h < grid.side
  {
    var own := shapes[grid.RankAt(i, j, k)];
    && PanelConsistent(shapes, grid, h, j, own.b.cols)
    && shapes[grid.RankAt(i, h, k)].a.rows == own.a.rows
    && shapes[grid.RankAt(i, h, k)].a.cols == PanelRows(shapes, grid, h, j, grid.nodeSize)
  }

  /** No shape error: the B slices of every inner node agree in their columns, and the A tile
      has as many rows as the result and as many columns as the panel has rows. */
  ghost predicate Consistent(shapes: seq<RankShapes>, grid: ProcessGrid, i: nat, j: nat, k: nat)
    requires grid.Valid() && |shapes| == |grid.coordinateRanks| && grid.Coordinates(i, j, k)
  {
    forall h: nat | h < grid.side :: InnerConsistent(shapes, grid, i, j, k, h)
  }

  /** The inner node's slices as the plan records them. */
  ghost predicate PanelPlanned(stage: Stage, shapes: seq<RankShapes>, grid: ProcessGrid, j: nat)
    requires grid.Valid() && |shapes| == |grid.coordinateRanks| && j < grid.side
  {
    && stage.inner < grid.side
    && |stage.rowCounts| == grid.nodeSize && PanelOffsets(stage)
    && (forall k :: 0 <= k < grid.nodeSize ==> stage.rowCounts[k] == shapes[grid.RankAt(stage.inner, j, k)].b.rows)
    && (forall k :: 0 <= k < grid.nodeSize ==> stage.nnzCounts[k] == shapes[grid.RankAt(stage.inner, j, k)].b.nnz)
  }

  ghost predicate StagePlanned(stage: Stage, round: nat, shapes: seq<RankShapes>, grid: ProcessGrid, i: nat, j: nat, k: nat)
    requires grid.Valid() && |shapes| == |grid.coordinateRanks| && grid.Coordinates(i, j, k)
  {
    && stage.inner == Inner(i, j, round, grid.side)
    && PanelPlanned(stage, shapes, grid, j)
    && stage.panel.cols == shapes[grid.RankAt(i, j, k)].b.cols
    && stage.aSource == grid.RankAt(i, stage.inner, k) && stage.a == shapes[stage.aSource].a
    && stage.bSource == grid.RankAt(stage.inner, j, k) && stage.b == shapes[stage.bSource].b
    && 0 <= Wrap(j - i - round, grid.side) < grid.side && 0 <= Wrap(i - j - round, grid.side) < grid.side
    && stage.aTarget == grid.RankAt(i, Wrap(j - i - round, grid.side), k)
    && stage.bTarget == grid.RankAt(Wrap(i - j - round, grid.side), j, k)
  }

  lemma {:induction false} SumOfExtended(xs: seq<nat>, x: nat, n: nat)
    requires n <= |xs|
    ensures SumOf(xs + [x], n) == SumOf(xs, n)
  {
    if n > 0 {
      SumOfExtended(xs, x, n - 1);
    }
  }

  ghost predicate RunningOffsets(counts: seq<nat>, offsets: seq<nat>, total: nat) {
    && |counts| == |offsets| && total == SumOf(counts, |counts|)
    && forall k :: 0 <= k < |counts| ==> offsets[k] == SumOf(counts, k)
  }

  lemma RunningOffsetsGrow(counts: seq<nat>, offsets: seq<nat>, total: nat, count: nat)
    requires RunningOffsets(counts, offsets, total)
    ensures RunningOffsets(counts + [count], offsets + [total], total + count)
  {
    forall k | 0 <= k <= |counts| ensures SumOf(counts + [count], k) == SumOf(counts, k) {
      SumOfExtended(counts, count, k);
    }
  }

  /** The B shapes announced by the ranks of a node. */
  ghost function NodeShapes(shapes: seq<RankShapes>, grid: ProcessGrid, h: nat, j: nat, n: nat): (peers: seq<TileShape>)
    requires grid.Valid() && |shapes| == |grid.coordinateRanks| && h < grid.side && j < grid.side && n <= grid.nodeSize
    ensures |peers| == n && forall k :: 0 <= k < n ==> peers[k] == shapes[grid.RankAt(h, j, k)].b
  {
    if n == 0 then [] else NodeShapes(shapes, grid, h, j, n - 1) + [shapes[grid.RankAt(h, j, n - 1)].b]
  }

  ghost function RowsOfShapes(peers: seq<TileShape>, n: nat): nat
    requires n <= |peers|
  {
    if n == 0 then 0 else RowsOfShapes(peers, n - 1) + peers[n - 1].rows
  }

  lemma {:induction false} PanelRowsOfNode(shapes: seq<RankShapes>, grid: ProcessGrid, h: nat, j: nat, n: nat)
    requires grid.Valid() && |shapes| == |grid.coordinateRanks| && h < grid.side && j < grid.side && n <= grid.nodeSize
    ensures RowsOfShapes(NodeShapes(shapes, grid, h, j, grid.nodeSize), n) == PanelRows(shapes, grid, h, j, n)
  {
    if n > 0 {
      PanelRowsOfNode(shapes, grid, h, j, n - 1);
    }
  }

  /** The counts and running offsets of a node's slices; false as soon as columns disagree. */
  method PlanPanel(peers: seq<TileShape>, cols: nat)
    returns (consistent: bool, panel: TileShape, rowCounts: seq<nat>, rowOffsets: seq<nat>,
             nnzCounts: seq<nat>, nnzOffsets: seq<nat>)
    ensures consistent <==> forall k :: 0 <= k < |peers| ==> peers[k].cols == cols
    ensures consistent ==> panel.cols == cols && |rowCounts| == |nnzCounts| == |peers|
    ensures consistent ==> panel.rows == RowsOfShapes(peers, |peers|)
    ensures consistent ==> forall k :: 0 <= k < |peers| ==> rowCounts[k] == peers[k].rows && nnzCounts[k] == peers[k].nnz
    ensures consistent ==> RunningOffsets(rowCounts, rowOffsets, panel.rows) && RunningOffsets(nnzCounts, nnzOffsets, panel.nnz)
  {
    rowCounts, rowOffsets, nnzCounts, nnzOffsets := [], [], [], [];
    var rows: nat, nnz: nat := 0, 0;
    for k := 0 to |peers|
      invariant |rowCounts| == |nnzCounts| == k
      invariant rows == RowsOfShapes(peers, k)
      invariant forall l :: 0 <= l < k ==> rowCounts[l] == peers[l].rows && nnzCounts[l] == peers[l].nnz
      invariant forall l :: 0 <= l < k ==> peers[l].cols == cols
      invariant RunningOffsets(rowCounts, rowOffsets, rows) && RunningOffsets(nnzCounts, nnzOffsets, nnz)
    {
      var shape := peers[k];
      RunningOffsetsGrow(rowCounts, rowOffsets, rows, shape.rows);
      RunningOffsetsGrow(nnzCounts, nnzOffsets, nnz, shape.nnz);
      rowCounts, rowOffsets := rowCounts + [shape.rows], rowOffsets + [rows];
      nnzCounts, nnzOffsets := nnzCounts + [shape.nnz], nnzOffsets + [nnz];
      rows, nnz := rows + shape.rows, nnz + shape.nnz;
      if shape.cols != cols {
        return false, TileShape(rows, cols, nnz), rowCounts, rowOffsets, nnzCounts, nnzOffsets;
      }
    }
    consistent, panel := true, TileShape(rows, cols, nnz);
  }

  method ShapesOfNode(shapes: seq<RankShapes>, grid: ProcessGrid, h: nat, j: nat) returns (peers: seq<TileShape>)
    requires grid.Valid() && |shapes| == |grid.coordinateRanks| && h < grid.side && j < grid.side
    ensures peers == NodeShapes(shapes, grid, h, j, grid.nodeSize)
  {
    peers := [];
    for k := 0 to grid.nodeSize
      invariant peers == NodeShapes(shapes, grid, h, j, k)
    {
      peers := peers + [shapes[grid.RankAt(h, j, k)].b];
    }
  }

  /** Stage `round` of the rank at (i, j, k), or the shape error it meets. */
  method PrepareStage(shapes: seq<RankShapes>, grid: ProcessGrid, i: nat, j: nat, k: nat, round: nat)
    returns (stage: Result<Stage>)
    requires grid.Valid() && |shapes| == |grid.coordinateRanks| && grid.Coordinates(i, j, k)
    ensures stage.Ok? <==> InnerConsistent(shapes, grid, i, j, k, Inner(i, j, round, grid.side))
    ensures stage.Ok? ==> StagePlanned(stage.value, round, shapes, grid, i, j, k)
  {
    var own := shapes[grid.RankAt(i, j, k)];
    var inner := (i + j + round) % grid.side;
    WrapIsModulo(j - i - round, grid.side);
    WrapIsModulo(i - j - round, grid.side);
    var aSource, bSource := grid.RankAt(i, inner, k), grid.RankAt(inner, j, k);
    var aTarget := grid.RankAt(i, Wrap(j - i - round, grid.side), k);
    var bTarget := grid.RankAt(Wrap(i - j - round, grid.side), j, k);
    var a, b := shapes[aSource].a, shapes[bSource].b;
    var peers := ShapesOfNode(shapes, grid, inner, j);
    var consistent, panel, rowCounts, rowOffsets, nnzCounts, nnzOffsets := PlanPanel(peers, own.b.cols);
    PanelRowsOfNode(shapes, grid, inner, j, grid.nodeSize);
    if !consistent {
      return Error("inconsistent B column slices within a Trident node");
    }
    if a.rows != own.a.rows || a.cols != panel.rows {
      return Error("incompatible Trident stage shapes");
    }
    stage := Ok(Stage(inner, aSource, aTarget, bSource, bTarget, a, b, panel,
                      rowCounts, rowOffsets, nnzCounts, nnzOffsets));
  }

  method PreparePlan(shapes: seq<RankShapes>, grid: ProcessGrid, i: nat, j: nat, k: nat)
    returns (plan: Result<ExecutionPlan>)
    requires grid.Valid() && |shapes| == |grid.coordinateRanks| && grid.Coordinates(i, j, k)
    ensures plan.Ok? <==> Consistent(shapes, grid, i, j, k)
    ensures plan.Ok? ==>
      && plan.value.resultRows == shapes[grid.RankAt(i, j, k)].a.rows
      && plan.value.resultCols == shapes[grid.RankAt(i, j, k)].b.cols
      && |plan.value.stages| == grid.side
      && forall round :: 0 <= round < grid.side ==>
           StagePlanned(plan.value.stages[round], round, shapes, grid, i, j, k)
  {
    var own := shapes[grid.RankAt(i, j, k)];
    var stages: seq<Stage> := [];
    for round := 0 to grid.side
      invariant |stages| == round
      invariant forall r :: 0 <= r < round ==> StagePlanned(stages[r], r, shapes, grid, i, j, k)
      invariant forall r :: 0 <= r < round ==> InnerConsistent(shapes, grid, i, j, k, Inner(i, j, r, grid.side))
    {
      var stage := PrepareStage(shapes, grid, i, j, k, round);
      if stage.Error? {
        assert !InnerConsistent(shapes, grid, i, j, k, Inner(i, j, round, grid.side));
        return Error(stage.message);
      }
      stages := stages + [stage.value];
    }
    forall h: nat | h < grid.side ensures InnerConsistent(shapes, grid, i, j, k, h) {
      var round := EachInnerOnce(i, j, h, grid.side);
    }
    plan := Ok(ExecutionPlan(stages, own.a.rows, own.b.cols));
  }
}
