/** The plan of a product: one stage per round, with the shapes every rank announced. */
module Stages {
  import opened Csr

  datatype TileShape = TileShape(rows: nat, cols: nat, nnz: nat)

  datatype Stage = Stage(
    inner: nat, aSource: nat, aTarget: nat, bSource: nat, bTarget: nat,
    a: TileShape, b: TileShape, panel: TileShape,
    rowCounts: seq<nat>, rowOffsets: seq<nat>, nnzCounts: seq<nat>, nnzOffsets: seq<nat>)

  datatype ExecutionPlan = ExecutionPlan(stages: seq<Stage>, resultRows: nat, resultCols: nat)

  /** What one rank contributes to the all-gather: the shapes of its A and B slices. */
  datatype RankShapes = RankShapes(a: TileShape, b: TileShape)

  ghost function ShapeOf(m: CsrMatrix): TileShape {
    TileShape(m.rows, m.cols, |m.values|)
  }

  ghost function SumOf(counts: seq<nat>, n: nat): nat
    requires n <= |counts|
  {
    if n == 0 then 0 else SumOf(counts, n - 1) + counts[n - 1]
  }

  lemma {:induction false} SumOfMonotone(counts: seq<nat>, m: nat, n: nat)
    requires m <= n <= |counts|
    ensures SumOf(counts, m) <= SumOf(counts, n)
    decreases n
  {
    if m < n {
      SumOfMonotone(counts, m, n - 1);
    }
  }

  /** Offsets are the sums of the counts before them, and the panel holds everything. */
  ghost predicate PanelOffsets(stage: Stage) {
    && |stage.rowCounts| == |stage.rowOffsets| == |stage.nnzCounts| == |stage.nnzOffsets|
    && (forall k :: 0 <= k < |stage.rowCounts| ==> stage.rowOffsets[k] == SumOf(stage.rowCounts, k))
    && (forall k :: 0 <= k < |stage.nnzCounts| ==> stage.nnzOffsets[k] == SumOf(stage.nnzCounts, k))
    && stage.panel.rows == SumOf(stage.rowCounts, |stage.rowCounts|)
    && stage.panel.nnz == SumOf(stage.nnzCounts, |stage.nnzCounts|)
  }
}
