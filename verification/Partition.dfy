/** Balanced contiguous row ranges. */
module Partition {
  import opened Arithmetic

  datatype RowBlock = RowBlock(firstRow: nat, rows: nat)

  /** Rows of block t: one for every full turn over the blocks, and one of the remainder. */
  ghost function BlockRows(total: nat, parts: nat, t: nat): nat
    requires parts > 0
    decreases total
  {
    if parts <= total then 1 + BlockRows(total - parts, parts, t) else if t < total then 1 else 0
  }

  lemma {:induction false} BlockRowsClosedForm(total: nat, parts: nat, t: nat)
    requires parts > 0
    ensures BlockRows(total, parts, t) == total / parts + (if t < total % parts then 1 else 0)
    decreases total
  {
    if parts <= total {
      BlockRowsClosedForm(total - parts, parts, t);
      DivModIdentity(total - parts, parts);
      MulDistributes((total - parts) / parts, 1, parts);
      ModUnique(total, (total - parts) / parts + 1, (total - parts) % parts, parts);
    } else {
      ModUnique(total, 0, total, parts);
    }
  }

  /** First row of block t; block `parts` starts at the total. */
  ghost function Start(total: nat, parts: nat, t: nat): nat
    requires parts > 0
  {
    if t == 0 then 0 else Start(total, parts, t - 1) + BlockRows(total, parts, t - 1)
  }

  ghost function Block(total: nat, parts: nat, t: nat): RowBlock
    requires parts > 0
  {
    RowBlock(Start(total, parts, t), BlockRows(total, parts, t))
  }

  lemma StartStep(total: nat, parts: nat, t: nat)
    requires parts > 0
    ensures Start(total, parts, t + 1) == Start(total, parts, t) + Block(total, parts, t).rows
  {
  }

  lemma {:induction false} StartOfOneTurn(total: nat, parts: nat, t: nat)
    requires 0 < parts
    ensures Start(total, parts, t) ==
            if parts <= total then t + Start(total - parts, parts, t) else if t < total then t else total
  {
    if t > 0 {
      StartOfOneTurn(total, parts, t - 1);
    }
  }

  lemma {:induction false} StartEnds(total: nat, parts: nat)
    requires parts > 0
    ensures Start(total, parts, 0) == 0 && Start(total, parts, parts) == total
    decreases total
  {
    StartOfOneTurn(total, parts, parts);
    if parts <= total {
      StartEnds(total - parts, parts);
    }
  }

  lemma {:induction false} StartMonotone(total: nat, parts: nat, s: nat, t: nat)
    requires parts > 0 && s <= t
    ensures Start(total, parts, s) <= Start(total, parts, t)
    decreases t
  {
    if s < t {
      StartMonotone(total, parts, s, t - 1);
      StartStep(total, parts, t - 1);
    }
  }

  ghost predicate InBlock(total: nat, parts: nat, t: nat, row: int)
    requires parts > 0
  {
    Start(total, parts, t) <= row < Start(total, parts, t + 1)
  }

  /** Every row below Start(t) lies in a block before t. */
  lemma {:induction false} BlockBelow(total: nat, parts: nat, t: nat, row: nat) returns (owner: nat)
    requires parts > 0 && row < Start(total, parts, t)
    ensures owner < t && InBlock(total, parts, owner, row)
    decreases t
  {
    if t > 0 && row < Start(total, parts, t - 1) {
      owner := BlockBelow(total, parts, t - 1, row);
    } else {
      StartEnds(total, parts);
      owner := t - 1;
    }
  }

  /** The blocks cover [0, total) without overlap. */
  lemma BlocksPartition(total: nat, parts: nat, row: nat) returns (owner: nat)
    requires parts > 0 && row < total
    ensures owner < parts && InBlock(total, parts, owner, row)
    ensures forall t: nat :: InBlock(total, parts, t, row) ==> t == owner
  {
    StartEnds(total, parts);
    owner := BlockBelow(total, parts, parts, row);
    forall t: nat | InBlock(total, parts, t, row) ensures t == owner {
      InOneBlock(total, parts, t, owner, row);
    }
  }

  lemma InOneBlock(total: nat, parts: nat, s: nat, t: nat, row: int)
    requires parts > 0 && InBlock(total, parts, s, row) && InBlock(total, parts, t, row)
    ensures s == t
  {
    if s < t {
      StartMonotone(total, parts, s + 1, t);
    } else if t < s {
      StartMonotone(total, parts, t + 1, s);
    }
  }

  /** Consecutive blocks, the longer ones first, no two sizes more than one apart. */
  ghost predicate Balanced(blocks: seq<RowBlock>, total: nat) {
    && |blocks| > 0
    && blocks[0].firstRow == 0
    && blocks[|blocks| - 1].firstRow + blocks[|blocks| - 1].rows == total
    && (forall t :: 0 < t < |blocks| ==> blocks[t].firstRow == blocks[t - 1].firstRow + blocks[t - 1].rows)
    && (forall s, t :: 0 <= s < t < |blocks| ==> blocks[t].rows <= blocks[s].rows <= blocks[t].rows + 1)
  }

  method PartitionRows(totalRows: nat, ranks: nat) returns (blocks: seq<RowBlock>)
    requires ranks > 0
    ensures |blocks| == ranks && Balanced(blocks, totalRows)
    ensures forall t :: 0 <= t < ranks ==> blocks[t] == Block(totalRows, ranks, t)
  {
    blocks := [];
    var baseRows, remainder := totalRows / ranks, totalRows % ranks;
    var firstRow := 0;
    StartEnds(totalRows, ranks);
    for rank := 0 to ranks
      invariant |blocks| == rank && firstRow == Start(totalRows, ranks, rank)
      invariant forall t :: 0 <= t < rank ==> blocks[t] == Block(totalRows, ranks, t)
    {
      StartStep(totalRows, ranks, rank);
      BlockRowsClosedForm(totalRows, ranks, rank);
      var blockRows := baseRows + (if rank < remainder then 1 else 0);
      blocks := blocks + [RowBlock(firstRow, blockRows)];
      firstRow := firstRow + blockRows;
    }
    forall t | 0 <= t < ranks
      ensures blocks[t].rows == baseRows + (if t < remainder then 1 else 0)
      ensures Start(totalRows, ranks, t + 1) == blocks[t].firstRow + blocks[t].rows
    {
      StartStep(totalRows, ranks, t);
      BlockRowsClosedForm(totalRows, ranks, t);
    }
  }

  /** The block holding a row, or -1 exactly for rows outside all blocks. */
  method OwnerOfRow(row: int, blocks: seq<RowBlock>, ghost total: nat) returns (rank: int)
    requires |blocks| > 0
    requires forall t :: 0 <= t < |blocks| ==> blocks[t] == Block(total, |blocks|, t)
    ensures rank == -1 <==> !(0 <= row < total)
    ensures rank != -1 ==> 0 <= rank < |blocks| && InBlock(total, |blocks|, rank, row)
  {
    StartEnds(total, |blocks|);
    for r := 0 to |blocks|
      invariant row < 0 || row >= Start(total, |blocks|, r)
    {
      StartStep(total, |blocks|, r);
      if row >= blocks[r].firstRow && row < blocks[r].firstRow + blocks[r].rows {
        StartMonotone(total, |blocks|, r + 1, |blocks|);
        return r;
      }
    }
    rank := -1;
  }
}
