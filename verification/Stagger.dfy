/** The staged sum: every rank's windows, taken in schedule order, add up to the dense product. */
module Stagger {
  import opened Csr
  import opened Serial
  import opened Dense
  import opened Partition
  import opened Grid

  /** The share of inner block h in one cell of the product. */
  ghost function BlockShare(aRow: Row, bRows: seq<Row>, c: int, total: nat, side: nat, h: int): int
    requires side > 0
  {
    if h < 0 then 0 else DotWindow(aRow, bRows, c, Start(total, side, h), Start(total, side, h + 1))
  }

  ghost function Shares(aRow: Row, bRows: seq<Row>, c: int, total: nat, side: nat): int -> int
    requires side > 0
  {
    h => BlockShare(aRow, bRows, c, total, side, h)
  }

  lemma {:induction false} SharesBelow(aRow: Row, bRows: seq<Row>, c: int, total: nat, side: nat, h: nat)
    requires side > 0
    ensures Sum(Shares(aRow, bRows, c, total, side), 0, h) == DotWindow(aRow, bRows, c, 0, Start(total, side, h))
  {
    StartEnds(total, side);
    if h == 0 {
      WindowEmpty(aRow, bRows, c, 0, |aRow|);
    } else {
      SharesBelow(aRow, bRows, c, total, side, h - 1);
      StartMonotone(total, side, h - 1, h);
      WindowSplit(aRow, bRows, c, 0, Start(total, side, h - 1), Start(total, side, h), |aRow|);
    }
  }

  /** All rounds of a rank, in whatever stagger, sum to the whole dot product. */
  lemma RoundsSumToDot(aRow: Row, bRows: seq<Row>, c: int, total: nat, side: nat, start: nat)
    requires side > 0 && ColumnsBelow(aRow, total)
    ensures RoundSum(Shares(aRow, bRows, c, total, side), start, side, side) == Dot(aRow, bRows, c)
  {
    RoundSumIsSum(Shares(aRow, bRows, c, total, side), start, side);
    SharesBelow(aRow, bRows, c, total, side, side);
    StartEnds(total, side);
    WindowAll(aRow, bRows, c, total, |aRow|);
  }

  // ----- putting column tiles side by side

  ghost function ShiftBefore(row: Row, distance: int, n: nat): (shifted: Row)
    requires n <= |row|
    ensures |shifted| == n && forall p :: 0 <= p < n ==> shifted[p] == Entry(distance + row[p].column, row[p].value)
  {
    if n == 0 then [] else ShiftBefore(row, distance, n - 1) + [Entry(distance + row[n - 1].column, row[n - 1].value)]
  }

  ghost function Shift(row: Row, distance: int): Row {
    ShiftBefore(row, distance, |row|)
  }

  ghost function From(f: int -> int, start: int): int -> int {
    c => f(start + c)
  }

  lemma ShiftSnoc(row: Row, e: Entry, distance: int)
    ensures Shift(row + [e], distance) == Shift(row, distance) + [Entry(distance + e.column, e.value)]
  {
  }

  /** The nonzero cells of [0, s + n) are those of [0, s) and, shifted, those of the next n columns. */
  lemma NoShift(distance: int)
    ensures Shift([], distance) == []
  {
  }

  lemma {:induction false} NonzeroCellsSplit(f: int -> int, s: nat, n: nat)
    ensures NonzeroCells(f, s + n) == NonzeroCells(f, s) + Shift(NonzeroCells(From(f, s), n), s)
  {
    hide ShiftBefore, Shift;
    NoShift(s);
    if n > 0 {
      var g, last := From(f, s), f(s + n - 1);
      var front, back := NonzeroCells(f, s), NonzeroCells(g, n - 1);
      assert g(n - 1) == last;
      NonzeroCellsSplit(f, s, n - 1);
      ShiftSnoc(back, Entry(n - 1, last), s);
      if last != 0 {
        assert NonzeroCells(g, n) == back + [Entry(n - 1, last)];
        assert front + Shift(back, s) + [Entry(s + n - 1, last)] == front + (Shift(back, s) + [Entry(s + n - 1, last)]);
      } else {
        assert NonzeroCells(g, n) == back;
      }
    }
  }

  lemma {:induction false} NonzeroCellsSorted(f: int -> int, n: nat)
    ensures SortedRow(NonzeroCells(f, n)) && ColumnsBelow(NonzeroCells(f, n), n)
  {
    if n > 0 {
      NonzeroCellsSorted(f, n - 1);
    }
  }

  lemma {:induction false} InsertLast(e: Entry, s: Row)
    requires PairsAscending(s)
    requires forall i :: 0 <= i < |s| ==> s[i].column < e.column
    ensures InsertPair(e, s) == s + [e]
  {
    if s != [] {
      InsertLast(e, s[1..]);
    }
  }

  /** Sorting what is already sorted changes nothing. */
  lemma {:induction false} SortSorted(row: Row)
    requires SortedRow(row)
    ensures SortPairs(row) == row
  {
    if row != [] {
      var n := |row| - 1;
      SortSorted(row[..n]);
      InsertLast(row[n], row[..n]);
      assert row == row[..n] + [row[n]];
    }
  }
}
