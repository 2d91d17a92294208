/** Coordinates (i, j, k) of ranks, and the staggered schedule over them. */
module Grid {
  import opened Arithmetic
  import opened Csr

  /** What ProcessGrid holds on every rank: a table of ranks by coordinates. */
  datatype ProcessGrid = ProcessGrid(side: nat, nodeSize: nat, coordinateRanks: seq<nat>) {

    ghost predicate Valid() {
      && side > 0 && nodeSize > 0
      && |coordinateRanks| == side * side * nodeSize
      && (forall x :: 0 <= x < |coordinateRanks| ==> coordinateRanks[x] < |coordinateRanks|)
      && Distinct(coordinateRanks)
    }

    ghost predicate Coordinates(i: int, j: int, k: int) {
      0 <= i < side && 0 <= j < side && 0 <= k < nodeSize
    }

    function RankAt(i: nat, j: nat, k: nat): (rank: nat)
      requires Valid() && Coordinates(i, j, k)
      ensures rank < |coordinateRanks|
    {
      IndexBound(side, nodeSize, i, j, k);
      coordinateRanks[(i * side + j) * nodeSize + k]
    }

    /** Different coordinates are different ranks. */
    lemma RankAtInjective(i: nat, j: nat, k: nat, i': nat, j': nat, k': nat)
      requires Valid() && Coordinates(i, j, k) && Coordinates(i', j', k')
      requires RankAt(i, j, k) == RankAt(i', j', k')
      ensures i == i' && j == j' && k == k'
    {
      IndexBound(side, nodeSize, i, j, k);
      IndexBound(side, nodeSize, i', j', k');
      DigitsUnique(nodeSize, i * side + j, k, i' * side + j', k');
      DigitsUnique(side, i, j, i', j');
    }

    /** Every rank has coordinates. */
    lemma RankHasCoordinates(rank: nat) returns (i: nat, j: nat, k: nat)
      requires Valid() && rank < |coordinateRanks|
      ensures Coordinates(i, j, k) && RankAt(i, j, k) == rank
    {
      var x := IndexOfRank(coordinateRanks, rank);
      var node;
      node, k := SplitIndex(x, side * side, nodeSize);
      i, j := SplitIndex(node, side, side);
    }
  }

  lemma IndexBound(side: nat, nodeSize: nat, i: nat, j: nat, k: nat)
    requires i < side && j < side && k < nodeSize
    ensures 0 <= i * side + j < side * side
    ensures 0 <= (i * side + j) * nodeSize + k < side * side * nodeSize
  {
    DigitBound(i, j, side, side);
    DigitBound(i * side + j, k, side * side, nodeSize);
  }

  lemma SplitIndex(x: nat, n: nat, base: nat) returns (high: nat, low: nat)
    requires x < n * base
    ensures high < n && low < base && x == high * base + low
  {
    MulMonotone(base, 0, n);
    MulCommutes(n, base);
    high, low := x / base, x % base;
    DivModIdentity(x, base);
    MulMonotone(n, high, base);
  }

  ghost function Below(n: nat): set<nat> {
    if n == 0 then {} else Below(n - 1) + {n - 1}
  }

  lemma {:induction false} BelowMembers(n: nat)
    ensures |Below(n)| == n && forall x: nat :: x in Below(n) <==> x < n
  {
    if n > 0 {
      BelowMembers(n - 1);
    }
  }

  /** A table of n distinct numbers below n contains each of them. */
  lemma IndexOfRank(table: seq<nat>, rank: nat) returns (x: nat)
    requires Distinct(table) && rank < |table|
    requires forall x :: 0 <= x < |table| ==> table[x] < |table|
    ensures x < |table| && table[x] == rank
  {
    var present := set r | r in table;
    DistinctCardinality(table);
    BelowMembers(|table|);
    forall r | r in present ensures r in Below(|table|) {
      var y :| 0 <= y < |table| && table[y] == r;
    }
    SubsetOfSameSize(present, Below(|table|));
    assert rank in Below(|table|) && rank in present;
    x :| 0 <= x < |table| && table[x] == rank;
  }

  lemma {:induction false} SubsetOfSameSize<T>(s: set<T>, t: set<T>)
    requires s <= t && |s| == |t|
    ensures s == t
  {
    if s != {} {
      var x :| x in s;
      SubsetOfSameSize(s - {x}, t - {x});
    }
  }

  // ----- the schedule

  /** C++ `%`, which truncates toward zero. */
  function Remainder(value: int, size: nat): int
    requires size > 0
  {
    if value >= 0 then value % size else -(-value % size)
  }

  function Wrap(value: int, size: nat): int
    requires size > 0
  {
    Remainder(Remainder(value, size) + size, size)
  }

  function Inner(i: nat, j: nat, round: nat, side: nat): nat
    requires side > 0
  {
    (i + j + round) % side
  }

  /** Wrap is the nonnegative remainder, for negative values too. */
  lemma WrapIsModulo(value: int, size: nat)
    requires size > 0
    ensures Wrap(value, size) == value % size
    ensures 0 <= Wrap(value, size) < size
  {
    if value >= 0 {
      DivModIdentity(value, size);
      ModUnique(value % size + size, 1, value % size, size);
    } else {
      var q, r := -value / size, -value % size;
      DivModIdentity(-value, size);
      assert (-q) * size == -(q * size);
      if r == 0 {
        ModUnique(size, 1, 0, size);
        ModUnique(value, -q, 0, size);
      } else {
        MulDistributes(-q, -1, size);
        ModUnique(size - r, 0, size - r, size);
        ModUnique(value, -q - 1, size - r, size);
      }
    }
  }

  /** Solving h = (x + j) % side for j. */
  lemma SolveInner(x: int, j: nat, h: nat, side: nat)
    requires j < side && h < side
    ensures (x + j) % side == h <==> Wrap(h - x, side) == j
  {
    WrapIsModulo(h - x, side);
    if (x + j) % side == h {
      ModOfDifference(x + j, h, j, side);
      assert h - (x + j) + j == h - x;
    }
    if (h - x) % side == j {
      ModOfDifference(h - x, j, h, side);
      assert j - (h - x) + h == x + j;
    }
  }

  /** If x leaves h, then h - x is a multiple of the size, and adding it changes no remainder. */
  lemma ModOfDifference(x: int, h: nat, j: nat, size: nat)
    requires h < size && j < size && x % size == h
    ensures (h - x + j) % size == j
  {
    DivModIdentity(x, size);
    var q := x / size;
    assert (-q) * size == -(q * size);
    ModUnique(h - x + j, -q, j, size);
  }

  /** Consumer (i, j) takes A(i, h) in a round exactly when the owner (i, h) sends to column j. */
  lemma ATargetInvertsASource(i: nat, j: nat, h: nat, round: nat, side: nat)
    requires i < side && j < side && h < side
    ensures Inner(i, j, round, side) == h <==> Wrap(h - i - round, side) == j
  {
    SolveInner(i + round, j, h, side);
    assert i + round + j == i + j + round;
    assert h - (i + round) == h - i - round;
  }

  /** Consumer (i, j) takes B(h, j) in a round exactly when the owner (h, j) sends to row i. */
  lemma BTargetInvertsBSource(i: nat, j: nat, h: nat, round: nat, side: nat)
    requires i < side && j < side && h < side
    ensures Inner(i, j, round, side) == h <==> Wrap(h - j - round, side) == i
  {
    SolveInner(j + round, i, h, side);
    assert j + round + i == i + j + round;
    assert h - (j + round) == h - j - round;
  }

  /** Over the rounds of a product every inner index comes up exactly once. */
  lemma EachInnerOnce(i: nat, j: nat, h: nat, side: nat) returns (round: nat)
    requires i < side && j < side && h < side
    ensures round < side && Inner(i, j, round, side) == h
    ensures forall r: nat :: r < side && Inner(i, j, r, side) == h ==> r == round
  {
    WrapIsModulo(h - (i + j), side);
    round := Wrap(h - (i + j), side);
    SolveInner(i + j, round, h, side);
    forall r: nat | r < side && Inner(i, j, r, side) == h ensures r == round {
      SolveInner(i + j, r, h, side);
    }
  }

  // ----- sums over the rounds

  ghost function Sum(f: int -> int, lo: int, hi: int): int
    decreases hi - lo
  {
    if hi <= lo then 0 else Sum(f, lo, hi - 1) + f(hi - 1)
  }

  /** f summed over the inner indices of the first `rounds` rounds, in schedule order. */
  ghost function RoundSum(f: int -> int, start: nat, side: nat, rounds: nat): int
    requires side > 0
  {
    if rounds == 0 then 0 else RoundSum(f, start, side, rounds - 1) + f((start + rounds - 1) % side)
  }

  lemma WrapOnce(x: nat, side: nat)
    requires x < 2 * side
    ensures x % side == if x < side then x else x - side
  {
    if x < side {
      ModUnique(x, 0, x, side);
    } else {
      ModUnique(x, 1, x - side, side);
    }
  }

  lemma {:induction false} RoundSumPrefix(f: int -> int, start: nat, side: nat, rounds: nat)
    requires start < side && rounds <= side
    ensures RoundSum(f, start, side, rounds) ==
            if start + rounds <= side then Sum(f, start, start + rounds)
            else Sum(f, start, side) + Sum(f, 0, start + rounds - side)
  {
    if rounds > 0 {
      RoundSumPrefix(f, start, side, rounds - 1);
      WrapOnce(start + rounds - 1, side);
    }
  }

  lemma {:induction false} SumSplit(f: int -> int, lo: int, mid: int, hi: int)
    requires lo <= mid <= hi
    ensures Sum(f, lo, hi) == Sum(f, lo, mid) + Sum(f, mid, hi)
    decreases hi - mid
  {
    if mid < hi {
      SumSplit(f, lo, mid, hi - 1);
    }
  }

  lemma {:induction false} RoundSumModulo(f: int -> int, start: nat, side: nat, rounds: nat)
    requires side > 0
    ensures RoundSum(f, start, side, rounds) == RoundSum(f, start % side, side, rounds)
  {
    if rounds > 0 {
      RoundSumModulo(f, start, side, rounds - 1);
      DivModIdentity(start, side);
      AddMultiple(start % side + rounds - 1, start / side, side);
    }
  }

  /** The stagger only changes the order of the rounds, not their sum. */
  lemma RoundSumIsSum(f: int -> int, start: nat, side: nat)
    requires side > 0
    ensures RoundSum(f, start, side, side) == Sum(f, 0, side)
  {
    RoundSumModulo(f, start, side, side);
    RoundSumPrefix(f, start % side, side, side);
    SumSplit(f, 0, start % side, side);
  }
}
