/** How a rank's coordinates follow from the nodes of the communicator. */
module Nodes {
  import opened Arithmetic
  import opened Csr
  import opened Grid

  // ----- what MPI tells each rank about its node

  /** Ranks before n on node c. */
  ghost function Members(nodes: seq<nat>, c: nat, n: nat): nat
    requires n <= |nodes|
  {
    if n == 0 then 0 else Members(nodes, c, n - 1) + if nodes[n - 1] == c then 1 else 0
  }

  ghost function NodeSize(nodes: seq<nat>, p: nat): nat
    requires p < |nodes|
  {
    Members(nodes, nodes[p], |nodes|)
  }

  /** A node communicator is split with the world rank as key, so it keeps the order of the ranks. */
  ghost function LocalRank(nodes: seq<nat>, p: nat): nat
    requires p < |nodes|
  {
    Members(nodes, nodes[p], p)
  }

  /** The first rank of the same node, which broadcasts its own number. */
  ghost predicate IsLeader(nodes: seq<nat>, p: nat, leader: nat) {
    && p < |nodes| && leader <= p && nodes[leader] == nodes[p]
    && forall q :: 0 <= q < leader ==> nodes[q] != nodes[p]
  }

  lemma {:induction false} MembersMonotone(nodes: seq<nat>, c: nat, m: nat, n: nat)
    requires m <= n <= |nodes|
    ensures Members(nodes, c, m) <= Members(nodes, c, n)
    decreases n
  {
    if m < n {
      MembersMonotone(nodes, c, m, n - 1);
    }
  }

  lemma LocalBelowSize(nodes: seq<nat>, p: nat)
    requires p < |nodes|
    ensures LocalRank(nodes, p) < NodeSize(nodes, p)
  {
    MembersMonotone(nodes, nodes[p], p + 1, |nodes|);
  }

  lemma LocalDistinct(nodes: seq<nat>, p: nat, q: nat)
    requires p < q < |nodes| && nodes[p] == nodes[q]
    ensures LocalRank(nodes, p) < LocalRank(nodes, q)
  {
    MembersMonotone(nodes, nodes[p], p + 1, q);
  }

  /** A node of c members has one for every local rank below c. */
  lemma {:induction false} MemberAt(nodes: seq<nat>, c: nat, k: nat, n: nat) returns (p: nat)
    requires n <= |nodes| && k < Members(nodes, c, n)
    ensures p < n && nodes[p] == c && LocalRank(nodes, p) == k
  {
    if k < Members(nodes, c, n - 1) {
      p := MemberAt(nodes, c, k, n - 1);
    } else {
      p := n - 1;
    }
  }

  // ----- the leaders in order

  /** std::sort, then std::unique. */
  method SortedUnique(leaders: seq<int>) returns (unique: seq<int>)
    ensures Leaders(leaders, unique)
  {
    var sorted := SortColumns(leaders);
    unique := [];
    for p := 0 to |sorted|
      invariant StrictlyAscending(unique) && forall x :: x in unique <==> x in sorted[..p]
      invariant p > 0 ==> |unique| > 0 && unique[|unique| - 1] == sorted[p - 1]
      invariant p == 0 ==> unique == []
    {
      OneMore(sorted, unique, p);
      if p == 0 || sorted[p] != sorted[p - 1] {
        unique := unique + [sorted[p]];
      }
    }
    assert sorted[..|sorted|] == sorted;
    SameMembers(leaders, unique);
  }

  lemma SameMembers(leaders: seq<int>, unique: seq<int>)
    requires StrictlyAscending(unique) && forall x :: x in unique <==> x in leaders
    ensures Leaders(leaders, unique)
  {
    forall p | 0 <= p < |leaders| ensures Occurs(unique, leaders[p]) {
      MemberOccurs(leaders, unique, p);
    }
    forall id | 0 <= id < |unique| ensures Occurs(leaders, unique[id]) {
      MemberOccurs(unique, leaders, id);
    }
  }

  lemma MemberOccurs(s: seq<int>, t: seq<int>, i: nat)
    requires i < |s| && forall x :: x in s ==> x in t
    ensures Occurs(t, s[i])
  {
    var x := s[i];
    assert x in s && x in t;
  }

  lemma OneMore(sorted: seq<int>, unique: seq<int>, p: nat)
    requires Ascending(sorted) && p < |sorted| && StrictlyAscending(unique)
    requires p > 0 ==> |unique| > 0 && unique[|unique| - 1] == sorted[p - 1]
    requires p == 0 ==> unique == []
    ensures p == 0 || sorted[p] != sorted[p - 1] ==> StrictlyAscending(unique + [sorted[p]])
    ensures forall x :: x in sorted[..p + 1] <==> x in sorted[..p] || x == sorted[p]
    ensures p > 0 ==> sorted[p - 1] in sorted[..p]
  {
    assert sorted[..p + 1] == sorted[..p] + [sorted[p]];
    if p > 0 {
      assert sorted[..p][p - 1] == sorted[p - 1] <= sorted[p];
      assert forall i :: 0 <= i < |unique| ==> unique[i] <= unique[|unique| - 1];
    }
  }

  /** std::lower_bound: the first element not below x. */
  method LowerBound(s: seq<int>, x: int) returns (index: nat)
    requires StrictlyAscending(s)
    ensures index <= |s| && (forall i :: 0 <= i < index ==> s[i] < x) && (forall i :: index <= i < |s| ==> x <= s[i])
  {
    var low, high := 0, |s|;
    while low < high
      invariant low <= high <= |s|
      invariant (forall i :: 0 <= i < low ==> s[i] < x) && (forall i :: high <= i < |s| ==> x <= s[i])
    {
      var middle := (low + high) / 2;
      if s[middle] < x {
        low := middle + 1;
      } else {
        high := middle;
      }
    }
    index := low;
  }

  // ----- the table of coordinates

  ghost predicate Gathered(nodes: seq<nat>, leaders: seq<int>, locals: seq<nat>, nodeSize: nat) {
    && |leaders| == |locals| == |nodes|
    && (forall p :: 0 <= p < |nodes| ==> leaders[p] >= 0 && IsLeader(nodes, p, leaders[p]))
    && (forall p :: 0 <= p < |nodes| ==> locals[p] == LocalRank(nodes, p) && NodeSize(nodes, p) == nodeSize)
  }

  ghost predicate Occurs(s: seq<int>, x: int) {
    exists i :: 0 <= i < |s| && s[i] == x
  }

  ghost predicate Leaders(leaders: seq<int>, unique: seq<int>) {
    && StrictlyAscending(unique)
    && (forall p :: 0 <= p < |leaders| ==> Occurs(unique, leaders[p]))
    && forall id :: 0 <= id < |unique| ==> Occurs(leaders, unique[id])
  }

  /** The position of a rank's leader among the leaders. */
  ghost predicate NodeId(leaders: seq<int>, unique: seq<int>, p: nat, id: nat) {
    p < |leaders| && id < |unique| && unique[id] == leaders[p]
  }

  lemma NotBefore(nodes: seq<nat>, p: nat, a: nat, q: nat, b: nat)
    requires IsLeader(nodes, p, a) && IsLeader(nodes, q, b) && nodes[p] == nodes[q]
    ensures b <= a
  {
  }

  lemma SameLeaderSameNode(nodes: seq<nat>, leaders: seq<int>, locals: seq<nat>, nodeSize: nat, p: nat, q: nat)
    requires Gathered(nodes, leaders, locals, nodeSize) && p < |nodes| && q < |nodes|
    ensures leaders[p] == leaders[q] <==> nodes[p] == nodes[q]
  {
    if nodes[p] == nodes[q] {
      assert IsLeader(nodes, p, leaders[p]) && IsLeader(nodes, q, leaders[q]);
      NotBefore(nodes, p, leaders[p], q, leaders[q]);
      NotBefore(nodes, q, leaders[q], p, leaders[p]);
    }
  }

  /** Rank p belongs at its node's place in leader order, at its local rank within the node. */
  ghost predicate PlaceOf(leaders: seq<int>, unique: seq<int>, locals: seq<nat>, nodeSize: nat, p: nat, x: int) {
    && p < |leaders| == |locals|
    && exists id: nat :: NodeId(leaders, unique, p, id) && x == id * nodeSize + locals[p]
  }

  lemma PlacesDiffer(nodes: seq<nat>, leaders: seq<int>, locals: seq<nat>, nodeSize: nat, unique: seq<int>, p: nat, q: nat, x: int)
    requires Gathered(nodes, leaders, locals, nodeSize) && Leaders(leaders, unique) && p < |nodes| && q < |nodes|
    requires PlaceOf(leaders, unique, locals, nodeSize, p, x) && PlaceOf(leaders, unique, locals, nodeSize, q, x)
    ensures p == q
  {
    var i: nat :| NodeId(leaders, unique, p, i) && x == i * nodeSize + locals[p];
    var j: nat :| NodeId(leaders, unique, q, j) && x == j * nodeSize + locals[q];
    LocalBelowSize(nodes, p);
    LocalBelowSize(nodes, q);
    DigitsUnique(nodeSize, i, locals[p], j, locals[q]);
    SameLeaderSameNode(nodes, leaders, locals, nodeSize, p, q);
    if p < q {
      LocalDistinct(nodes, p, q);
    } else if q < p {
      LocalDistinct(nodes, q, p);
    }
  }

  lemma PlaceBelow(nodes: seq<nat>, leaders: seq<int>, locals: seq<nat>, nodeSize: nat, unique: seq<int>, p: nat, x: int)
    requires Gathered(nodes, leaders, locals, nodeSize) && Leaders(leaders, unique)
    requires PlaceOf(leaders, unique, locals, nodeSize, p, x)
    ensures 0 <= x < |unique| * nodeSize
  {
    var i: nat :| NodeId(leaders, unique, p, i) && x == i * nodeSize + locals[p];
    LocalBelowSize(nodes, p);
    DigitBound(i, locals[p], |unique|, nodeSize);
  }

  lemma PlaceTaken(nodes: seq<nat>, leaders: seq<int>, locals: seq<nat>, nodeSize: nat, unique: seq<int>, x: nat) returns (p: nat)
    requires Gathered(nodes, leaders, locals, nodeSize) && Leaders(leaders, unique) && x < |unique| * nodeSize
    ensures p < |nodes| && PlaceOf(leaders, unique, locals, nodeSize, p, x)
  {
    var id, k := SplitIndex(x, |unique|, nodeSize);
    assert Occurs(leaders, unique[id]);
    var q :| 0 <= q < |leaders| && leaders[q] == unique[id];
    assert NodeSize(nodes, q) == nodeSize;
    p := MemberAt(nodes, nodes[q], k, |nodes|);
    SameLeaderSameNode(nodes, leaders, locals, nodeSize, p, q);
    assert NodeId(leaders, unique, p, id);
  }

  /** As many ranks as places. */
  lemma AsManyPlaces(nodes: seq<nat>, leaders: seq<int>, locals: seq<nat>, nodeSize: nat, unique: seq<int>)
    requires Gathered(nodes, leaders, locals, nodeSize) && Leaders(leaders, unique)
    ensures |unique| * nodeSize == |nodes|
  {
    hide PlaceOf, Gathered;
    var places := |unique| * nodeSize;
    MulMonotone(0, |unique|, nodeSize);
    var table := RanksByPlace(nodes, leaders, locals, nodeSize, unique, places);
    TableDistinct(leaders, unique, locals, nodeSize, table);
    forall p: nat | p < |nodes| ensures p in table {
      TableHas(nodes, leaders, locals, nodeSize, unique, table, p);
    }
    AllBelow(table, |nodes|);
  }

  /** Distinct numbers that are exactly those below n are n many. */
  lemma AllBelow(table: seq<nat>, n: nat)
    requires Distinct(table) && forall p: nat :: p < n <==> p in table
    ensures |table| == n
  {
    BelowMembers(n);
    SetSize(table, Below(n));
  }

  lemma SetSize<T>(s: seq<T>, members: set<T>)
    requires Distinct(s) && forall x :: x in members <==> x in s
    ensures |members| == |s|
  {
    DistinctCardinality(s);
    assert members == set x | x in s;
  }

  lemma TableDistinct(leaders: seq<int>, unique: seq<int>, locals: seq<nat>, nodeSize: nat, table: seq<nat>)
    requires StrictlyAscending(unique)
    requires forall x :: 0 <= x < |table| ==> PlaceOf(leaders, unique, locals, nodeSize, table[x], x)
    ensures Distinct(table)
  {
    hide PlaceOf;
    forall x, y | 0 <= x < y < |table| ensures table[x] != table[y] {
      if table[x] == table[y] {
        PlaceUnique(leaders, unique, locals, nodeSize, table[x], x, y);
      }
    }
  }

  lemma TableHas(nodes: seq<nat>, leaders: seq<int>, locals: seq<nat>, nodeSize: nat, unique: seq<int>, table: seq<nat>, p: nat)
    requires Gathered(nodes, leaders, locals, nodeSize) && Leaders(leaders, unique) && p < |nodes|
    requires |table| == |unique| * nodeSize
    requires forall x :: 0 <= x < |table| ==> table[x] < |nodes| && PlaceOf(leaders, unique, locals, nodeSize, table[x], x)
    ensures p in table
  {
    hide PlaceOf, Gathered, Leaders;
    var x := APlace(nodes, leaders, locals, nodeSize, unique, p);
    PlaceBelow(nodes, leaders, locals, nodeSize, unique, p, x);
    PlacesDiffer(nodes, leaders, locals, nodeSize, unique, p, table[x], x);
  }

  lemma PlaceUnique(leaders: seq<int>, unique: seq<int>, locals: seq<nat>, nodeSize: nat, p: nat, x: int, y: int)
    requires StrictlyAscending(unique)
    requires PlaceOf(leaders, unique, locals, nodeSize, p, x) && PlaceOf(leaders, unique, locals, nodeSize, p, y)
    ensures x == y
  {
    var i: nat :| NodeId(leaders, unique, p, i) && x == i * nodeSize + locals[p];
    var j: nat :| NodeId(leaders, unique, p, j) && y == j * nodeSize + locals[p];
    assert i == j;
  }

  lemma APlace(nodes: seq<nat>, leaders: seq<int>, locals: seq<nat>, nodeSize: nat, unique: seq<int>, p: nat) returns (x: int)
    requires Gathered(nodes, leaders, locals, nodeSize) && Leaders(leaders, unique) && p < |nodes|
    ensures PlaceOf(leaders, unique, locals, nodeSize, p, x)
  {
    var id := LeaderIndex(leaders, unique, p);
    assert NodeId(leaders, unique, p, id);
    x := id * nodeSize + locals[p];
  }

  lemma SomeRankInPlace(nodes: seq<nat>, leaders: seq<int>, locals: seq<nat>, nodeSize: nat, unique: seq<int>, x: nat)
    requires Gathered(nodes, leaders, locals, nodeSize) && Leaders(leaders, unique) && x < |unique| * nodeSize
    ensures exists p: nat :: p < |nodes| && PlaceOf(leaders, unique, locals, nodeSize, p, x)
  {
    var p := PlaceTaken(nodes, leaders, locals, nodeSize, unique, x);
  }

  ghost function RankInPlace(nodes: seq<nat>, leaders: seq<int>, locals: seq<nat>, nodeSize: nat, unique: seq<int>, x: nat): (p: nat)
    requires Gathered(nodes, leaders, locals, nodeSize) && Leaders(leaders, unique) && x < |unique| * nodeSize
    ensures p < |nodes| && PlaceOf(leaders, unique, locals, nodeSize, p, x)
  {
    SomeRankInPlace(nodes, leaders, locals, nodeSize, unique, x);
    var p: nat :| p < |nodes| && PlaceOf(leaders, unique, locals, nodeSize, p, x);
    p
  }

  ghost function RanksByPlace(nodes: seq<nat>, leaders: seq<int>, locals: seq<nat>, nodeSize: nat, unique: seq<int>, n: nat)
    : (table: seq<nat>)
    requires Gathered(nodes, leaders, locals, nodeSize) && Leaders(leaders, unique) && n <= |unique| * nodeSize
    ensures |table| == n && forall x :: 0 <= x < n ==> table[x] < |nodes| && PlaceOf(leaders, unique, locals, nodeSize, table[x], x)
  {
    if n == 0 then []
    else RanksByPlace(nodes, leaders, locals, nodeSize, unique, n - 1)
         + [RankInPlace(nodes, leaders, locals, nodeSize, unique, n - 1)]
  }

  // ----- construction

  /** The square root, cut to an integer. */
  function FloorRoot(n: nat): (root: nat)
    ensures root * root <= n < (root + 1) * (root + 1)
  {
    if n == 0 then 0
    else
      var root := FloorRoot(n - 1);
      if (root + 1) * (root + 1) <= n then root + 1 else root
  }

  lemma RootOfSquare(side: nat, n: nat)
    requires side * side == n
    ensures FloorRoot(n) == side
  {
    var root := FloorRoot(n);
    if root < side {
      Squares(root + 1, side);
    } else if side < root {
      Squares(side + 1, root);
    }
  }

  lemma Squares(a: nat, b: nat)
    requires a <= b
    ensures a * a <= b * b
  {
    MulMonotone(a, b, a);
    MulMonotone(a, b, b);
  }

  ghost predicate SameSizes(sizes: seq<nat>) {
    forall p :: 0 <= p < |sizes| ==> sizes[p] == sizes[0]
  }

  ghost predicate SquareOfNodes(ranks: nat, nodeSize: nat) {
    exists side: nat :: side * side * nodeSize == ranks
  }

  /** The ranks of a node share (i, j) and have their local rank as k; other nodes have other (i, j). */
  ghost predicate Placed(grid: ProcessGrid, nodes: seq<nat>)
    requires grid.Valid() && |grid.coordinateRanks| == |nodes|
  {
    && (forall i: nat, j: nat, k: nat | grid.Coordinates(i, j, k) :: LocalRank(nodes, grid.RankAt(i, j, k)) == k)
    && forall i: nat, j: nat, k: nat, i': nat, j': nat, k': nat | grid.Coordinates(i, j, k) && grid.Coordinates(i', j', k') ::
         nodes[grid.RankAt(i, j, k)] == nodes[grid.RankAt(i', j', k')] <==> i == i' && j == j'
  }

  /** Refuses uneven nodes and numbers of nodes that are no square; otherwise every rank gets the place of
      its node and its own within it. */
  method ConstructGrid(nodes: seq<nat>, leaders: seq<int>, locals: seq<nat>, sizes: seq<nat>) returns (grid: Result<ProcessGrid>)
    requires |nodes| > 0 && |leaders| == |locals| == |sizes| == |nodes|
    requires forall p :: 0 <= p < |nodes| ==> leaders[p] >= 0 && IsLeader(nodes, p, leaders[p])
    requires forall p :: 0 <= p < |nodes| ==> locals[p] == LocalRank(nodes, p) && sizes[p] == NodeSize(nodes, p)
    ensures grid.Ok? <==> SameSizes(sizes) && SquareOfNodes(|nodes|, sizes[0])
    ensures grid.Ok? ==> grid.value.nodeSize == sizes[0] && grid.value.Valid() && |grid.value.coordinateRanks| == |nodes|
    ensures grid.Ok? ==> Placed(grid.value, nodes)
  {
    hide FloorRoot, LocalRank, NodeSize, PlaceOf, Placed, IsLeader;
    var same := AllEqual(sizes);
    if !same {
      return Error("Trident requires the same number of MPI ranks on every node");
    }
    var nodeSize := sizes[0];
    SizesPositive(nodes, nodeSize);
    var unique := SortedUnique(leaders);
    AsManyPlaces(nodes, leaders, locals, nodeSize, unique);
    ModUnique(|nodes|, |unique|, 0, nodeSize);
    var nodeCount := |nodes| / nodeSize;
    var side := FloorRoot(nodeCount);
    SquareOrNot(|nodes|, nodeSize, nodeCount, side);
    if side * side != nodeCount {
      return Error("Trident requires a square number of nodes (1, 4, 9, ...)");
    }
    var coordinateRanks := FillCoordinates(nodes, leaders, locals, nodeSize, unique);
    SideIsPositive(side, nodeSize, |nodes|);
    TableDistinct(leaders, unique, locals, nodeSize, coordinateRanks);
    var result := ProcessGrid(side, nodeSize, coordinateRanks);
    RanksArePlaced(nodes, leaders, locals, unique, result);
    grid := Ok(result);
  }

  method AllEqual(sizes: seq<nat>) returns (same: bool)
    requires |sizes| > 0
    ensures same <==> SameSizes(sizes)
  {
    var low, high := sizes[0], sizes[0];
    for p := 0 to |sizes|
      invariant low <= sizes[0] <= high
      invariant forall q :: 0 <= q < p ==> low <= sizes[q] <= high
      invariant (low == sizes[0] || exists q :: 0 <= q < p && sizes[q] == low)
      invariant (high == sizes[0] || exists q :: 0 <= q < p && sizes[q] == high)
    {
      if sizes[p] < low {
        low := sizes[p];
      }
      if sizes[p] > high {
        high := sizes[p];
      }
    }
    same := low == high;
  }

  lemma SizesPositive(nodes: seq<nat>, nodeSize: nat)
    requires |nodes| > 0 && nodeSize == NodeSize(nodes, 0)
    ensures nodeSize > 0
  {
    LocalBelowSize(nodes, 0);
  }

  lemma SquareOrNot(ranks: nat, nodeSize: nat, nodeCount: nat, side: nat)
    requires nodeSize > 0 && nodeCount * nodeSize == ranks && side == FloorRoot(nodeCount)
    ensures side * side == nodeCount <==> SquareOfNodes(ranks, nodeSize)
  {
    hide FloorRoot;
    if SquareOfNodes(ranks, nodeSize) {
      var other: nat :| other * other * nodeSize == ranks;
      DigitsUnique(nodeSize, other * other, 0, nodeCount, 0);
      RootOfSquare(other, nodeCount);
    }
  }

  lemma SideIsPositive(side: nat, nodeSize: nat, ranks: nat)
    requires side * side * nodeSize == ranks > 0
    ensures side > 0
  {
  }

  /** Each rank stores itself at its place. */
  method FillCoordinates(nodes: seq<nat>, leaders: seq<int>, locals: seq<nat>, nodeSize: nat, unique: seq<int>)
    returns (coordinateRanks: seq<nat>)
    requires Gathered(nodes, leaders, locals, nodeSize) && Leaders(leaders, unique) && |unique| * nodeSize == |nodes|
    ensures |coordinateRanks| == |nodes|
    ensures forall x :: 0 <= x < |nodes| ==>
      coordinateRanks[x] < |nodes| && PlaceOf(leaders, unique, locals, nodeSize, coordinateRanks[x], x)
  {
    hide PlaceOf, Gathered, IsLeader;
    GatheredLengths(nodes, leaders, locals, nodeSize);
    coordinateRanks := seq(|nodes|, _ => 0);
    for p := 0 to |nodes|
      invariant |coordinateRanks| == |nodes|
      invariant forall q, x :: 0 <= q < p && 0 <= x < |nodes| && PlaceOf(leaders, unique, locals, nodeSize, q, x) ==> coordinateRanks[x] == q
    {
      var nodeId := LowerBound(unique, leaders[p]);
      ThisPlace(leaders, unique, locals, nodeSize, p, nodeId);
      var x := nodeId * nodeSize + locals[p];
      PlaceBelow(nodes, leaders, locals, nodeSize, unique, p, x);
      forall q | 0 <= q < p && PlaceOf(leaders, unique, locals, nodeSize, q, x) ensures false {
        PlacesDiffer(nodes, leaders, locals, nodeSize, unique, p, q, x);
      }
      forall y | PlaceOf(leaders, unique, locals, nodeSize, p, y) ensures y == x {
        PlaceUnique(leaders, unique, locals, nodeSize, p, x, y);
      }
      coordinateRanks := coordinateRanks[x := p];
    }
    forall x | 0 <= x < |nodes|
      ensures coordinateRanks[x] < |nodes| && PlaceOf(leaders, unique, locals, nodeSize, coordinateRanks[x], x)
    {
      var p := PlaceTaken(nodes, leaders, locals, nodeSize, unique, x);
    }
  }

  lemma GatheredLengths(nodes: seq<nat>, leaders: seq<int>, locals: seq<nat>, nodeSize: nat)
    requires Gathered(nodes, leaders, locals, nodeSize)
    ensures |leaders| == |locals| == |nodes|
  {
  }

  lemma ThisPlace(leaders: seq<int>, unique: seq<int>, locals: seq<nat>, nodeSize: nat, p: nat, nodeId: nat)
    requires Leaders(leaders, unique) && p < |leaders| == |locals| && nodeId <= |unique|
    requires forall i :: 0 <= i < nodeId ==> unique[i] < leaders[p]
    requires forall i :: nodeId <= i < |unique| ==> leaders[p] <= unique[i]
    ensures nodeId < |unique| && PlaceOf(leaders, unique, locals, nodeSize, p, nodeId * nodeSize + locals[p])
  {
    var id := LeaderIndex(leaders, unique, p);
    assert NodeId(leaders, unique, p, nodeId);
  }

  lemma LeaderIndex(leaders: seq<int>, unique: seq<int>, p: nat) returns (id: nat)
    requires Leaders(leaders, unique) && p < |leaders|
    ensures id < |unique| && unique[id] == leaders[p]
  {
    assert Occurs(unique, leaders[p]);
    id :| id < |unique| && unique[id] == leaders[p];
  }

  lemma WhereItIs(leaders: seq<int>, unique: seq<int>, locals: seq<nat>, grid: ProcessGrid, i: nat, j: nat, k: nat)
    requires grid.Valid() && grid.Coordinates(i, j, k) && |leaders| == |locals| == |grid.coordinateRanks|
    requires var x := (i * grid.side + j) * grid.nodeSize + k;
             PlaceOf(leaders, unique, locals, grid.nodeSize, grid.RankAt(i, j, k), x)
    requires locals[grid.RankAt(i, j, k)] < grid.nodeSize
    ensures locals[grid.RankAt(i, j, k)] == k
    ensures NodeId(leaders, unique, grid.RankAt(i, j, k), i * grid.side + j)
  {
    var p := grid.RankAt(i, j, k);
    var id: nat :| NodeId(leaders, unique, p, id) && (i * grid.side + j) * grid.nodeSize + k == id * grid.nodeSize + locals[p];
    DigitsUnique(grid.nodeSize, i * grid.side + j, k, id, locals[p]);
  }

  lemma RanksArePlaced(nodes: seq<nat>, leaders: seq<int>, locals: seq<nat>, unique: seq<int>, grid: ProcessGrid)
    requires Gathered(nodes, leaders, locals, grid.nodeSize) && Leaders(leaders, unique)
    requires grid.Valid() && |grid.coordinateRanks| == |nodes|
    requires forall x :: 0 <= x < |nodes| ==> PlaceOf(leaders, unique, locals, grid.nodeSize, grid.coordinateRanks[x], x)
    ensures Placed(grid, nodes)
  {
    hide PlaceOf, Gathered, IsLeader, LocalRank, NodeSize, Leaders, NodeId;
    forall i: nat, j: nat, k: nat | grid.Coordinates(i, j, k) ensures LocalRank(nodes, grid.RankAt(i, j, k)) == k {
      RankIsPlaced(nodes, leaders, locals, unique, grid, i, j, k);
    }
    forall i: nat, j: nat, k: nat, i': nat, j': nat, k': nat | grid.Coordinates(i, j, k) && grid.Coordinates(i', j', k')
      ensures nodes[grid.RankAt(i, j, k)] == nodes[grid.RankAt(i', j', k')] <==> i == i' && j == j'
    {
      RankIsPlaced(nodes, leaders, locals, unique, grid, i, j, k);
      RankIsPlaced(nodes, leaders, locals, unique, grid, i', j', k');
      SameNodeSamePlace(nodes, leaders, locals, unique, grid, grid.RankAt(i, j, k), grid.RankAt(i', j', k'), i, j, i', j');
    }
  }

  lemma SameNodeSamePlace(nodes: seq<nat>, leaders: seq<int>, locals: seq<nat>, unique: seq<int>, grid: ProcessGrid,
                          p: nat, q: nat, i: nat, j: nat, i': nat, j': nat)
    requires Gathered(nodes, leaders, locals, grid.nodeSize) && Leaders(leaders, unique) && p < |nodes| && q < |nodes|
    requires j < grid.side && j' < grid.side
    requires NodeId(leaders, unique, p, i * grid.side + j) && NodeId(leaders, unique, q, i' * grid.side + j')
    ensures nodes[p] == nodes[q] <==> i == i' && j == j'
  {
    SameLeaderSameNode(nodes, leaders, locals, grid.nodeSize, p, q);
    SamePosition(unique, i * grid.side + j, i' * grid.side + j');
    if i * grid.side + j == i' * grid.side + j' {
      DigitsUnique(grid.side, i, j, i', j');
    }
  }

  lemma SamePosition(unique: seq<int>, x: nat, y: nat)
    requires StrictlyAscending(unique)
    ensures x < |unique| && y < |unique| ==> (unique[x] == unique[y] <==> x == y)
  {
  }

  lemma RankIsPlaced(nodes: seq<nat>, leaders: seq<int>, locals: seq<nat>, unique: seq<int>, grid: ProcessGrid, i: nat, j: nat, k: nat)
    requires Gathered(nodes, leaders, locals, grid.nodeSize) && Leaders(leaders, unique)
    requires grid.Valid() && |grid.coordinateRanks| == |nodes| && grid.Coordinates(i, j, k)
    requires forall x :: 0 <= x < |nodes| ==> PlaceOf(leaders, unique, locals, grid.nodeSize, grid.coordinateRanks[x], x)
    ensures LocalRank(nodes, grid.RankAt(i, j, k)) == k
    ensures NodeId(leaders, unique, grid.RankAt(i, j, k), i * grid.side + j)
  {
    hide PlaceOf;
    var p := grid.RankAt(i, j, k);
    IndexBound(grid.side, grid.nodeSize, i, j, k);
    LocalBelowSize(nodes, p);
    WhereItIs(leaders, unique, locals, grid, i, j, k);
  }
}
