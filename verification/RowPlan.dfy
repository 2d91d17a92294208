/** Row-distributed baselines: which remote rows of B a rank needs, and in which halo slots. */
module RowPlan {
  import opened Csr
  import opened Partition

  datatype RemoteRowPlan =
    RemoteRowPlan(rowsByPeer: seq<seq<int>>, peerOffsets: seq<nat>, flatRows: seq<int>, rowToSlot: map<int, nat>)

  // ----- sort and unique

  /** The first n elements without those equal to their predecessor. */
  function UniqueBefore(s: seq<int>, n: nat): seq<int>
    requires n <= |s|
  {
    if n == 0 then []
    else if n >= 2 && s[n - 2] == s[n - 1] then UniqueBefore(s, n - 1)
    else UniqueBefore(s, n - 1) + [s[n - 1]]
  }

  /** std::unique */
  function Unique(s: seq<int>): seq<int> {
    UniqueBefore(s, |s|)
  }

  /** On a sorted vector std::unique keeps every element exactly once. */
  lemma {:induction false} UniqueKeepsAll(s: seq<int>, n: nat)
    requires Ascending(s) && n <= |s|
    ensures StrictlyAscending(UniqueBefore(s, n))
    ensures n > 0 ==> UniqueBefore(s, n) != [] && UniqueBefore(s, n)[|UniqueBefore(s, n)| - 1] == s[n - 1]
    ensures forall c :: c in UniqueBefore(s, n) <==> c in s[..n]
  {
    if n > 0 {
      UniqueKeepsAll(s, n - 1);
      assert s[..n] == s[..n - 1] + [s[n - 1]];
    }
  }

  // ----- the flat list of slots

  ghost function FlatBefore(rowsByPeer: seq<seq<int>>, n: nat): seq<int>
    requires n <= |rowsByPeer|
  {
    if n == 0 then [] else FlatBefore(rowsByPeer, n - 1) + rowsByPeer[n - 1]
  }

  lemma {:induction false} FlatMonotone(rowsByPeer: seq<seq<int>>, m: nat, n: nat)
    requires m <= n <= |rowsByPeer|
    ensures |FlatBefore(rowsByPeer, m)| <= |FlatBefore(rowsByPeer, n)|
    ensures FlatBefore(rowsByPeer, m) == FlatBefore(rowsByPeer, n)[..|FlatBefore(rowsByPeer, m)|]
  {
    if m < n {
      FlatMonotone(rowsByPeer, m, n - 1);
    }
  }

  lemma {:induction false} FlatLonger(rowsByPeer: seq<seq<int>>, m: nat, n: nat)
    requires m <= n <= |rowsByPeer|
    ensures |FlatBefore(rowsByPeer, m)| <= |FlatBefore(rowsByPeer, n)|
  {
    if m < n {
      FlatLonger(rowsByPeer, m, n - 1);
    }
  }

  /** Row `index` of a peer sits in slot peerOffset + index. */
  lemma FlatAt(rowsByPeer: seq<seq<int>>, peer: nat, index: nat)
    requires peer < |rowsByPeer| && index < |rowsByPeer[peer]|
    ensures |FlatBefore(rowsByPeer, peer)| + index < |FlatBefore(rowsByPeer, |rowsByPeer|)|
    ensures FlatBefore(rowsByPeer, |rowsByPeer|)[|FlatBefore(rowsByPeer, peer)| + index] == rowsByPeer[peer][index]
  {
    FlatMonotone(rowsByPeer, peer + 1, |rowsByPeer|);
    assert FlatBefore(rowsByPeer, peer + 1)[|FlatBefore(rowsByPeer, peer)| + index] == rowsByPeer[peer][index];
  }

  /** Every slot belongs to a peer. */
  lemma {:induction false} SlotPeer(rowsByPeer: seq<seq<int>>, n: nat, slot: nat) returns (peer: nat, index: nat)
    requires n <= |rowsByPeer| && slot < |FlatBefore(rowsByPeer, n)|
    ensures peer < n && index < |rowsByPeer[peer]| && slot == |FlatBefore(rowsByPeer, peer)| + index
    ensures FlatBefore(rowsByPeer, n)[slot] == rowsByPeer[peer][index]
  {
    if slot < |FlatBefore(rowsByPeer, n - 1)| {
      peer, index := SlotPeer(rowsByPeer, n - 1, slot);
    } else {
      peer, index := n - 1, slot - |FlatBefore(rowsByPeer, n - 1)|;
    }
  }

  // ----- what a plan promises

  /** Peer p's rows: the columns of A it owns, each once, ascending; none for the rank itself. */
  ghost predicate PeerRows(rows: seq<int>, columns: seq<int>, total: nat, ranks: nat, rank: nat, p: nat)
    requires ranks > 0
  {
    StrictlyAscending(rows) && forall c :: c in rows <==> c in columns && p != rank && InBlock(total, ranks, p, c)
  }

  ghost predicate SlotsOk(flatRows: seq<int>, rowToSlot: map<int, nat>) {
    && (forall c :: c in rowToSlot <==> c in flatRows)
    && (forall slot :: 0 <= slot < |flatRows| ==> rowToSlot[flatRows[slot]] == slot)
  }

  ghost predicate PlanOk(plan: RemoteRowPlan, columns: seq<int>, total: nat, ranks: nat, rank: nat)
    requires ranks > 0
  {
    && |plan.rowsByPeer| == ranks
    && (forall p :: 0 <= p < ranks ==> PeerRows(plan.rowsByPeer[p], columns, total, ranks, rank, p))
    && |plan.peerOffsets| == ranks + 1
    && (forall p :: 0 <= p <= ranks ==> plan.peerOffsets[p] == |FlatBefore(plan.rowsByPeer, p)|)
    && plan.flatRows == FlatBefore(plan.rowsByPeer, ranks)
    && SlotsOk(plan.flatRows, plan.rowToSlot)
  }

  /** A plan has a slot for exactly the columns of A that other ranks own. */
  lemma PlanCoversExactly(plan: RemoteRowPlan, columns: seq<int>, total: nat, ranks: nat, rank: nat, c: int)
    requires ranks > 0 && PlanOk(plan, columns, total, ranks, rank)
    requires forall x :: x in columns ==> 0 <= x < total
    ensures c in plan.rowToSlot <==> c in columns && !InBlock(total, ranks, rank, c)
  {
    if c in plan.flatRows {
      var slot :| 0 <= slot < |plan.flatRows| && plan.flatRows[slot] == c;
      var p, index := SlotPeer(plan.rowsByPeer, ranks, slot);
      assert PeerRows(plan.rowsByPeer[p], columns, total, ranks, rank, p) && c in plan.rowsByPeer[p];
      if InBlock(total, ranks, rank, c) {
        InOneBlock(total, ranks, p, rank, c);
      }
    }
    if c in columns && !InBlock(total, ranks, rank, c) {
      var p := BlocksPartition(total, ranks, c);
      assert PeerRows(plan.rowsByPeer[p], columns, total, ranks, rank, p);
      assert c in plan.rowsByPeer[p];
      var index :| 0 <= index < |plan.rowsByPeer[p]| && plan.rowsByPeer[p][index] == c;
      FlatAt(plan.rowsByPeer, p, index);
    }
  }

  lemma PlanShape(plan: RemoteRowPlan, columns: seq<int>, total: nat, ranks: nat, rank: nat)
    requires ranks > 0 && PlanOk(plan, columns, total, ranks, rank)
    ensures |plan.rowsByPeer| == ranks && |plan.peerOffsets| == ranks + 1
    ensures plan.peerOffsets[0] == 0 && plan.peerOffsets[ranks] == |plan.flatRows|
    ensures forall p :: 0 <= p < ranks ==> plan.peerOffsets[p] + |plan.rowsByPeer[p]| == plan.peerOffsets[p + 1]
  {
  }

  lemma SlotOfPlan(plan: RemoteRowPlan, columns: seq<int>, total: nat, ranks: nat, rank: nat, s: nat) returns (p: nat, x: nat)
    requires ranks > 0 && PlanOk(plan, columns, total, ranks, rank) && s < |plan.flatRows|
    ensures p < ranks && x < |plan.rowsByPeer[p]| && s == plan.peerOffsets[p] + x && plan.flatRows[s] == plan.rowsByPeer[p][x]
  {
    p, x := SlotPeer(plan.rowsByPeer, ranks, s);
  }

  /** The slots of a peer end before those of any later peer begin. */
  lemma PeersApart(plan: RemoteRowPlan, columns: seq<int>, total: nat, ranks: nat, rank: nat, p: nat, q: nat)
    requires ranks > 0 && PlanOk(plan, columns, total, ranks, rank) && p < q <= ranks
    ensures plan.peerOffsets[p] + |plan.rowsByPeer[p]| == plan.peerOffsets[p + 1] <= plan.peerOffsets[q] <= |plan.flatRows|
  {
    FlatLonger(plan.rowsByPeer, p + 1, q);
    FlatLonger(plan.rowsByPeer, q, ranks);
  }

  // ----- building it

  /** Columns among the first n that peer p owns, in the order they occur. */
  ghost predicate Collected(rows: seq<int>, columns: seq<int>, n: nat, total: nat, ranks: nat, rank: nat, p: nat)
    requires ranks > 0 && n <= |columns|
  {
    forall c :: c in rows <==> c in columns[..n] && p != rank && InBlock(total, ranks, p, c)
  }

  lemma CollectedOneMore(rows: seq<int>, columns: seq<int>, n: nat, total: nat, ranks: nat, rank: nat, p: nat, owner: nat)
    requires ranks > 0 && n < |columns| && Collected(rows, columns, n, total, ranks, rank, p)
    requires owner < ranks && InBlock(total, ranks, owner, columns[n])
    ensures Collected(if p == owner && owner != rank then rows + [columns[n]] else rows, columns, n + 1, total, ranks, rank, p)
  {
    assert columns[..n + 1] == columns[..n] + [columns[n]];
    if InBlock(total, ranks, p, columns[n]) {
      InOneBlock(total, ranks, p, owner, columns[n]);
    }
  }

  method CollectByOwner(columns: seq<int>, blocks: seq<RowBlock>, rank: nat, ghost total: nat)
    returns (outcome: Result<seq<seq<int>>>)
    requires |blocks| > 0 && forall t :: 0 <= t < |blocks| ==> blocks[t] == Block(total, |blocks|, t)
    ensures outcome.Ok? <==> forall c :: c in columns ==> 0 <= c < total
    ensures outcome.Ok? ==> |outcome.value| == |blocks| && forall p :: 0 <= p < |blocks| ==>
      Collected(outcome.value[p], columns, |columns|, total, |blocks|, rank, p)
  {
    var rowsByPeer: seq<seq<int>> := seq(|blocks|, _ => []);
    for n := 0 to |columns|
      invariant |rowsByPeer| == |blocks|
      invariant forall c :: c in columns[..n] ==> 0 <= c < total
      invariant forall p :: 0 <= p < |blocks| ==> Collected(rowsByPeer[p], columns, n, total, |blocks|, rank, p)
    {
      var owner := OwnerOfRow(columns[n], blocks, total);
      if owner < 0 {
        assert columns[n] in columns;
        return Error("sparse matrix A contains a column index outside B's row range");
      }
      ghost var before := rowsByPeer;
      if owner != rank {
        rowsByPeer := rowsByPeer[owner := rowsByPeer[owner] + [columns[n]]];
      }
      forall p | 0 <= p < |blocks| ensures Collected(rowsByPeer[p], columns, n + 1, total, |blocks|, rank, p) {
        CollectedOneMore(before[p], columns, n, total, |blocks|, rank, p, owner);
      }
      assert columns[..n + 1] == columns[..n] + [columns[n]];
    }
    assert columns[..|columns|] == columns;
    outcome := Ok(rowsByPeer);
  }

  /** std::sort, then std::unique and erase. */
  method SortUnique(columns: seq<int>) returns (rows: seq<int>)
    ensures StrictlyAscending(rows) && forall c :: c in rows <==> c in columns
  {
    var sorted := SortColumns(columns);
    rows := Unique(sorted);
    UniqueKeepsAll(sorted, |sorted|);
    assert sorted[..|sorted|] == sorted;
  }

  method SortPeers(collected: seq<seq<int>>, columns: seq<int>, rank: nat, ghost total: nat)
    returns (rowsByPeer: seq<seq<int>>, peerOffsets: seq<nat>)
    requires |collected| > 0
    requires forall p :: 0 <= p < |collected| ==> Collected(collected[p], columns, |columns|, total, |collected|, rank, p)
    ensures |rowsByPeer| == |collected| && |peerOffsets| == |collected| + 1
    ensures forall p :: 0 <= p < |collected| ==> PeerRows(rowsByPeer[p], columns, total, |collected|, rank, p)
    ensures forall p :: 0 <= p <= |collected| ==> peerOffsets[p] == |FlatBefore(rowsByPeer, p)|
  {
    rowsByPeer, peerOffsets := [], [];
    var totalRemoteRows: nat := 0;
    assert columns[..|columns|] == columns;
    for peer := 0 to |collected|
      invariant |rowsByPeer| == peer
      invariant OffsetsFor(rowsByPeer, peerOffsets, totalRemoteRows)
      invariant forall p :: 0 <= p < peer ==> PeerRows(rowsByPeer[p], columns, total, |collected|, rank, p)
    {
      var rows := SortUnique(collected[peer]);
      assert Collected(collected[peer], columns, |columns|, total, |collected|, rank, peer);
      OffsetsOneMore(rowsByPeer, peerOffsets, totalRemoteRows, rows);
      rowsByPeer, peerOffsets := rowsByPeer + [rows], peerOffsets + [totalRemoteRows];
      totalRemoteRows := totalRemoteRows + |rows|;
    }
    peerOffsets := peerOffsets + [totalRemoteRows];
  }

  ghost predicate OffsetsFor(rowsByPeer: seq<seq<int>>, peerOffsets: seq<nat>, total: nat) {
    && |peerOffsets| == |rowsByPeer| && total == |FlatBefore(rowsByPeer, |rowsByPeer|)|
    && forall p :: 0 <= p < |rowsByPeer| ==> peerOffsets[p] == |FlatBefore(rowsByPeer, p)|
  }

  lemma OffsetsOneMore(rowsByPeer: seq<seq<int>>, peerOffsets: seq<nat>, total: nat, rows: seq<int>)
    requires OffsetsFor(rowsByPeer, peerOffsets, total)
    ensures OffsetsFor(rowsByPeer + [rows], peerOffsets + [total], total + |rows|)
  {
    forall p | 0 <= p <= |rowsByPeer| ensures FlatBefore(rowsByPeer + [rows], p) == FlatBefore(rowsByPeer, p) {
      FlatPrefix(rowsByPeer, rows, p);
    }
  }

  lemma {:induction false} FlatPrefix(rowsByPeer: seq<seq<int>>, more: seq<int>, n: nat)
    requires n <= |rowsByPeer|
    ensures FlatBefore(rowsByPeer + [more], n) == FlatBefore(rowsByPeer, n)
  {
    if n > 0 {
      FlatPrefix(rowsByPeer, more, n - 1);
    }
  }

  /** Rows of different peers differ, rows of one peer are strictly ascending: no row occurs twice. */
  lemma FlatDistinct(rowsByPeer: seq<seq<int>>, columns: seq<int>, total: nat, rank: nat)
    requires |rowsByPeer| > 0
    requires forall p :: 0 <= p < |rowsByPeer| ==> PeerRows(rowsByPeer[p], columns, total, |rowsByPeer|, rank, p)
    ensures Distinct(FlatBefore(rowsByPeer, |rowsByPeer|))
  {
    var flat := FlatBefore(rowsByPeer, |rowsByPeer|);
    forall i, j | 0 <= i < j < |flat| ensures flat[i] != flat[j] {
      var p, x := SlotPeer(rowsByPeer, |rowsByPeer|, i);
      var q, y := SlotPeer(rowsByPeer, |rowsByPeer|, j);
      assert PeerRows(rowsByPeer[p], columns, total, |rowsByPeer|, rank, p);
      assert PeerRows(rowsByPeer[q], columns, total, |rowsByPeer|, rank, q);
      assert flat[i] in rowsByPeer[p] && flat[j] in rowsByPeer[q];
      if flat[i] == flat[j] {
        InOneBlock(total, |rowsByPeer|, p, q, flat[i]);
      }
    }
  }

  method NumberPeer(rows: seq<int>, flatRows0: seq<int>, rowToSlot0: map<int, nat>)
    returns (flatRows: seq<int>, rowToSlot: map<int, nat>)
    requires SlotsOk(flatRows0, rowToSlot0) && Distinct(flatRows0 + rows)
    ensures flatRows == flatRows0 + rows && SlotsOk(flatRows, rowToSlot)
  {
    flatRows, rowToSlot := flatRows0, rowToSlot0;
    for index := 0 to |rows|
      invariant flatRows == flatRows0 + rows[..index] && SlotsOk(flatRows, rowToSlot)
    {
      var row, slot := rows[index], |flatRows|;
      assert (flatRows0 + rows)[slot] == row && (flatRows0 + rows)[..slot] == flatRows;
      NotYetNumbered(flatRows0 + rows, slot);
      rowToSlot := if row in rowToSlot then rowToSlot else rowToSlot[row := slot];
      flatRows := flatRows + [row];
    }
  }

  lemma DistinctPrefix(rowsByPeer: seq<seq<int>>, n: nat)
    requires n <= |rowsByPeer| && Distinct(FlatBefore(rowsByPeer, |rowsByPeer|))
    ensures Distinct(FlatBefore(rowsByPeer, n))
  {
    FlatMonotone(rowsByPeer, n, |rowsByPeer|);
  }

  method NumberSlots(rowsByPeer: seq<seq<int>>) returns (flatRows: seq<int>, rowToSlot: map<int, nat>)
    requires Distinct(FlatBefore(rowsByPeer, |rowsByPeer|))
    ensures flatRows == FlatBefore(rowsByPeer, |rowsByPeer|) && SlotsOk(flatRows, rowToSlot)
  {
    flatRows, rowToSlot := [], map[];
    for peer := 0 to |rowsByPeer|
      invariant flatRows == FlatBefore(rowsByPeer, peer) && SlotsOk(flatRows, rowToSlot)
    {
      DistinctPrefix(rowsByPeer, peer + 1);
      flatRows, rowToSlot := NumberPeer(rowsByPeer[peer], flatRows, rowToSlot);
    }
  }

  lemma NotYetNumbered(all: seq<int>, slot: nat)
    requires Distinct(all) && slot < |all|
    ensures all[slot] !in all[..slot]
  {
  }

  method BuildRemoteRowPlan(columns: seq<int>, blocks: seq<RowBlock>, rank: nat, ghost total: nat)
    returns (plan: Result<RemoteRowPlan>)
    requires |blocks| > 0 && forall t :: 0 <= t < |blocks| ==> blocks[t] == Block(total, |blocks|, t)
    ensures plan.Ok? <==> forall c :: c in columns ==> 0 <= c < total
    ensures plan.Ok? ==> PlanOk(plan.value, columns, total, |blocks|, rank)
  {
    var collected := CollectByOwner(columns, blocks, rank, total);
    if collected.Error? {
      return Error(collected.message);
    }
    var rowsByPeer, peerOffsets := SortPeers(collected.value, columns, rank, total);
    FlatDistinct(rowsByPeer, columns, total, rank);
    var flatRows, rowToSlot := NumberSlots(rowsByPeer);
    plan := Ok(RemoteRowPlan(rowsByPeer, peerOffsets, flatRows, rowToSlot));
  }
}
