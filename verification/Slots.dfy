/** Rows laid out one after another in two arrays: a slot is where one of them lies. */
module Slots {
  import opened Csr

  /** The entries of a row from position `at` on. */
  ghost predicate FilledAt(columns: seq<int>, values: seq<Value>, at: nat, row: Row) {
    && at + |row| <= |columns| == |values|
    && forall q :: 0 <= q < |row| ==> columns[at + q] == row[q].column && values[at + q] == row[q].value
  }

  ghost predicate FilledSlot(columns: seq<int>, values: seq<Value>, rows: seq<Row>, s: nat)
    requires s < |rows|
  {
    FilledAt(columns, values, |Flatten(rows, s)|, rows[s])
  }

  /** Every position lies in a slot. */
  lemma {:induction false} SlotOfPosition(rows: seq<Row>, n: nat, p: nat) returns (s: nat)
    requires n <= |rows| && p < |Flatten(rows, n)|
    ensures s < n && |Flatten(rows, s)| <= p < |Flatten(rows, s)| + |rows[s]|
  {
    if p < |Flatten(rows, n - 1)| {
      s := SlotOfPosition(rows, n - 1, p);
    } else {
      s := n - 1;
    }
  }

  lemma AllFilled(rowPtr: seq<nat>, columns: seq<int>, values: seq<Value>, rows: seq<Row>)
    requires |columns| == |values| == |Flatten(rows, |rows|)|
    requires forall s :: 0 <= s < |rows| ==> FilledSlot(columns, values, rows, s)
    requires |rowPtr| == |rows| + 1 && forall s :: 0 <= s <= |rows| ==> rowPtr[s] == |Flatten(rows, s)|
    ensures Hold(rowPtr, columns, values, rows, |rows|)
  {
    var all := Flatten(rows, |rows|);
    forall p | 0 <= p < |all| ensures columns[p] == all[p].column && values[p] == all[p].value {
      var s := SlotOfPosition(rows, |rows|, p);
      FlattenAt(rows, s, p - |Flatten(rows, s)|);
      assert FilledSlot(columns, values, rows, s);
    }
  }

  /** A slot ends before every later slot begins. */
  lemma {:induction false} SlotEnds(rows: seq<Row>, s: nat, t: nat)
    requires s < t <= |rows|
    ensures |Flatten(rows, s)| + |rows[s]| <= |Flatten(rows, t)|
  {
    if s < t - 1 {
      SlotEnds(rows, s, t - 1);
    }
  }

  /** Copying a row to a position fills it and disturbs nothing before or after. */
  lemma CopyFillsAt(columns: seq<int>, values: seq<Value>, at: nat, row: Row, first: nat, other: Row)
    requires at + |row| <= |columns| == |values|
    requires first + |other| <= at || at + |row| <= first || (first == at && other == row)
    ensures FilledAt(CopyAt(columns, at, Columns(row)), CopyAt(values, at, Values(row)), at, row)
    ensures FilledAt(columns, values, first, other) ==>
            FilledAt(CopyAt(columns, at, Columns(row)), CopyAt(values, at, Values(row)), first, other)
  {
  }

  /** Copying a slot's row to its offset fills it and disturbs no other slot. */
  lemma CopyFills(columns: seq<int>, values: seq<Value>, rows: seq<Row>, s: nat, t: nat)
    requires s < |rows| && t < |rows| && |columns| == |values| == |Flatten(rows, |rows|)|
    ensures |Flatten(rows, s)| + |rows[s]| <= |columns|
    ensures t == s || FilledSlot(columns, values, rows, t) ==>
            FilledSlot(CopyAt(columns, |Flatten(rows, s)|, Columns(rows[s])),
                       CopyAt(values, |Flatten(rows, s)|, Values(rows[s])), rows, t)
  {
    var at, first := |Flatten(rows, s)|, |Flatten(rows, t)|;
    SlotEnds(rows, s, |rows|);
    if s < t {
      SlotEnds(rows, s, t);
    } else if t < s {
      SlotEnds(rows, t, s);
    }
    CopyFillsAt(columns, values, at, rows[s], first, rows[t]);
  }
}
