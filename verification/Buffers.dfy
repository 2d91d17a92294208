/** The six arrays of an A tile and a B tile, as transports move them. */
module Buffers {
  import opened Ranks

  datatype Part = RowPtr | Columns | Values

  /** One exposed array: a part of the A tile or of the B tile. */
  datatype Array = Array(forA: bool, part: Part)

  type Arrays = Array -> seq<int>

  /** Array lengths are planned once; inputs must keep them. */
  type Lengths = (Rank, Array) -> nat

  ghost predicate Fit(lengths: Lengths, r: Rank, inputs: Arrays) {
    forall x: Array :: |inputs(x)| == lengths(r, x)
  }

  /** Column and value arrays of a tile have one length. */
  ghost predicate Planned(cfg: Config, lengths: Lengths) {
    forall r, forA :: InGrid(cfg, r) ==> lengths(r, Array(forA, Columns)) == lengths(r, Array(forA, Values))
  }

  /** Elements written from offset 0 on; what lies behind them stays. */
  ghost function Overwrite(s: seq<int>, data: seq<int>): (r: seq<int>)
    ensures |data| == |s| ==> r == data
  {
    data + (if |data| <= |s| then s[|data|..] else [])
  }

  ghost function AllArrays(): set<Array> {
    {Array(true, RowPtr), Array(true, Columns), Array(true, Values),
     Array(false, RowPtr), Array(false, Columns), Array(false, Values)}
  }

  lemma EveryArray(a: Array)
    ensures a in AllArrays()
  {
    match a.part
    case RowPtr => assert a == Array(true, RowPtr) || a == Array(false, RowPtr);
    case Columns => assert a == Array(true, Columns) || a == Array(false, Columns);
    case Values => assert a == Array(true, Values) || a == Array(false, Values);
  }
}
