/** From the entries of a Matrix Market file to CSR: symmetry expansion, then a counting sort by row. */
module MatrixMarket {
  import opened Csr
  import opened Slots

  datatype Symmetry = General | Symmetric | SkewSymmetric | Hermitian

  /** An entry line, with the file's 1-based indices. */
  datatype Line = Line(row: int, column: int, value: Value)

  /** A 0-based entry of the expanded list. */
  datatype Listed = Listed(row: nat, column: nat, value: Value)

  /** What double arithmetic means here: its zero and its negation. */
  datatype Signs = Signs(zero: Value, neg: Value -> Value) {
    function Mirrored(symmetry: Symmetry, value: Value): Value {
      if symmetry.SkewSymmetric? then neg(value) else value
    }
  }

  // ----- symmetry expansion

  ghost predicate Acceptable(line: Line, rows: int, cols: int, symmetry: Symmetry, signs: Signs) {
    && 1 <= line.row <= rows && 1 <= line.column <= cols
    && (symmetry.SkewSymmetric? && line.row == line.column ==> line.value == signs.zero)
  }

  /** A line and, right after it, its mirror. */
  ghost function Pair(line: Line, symmetry: Symmetry, signs: Signs): seq<Listed>
    requires line.row > 0 && line.column > 0
  {
    [Listed(line.row - 1, line.column - 1, line.value)] +
    if symmetry.General? || line.row == line.column then []
    else [Listed(line.column - 1, line.row - 1, signs.Mirrored(symmetry, line.value))]
  }

  ghost predicate AllAcceptable(lines: seq<Line>, rows: int, cols: int, symmetry: Symmetry, signs: Signs, n: nat)
    requires n <= |lines|
  {
    forall t :: 0 <= t < n ==> Acceptable(lines[t], rows, cols, symmetry, signs)
  }

  ghost function Expansion(lines: seq<Line>, symmetry: Symmetry, signs: Signs, n: nat): seq<Listed>
    requires n <= |lines| && forall t :: 0 <= t < n ==> lines[t].row > 0 && lines[t].column > 0
  {
    if n == 0 then [] else Expansion(lines, symmetry, signs, n - 1) + Pair(lines[n - 1], symmetry, signs)
  }

  ghost predicate InMatrix(list: seq<Listed>, rows: nat, cols: nat) {
    forall t :: 0 <= t < |list| ==> list[t].row < rows && list[t].column < cols
  }

  lemma NothingExpanded(lines: seq<Line>, symmetry: Symmetry, signs: Signs)
    ensures Expansion(lines, symmetry, signs, 0) == []
  {
  }

  lemma ExpandedNext(lines: seq<Line>, symmetry: Symmetry, signs: Signs, t: nat)
    requires t < |lines| && forall s :: 0 <= s <= t ==> lines[s].row > 0 && lines[s].column > 0
    ensures Expansion(lines, symmetry, signs, t + 1) ==
            Expansion(lines, symmetry, signs, t) + [Listed(lines[t].row - 1, lines[t].column - 1, lines[t].value)] +
            if symmetry.General? || lines[t].row == lines[t].column then []
            else [Listed(lines[t].column - 1, lines[t].row - 1, signs.Mirrored(symmetry, lines[t].value))]
  {
  }

  method ReadEntries(lines: seq<Line>, rows: nat, cols: nat, symmetry: Symmetry, signs: Signs)
    returns (list: Result<seq<Listed>>)
    requires symmetry.General? || rows == cols
    ensures list.Ok? <==> AllAcceptable(lines, rows, cols, symmetry, signs, |lines|)
    ensures list.Ok? ==> list.value == Expansion(lines, symmetry, signs, |lines|) && InMatrix(list.value, rows, cols)
  {
    hide InMatrix, Expansion, Pair;
    NothingExpanded(lines, symmetry, signs);
    var entries: seq<Listed> := [];
    for t := 0 to |lines|
      invariant AllAcceptable(lines, rows, cols, symmetry, signs, t)
      invariant entries == Expansion(lines, symmetry, signs, t)
    {
      var row, column, value := lines[t].row, lines[t].column, lines[t].value;
      assert Acceptable(lines[t], rows, cols, symmetry, signs) ==> row > 0 && column > 0;
      if row < 1 || row > rows || column < 1 || column > cols {
        return Error("Matrix Market entry index is out of range");
      }
      if symmetry.SkewSymmetric? && row == column && value != signs.zero {
        return Error("skew-symmetric diagonal must be zero");
      }
      ExpandedNext(lines, symmetry, signs, t);
      entries := entries + [Listed(row - 1, column - 1, value)];
      if !symmetry.General? && row != column {
        entries := entries + [Listed(column - 1, row - 1, signs.Mirrored(symmetry, value))];
      }
    }
    ExpansionInMatrix(lines, rows, cols, symmetry, signs, |lines|);
    list := Ok(entries);
  }

  lemma {:induction false} ExpansionInMatrix(lines: seq<Line>, rows: nat, cols: nat, symmetry: Symmetry, signs: Signs, n: nat)
    requires n <= |lines| && AllAcceptable(lines, rows, cols, symmetry, signs, n) && (symmetry.General? || rows == cols)
    ensures InMatrix(Expansion(lines, symmetry, signs, n), rows, cols)
  {
    if n > 0 {
      assert Acceptable(lines[n - 1], rows, cols, symmetry, signs);
      ExpansionInMatrix(lines, rows, cols, symmetry, signs, n - 1);
    }
  }

  // ----- stable sort by row

  /** The subsequence of the first n entries that lie in row r. */
  ghost function RowPart(list: seq<Listed>, r: int, n: nat): Row
    requires n <= |list|
  {
    if n == 0 then []
    else RowPart(list, r, n - 1) + if list[n - 1].row == r then [Entry(list[n - 1].column, list[n - 1].value)] else []
  }

  ghost function RowParts(list: seq<Listed>, rows: nat, n: nat): (parts: seq<Row>)
    requires n <= |list|
    ensures |parts| == rows && forall r :: 0 <= r < rows ==> parts[r] == RowPart(list, r, n)
  {
    seq(rows, r => RowPart(list, r, n))
  }

  lemma {:induction false} RowPartPrefix(list: seq<Listed>, r: int, m: nat, n: nat)
    requires m <= n <= |list|
    ensures RowPart(list, r, m) <= RowPart(list, r, n)
  {
    if m < n {
      RowPartPrefix(list, r, m, n - 1);
    }
  }

  /** One more entry lengthens its row and shifts the rows after it. */
  lemma {:induction false} OffsetsGrow(list: seq<Listed>, n: nat, before: seq<Row>, after: seq<Row>, r: nat)
    requires n < |list| && before == RowParts(list, |before|, n) && after == RowParts(list, |before|, n + 1)
    requires r <= |before|
    ensures |Flatten(after, r)| == |Flatten(before, r)| + if list[n].row < r then 1 else 0
  {
    if r > 0 {
      OffsetsGrow(list, n, before, after, r - 1);
    }
  }

  /** No entry is lost: the rows together hold as many entries as were counted. */
  lemma {:induction false} PartsHoldAll(list: seq<Listed>, rows: nat, n: nat, parts: seq<Row>)
    requires n <= |list| && (forall t :: 0 <= t < |list| ==> list[t].row < rows) && parts == RowParts(list, rows, n)
    ensures |Flatten(parts, rows)| == n
  {
    if n > 0 {
      var before := RowParts(list, rows, n - 1);
      PartsHoldAll(list, rows, n - 1, before);
      OffsetsGrow(list, n - 1, before, parts, rows);
    } else {
      EmptyParts(parts, rows);
    }
  }

  lemma {:induction false} EmptyParts(parts: seq<Row>, r: nat)
    requires r <= |parts| && forall s :: 0 <= s < r ==> parts[s] == []
    ensures Flatten(parts, r) == []
  {
    if r > 0 {
      EmptyParts(parts, r - 1);
    }
  }

  /** Counts, then their running sums, in one array. */
  method RowPointers(list: seq<Listed>, rows: nat, ghost parts: seq<Row>) returns (rowPtr: array<nat>)
    requires (forall t :: 0 <= t < |list| ==> list[t].row < rows) && parts == RowParts(list, rows, |list|)
    ensures fresh(rowPtr) && rowPtr.Length == rows + 1
    ensures forall r :: 0 <= r <= rows ==> rowPtr[r] == |Flatten(parts, r)|
  {
    hide RowPart, RowParts, Flatten;
    rowPtr := CountRows(list, rows);
    FlattenNone(parts);
    for row := 0 to rows
      invariant forall r :: 0 <= r <= row ==> rowPtr[r] == |Flatten(parts, r)|
      invariant forall r :: row <= r < rows ==> rowPtr[r + 1] == |parts[r]|
    {
      FlattenNext(parts, row);
      rowPtr[row + 1] := rowPtr[row + 1] + rowPtr[row];
    }
  }

  /** Entry r + 1 counts row r. */
  method CountRows(list: seq<Listed>, rows: nat) returns (rowPtr: array<nat>)
    requires forall t :: 0 <= t < |list| ==> list[t].row < rows
    ensures fresh(rowPtr) && rowPtr.Length == rows + 1
    ensures rowPtr[0] == 0 && forall r :: 0 <= r < rows ==> rowPtr[r + 1] == |RowPart(list, r, |list|)|
  {
    rowPtr := new nat[rows + 1](_ => 0);
    for t := 0 to |list|
      invariant rowPtr[0] == 0 && forall r :: 0 <= r < rows ==> rowPtr[r + 1] == |RowPart(list, r, t)|
    {
      rowPtr[list[t].row + 1] := rowPtr[list[t].row + 1] + 1;
    }
  }

  /** After t entries: each row's first entries are in place and its cursor points behind them. */
  ghost predicate Scattered(columns: seq<int>, values: seq<Value>, cursor: seq<nat>, list: seq<Listed>, parts: seq<Row>, t: nat)
    requires t <= |list|
  {
    && |columns| == |values| && |parts| <= |cursor|
    && forall r :: 0 <= r < |parts| ==>
      && cursor[r] == |Flatten(parts, r)| + |RowPart(list, r, t)|
      && FilledAt(columns, values, |Flatten(parts, r)|, RowPart(list, r, t))
  }

  lemma NothingScattered(columns: seq<int>, values: seq<Value>, cursor: seq<nat>, list: seq<Listed>, parts: seq<Row>)
    requires |columns| == |values| == |Flatten(parts, |parts|)| && |parts| <= |cursor|
    requires forall r :: 0 <= r < |parts| ==> cursor[r] == |Flatten(parts, r)|
    ensures Scattered(columns, values, cursor, list, parts, 0)
  {
    forall r | 0 <= r < |parts| ensures |Flatten(parts, r)| <= |columns| {
      SlotEnds(parts, r, |parts|);
    }
  }

  lemma ScatterOne(columns: seq<int>, values: seq<Value>, cursor: seq<nat>, list: seq<Listed>, parts: seq<Row>, t: nat)
    requires t < |list| && list[t].row < |parts| && parts == RowParts(list, |parts|, |list|)
    requires Scattered(columns, values, cursor, list, parts, t) && |columns| == |Flatten(parts, |parts|)|
    ensures var r := list[t].row;
            && cursor[r] < |columns|
            && Scattered(columns[cursor[r] := list[t].column], values[cursor[r] := list[t].value],
                         cursor[r := cursor[r] + 1], list, parts, t + 1)
  {
    hide FilledAt, Flatten, RowParts;
    var r := list[t].row;
    RowPartPrefix(list, r, t + 1, |list|);
    SlotEnds(parts, r, |parts|);
    var p := cursor[r];
    forall s | 0 <= s < |parts|
      ensures FilledAt(columns[p := list[t].column], values[p := list[t].value], |Flatten(parts, s)|, RowPart(list, s, t + 1))
      ensures |RowPart(list, s, t + 1)| == |RowPart(list, s, t)| + if s == r then 1 else 0
    {
      OtherRow(columns, values, list, parts, t, r, s);
    }
  }

  lemma OtherRow(columns: seq<int>, values: seq<Value>, list: seq<Listed>, parts: seq<Row>, t: nat, r: nat, s: nat)
    requires t < |list| && list[t].row == r < |parts| && s < |parts| && parts == RowParts(list, |parts|, |list|)
    requires |columns| == |values| && FilledAt(columns, values, |Flatten(parts, s)|, RowPart(list, s, t))
    requires |Flatten(parts, r)| + |RowPart(list, r, t)| < |columns|
    ensures var p := |Flatten(parts, r)| + |RowPart(list, r, t)|;
            FilledAt(columns[p := list[t].column], values[p := list[t].value], |Flatten(parts, s)|, RowPart(list, s, t + 1))
  {
    hide FilledAt, Flatten, RowParts;
    var at, p := |Flatten(parts, s)|, |Flatten(parts, r)| + |RowPart(list, r, t)|;
    var entry := Entry(list[t].column, list[t].value);
    if s == r {
      StoreNext(columns, values, at, RowPart(list, s, t), entry);
      assert RowPart(list, s, t + 1) == RowPart(list, s, t) + [entry];
    } else {
      RowPartPrefix(list, r, t + 1, |list|);
      RowPartPrefix(list, s, t, |list|);
      if s < r {
        SlotEnds(parts, s, r);
      } else {
        SlotEnds(parts, r, s);
      }
      StoreElsewhere(columns, values, at, RowPart(list, s, t), p, entry);
      assert RowPart(list, s, t + 1) == RowPart(list, s, t) + [] == RowPart(list, s, t);
    }
  }

  lemma StoreNext(columns: seq<int>, values: seq<Value>, at: nat, row: Row, entry: Entry)
    requires FilledAt(columns, values, at, row) && at + |row| < |columns|
    ensures FilledAt(columns[at + |row| := entry.column], values[at + |row| := entry.value], at, row + [entry])
  {
  }

  lemma StoreElsewhere(columns: seq<int>, values: seq<Value>, at: nat, row: Row, p: nat, entry: Entry)
    requires FilledAt(columns, values, at, row) && p < |columns| && (p < at || at + |row| <= p)
    ensures FilledAt(columns[p := entry.column], values[p := entry.value], at, row)
  {
  }

  /** Each row of the result is the subsequence of the entries in that row, in list order. */
  method ToCsr(list: seq<Listed>, rows: nat, cols: nat) returns (matrix: CsrMatrix)
    requires InMatrix(list, rows, cols)
    ensures matrix == FromRows(cols, RowParts(list, rows, |list|))
  {
    hide Scattered, RowParts, FilledAt, FilledSlot, FromRows;
    ghost var parts := RowParts(list, rows, |list|);
    var rowPtr := RowPointers(list, rows, parts);
    PartsHoldAll(list, rows, |list|, parts);
    var columns, values, cursor := Scatter(list, rowPtr[..], parts);
    AllFilled(rowPtr[..], columns[..], values[..], parts);
    HoldIsFromRows(cols, rowPtr[..], columns[..], values[..], parts);
    matrix := CsrMatrix(rows, cols, rowPtr[..], columns[..], values[..]);
  }

  /** Each entry goes where its row's cursor points; at the end every cursor stands at the next row pointer. */
  method Scatter(list: seq<Listed>, rowPtr: seq<nat>, ghost parts: seq<Row>)
    returns (columns: array<int>, values: array<Value>, cursor: array<nat>)
    requires |rowPtr| == |parts| + 1 && parts == RowParts(list, |parts|, |list|) && |Flatten(parts, |parts|)| == |list|
    requires (forall r :: 0 <= r <= |parts| ==> rowPtr[r] == |Flatten(parts, r)|)
    requires forall t :: 0 <= t < |list| ==> list[t].row < |parts|
    ensures |columns[..]| == |values[..]| == |list| && cursor.Length == |rowPtr|
    ensures forall r :: 0 <= r < |parts| ==> FilledSlot(columns[..], values[..], parts, r) && cursor[r] == rowPtr[r + 1]
  {
    hide Scattered, RowParts, FilledAt, FilledSlot, Flatten, RowPart;
    columns, values := new int[|list|](_ => 0), new Value[|list|](_ => 0);
    cursor := new nat[|rowPtr|](r requires 0 <= r < |rowPtr| => rowPtr[r]);
    NothingScattered(columns[..], values[..], cursor[..], list, parts);
    for t := 0 to |list|
      invariant Scattered(columns[..], values[..], cursor[..], list, parts, t)
    {
      ghost var columns0, values0, cursor0 := columns[..], values[..], cursor[..];
      ScatterOne(columns0, values0, cursor0, list, parts, t);
      var row := list[t].row;
      var position := cursor[row];
      cursor[row] := cursor[row] + 1;
      columns[position] := list[t].column;
      values[position] := list[t].value;
      assert columns[..] == columns0[position := list[t].column];
      assert values[..] == values0[position := list[t].value];
      assert cursor[..] == cursor0[row := position + 1];
    }
    CursorsMeet(columns[..], values[..], cursor[..], list, parts);
  }

  /** At the end every cursor stands at the next row pointer. */
  lemma CursorsMeet(columns: seq<int>, values: seq<Value>, cursor: seq<nat>, list: seq<Listed>, parts: seq<Row>)
    requires Scattered(columns, values, cursor, list, parts, |list|) && parts == RowParts(list, |parts|, |list|)
    ensures forall r :: 0 <= r < |parts| ==> cursor[r] == |Flatten(parts, r + 1)| && FilledSlot(columns, values, parts, r)
  {
  }

  /** Entry t lands behind the entries of earlier rows and the earlier entries of its own row. */
  lemma StablePosition(list: seq<Listed>, rows: nat, cols: nat, t: nat)
    requires InMatrix(list, rows, cols) && t < |list|
    ensures var parts := RowParts(list, rows, |list|);
            var m := FromRows(cols, parts);
            var p := |Flatten(parts, list[t].row)| + |RowPart(list, list[t].row, t)|;
            && p < |m.values| == |m.columnIndices| && m.columnIndices[p] == list[t].column && m.values[p] == list[t].value
            && m.rowPtr[list[t].row] <= p < m.rowPtr[list[t].row + 1]
  {
    var parts, r := RowParts(list, rows, |list|), list[t].row;
    RowPartPrefix(list, r, t + 1, |list|);
    FlattenAt(parts, r, |RowPart(list, r, t)|);
  }

  method ReadMatrixMarket(lines: seq<Line>, rows: int, cols: int, symmetry: Symmetry, signs: Signs)
    returns (matrix: Result<CsrMatrix>)
    ensures matrix.Ok? <==> rows > 0 && cols > 0 && (symmetry.General? || rows == cols) &&
                            AllAcceptable(lines, rows, cols, symmetry, signs, |lines|)
    ensures matrix.Ok? ==> Valid(matrix.value)
    ensures matrix.Ok? ==> var list := Expansion(lines, symmetry, signs, |lines|);
                           matrix.value == FromRows(cols, RowParts(list, rows, |list|))
  {
    if rows <= 0 || cols <= 0 {
      return Error("invalid Matrix Market dimensions");
    }
    if !symmetry.General? && rows != cols {
      return Error("storage requires a square matrix");
    }
    var list := ReadEntries(lines, rows, cols, symmetry, signs);
    if list.Error? {
      return Error(list.message);
    }
    var result := ToCsr(list.value, rows, cols);
    PartsBelow(list.value, rows, cols);
    FromRowsValid(cols, RowParts(list.value, rows, |list.value|));
    matrix := Ok(result);
  }

  lemma PartsBelow(list: seq<Listed>, rows: nat, cols: nat)
    requires InMatrix(list, rows, cols)
    ensures forall r :: 0 <= r < rows ==> ColumnsBelow(RowParts(list, rows, |list|)[r], cols)
  {
    forall r | 0 <= r < rows ensures ColumnsBelow(RowPart(list, r, |list|), cols) {
      PartBelow(list, rows, cols, r, |list|);
    }
  }

  lemma {:induction false} PartBelow(list: seq<Listed>, rows: nat, cols: nat, r: nat, n: nat)
    requires InMatrix(list, rows, cols) && n <= |list|
    ensures ColumnsBelow(RowPart(list, r, n), cols)
  {
    if n > 0 {
      PartBelow(list, rows, cols, r, n - 1);
    }
  }

  // ----- the expanded matrix is symmetric, cell by cell and in order

  /** The values stored for one cell, in list order. */
  ghost function CellValues(list: seq<Listed>, r: int, c: int, n: nat): seq<Value>
    requires n <= |list|
  {
    if n == 0 then []
    else CellValues(list, r, c, n - 1) + if list[n - 1].row == r && list[n - 1].column == c then [list[n - 1].value] else []
  }

  /** The values a row stores for one column. */
  ghost function ColumnValues(row: Row, c: int): seq<Value> {
    if row == [] then []
    else ColumnValues(row[..|row| - 1], c) + if row[|row| - 1].column == c then [row[|row| - 1].value] else []
  }

  lemma {:induction false} CellOfPart(list: seq<Listed>, r: int, c: int, n: nat)
    requires n <= |list|
    ensures ColumnValues(RowPart(list, r, n), c) == CellValues(list, r, c, n)
  {
    if n > 0 {
      CellOfPart(list, r, c, n - 1);
      var part := RowPart(list, r, n);
      if list[n - 1].row == r {
        assert part == RowPart(list, r, n - 1) + [Entry(list[n - 1].column, list[n - 1].value)];
        assert part[..|part| - 1] == RowPart(list, r, n - 1);
      } else {
        assert part == RowPart(list, r, n - 1);
      }
    }
  }

  lemma {:induction false} CellsAppend(xs: seq<Listed>, ys: seq<Listed>, r: int, c: int, n: nat)
    requires n <= |ys|
    ensures CellValues(xs + ys, r, c, |xs| + n) == CellValues(xs, r, c, |xs|) + CellValues(ys, r, c, n)
    decreases n
  {
    if n > 0 {
      CellsAppend(xs, ys, r, c, n - 1);
    } else {
      CellsPrefix(xs, ys, r, c, |xs|);
    }
  }

  lemma {:induction false} CellsPrefix(xs: seq<Listed>, ys: seq<Listed>, r: int, c: int, n: nat)
    requires n <= |xs|
    ensures CellValues(xs + ys, r, c, n) == CellValues(xs, r, c, n)
  {
    if n > 0 {
      CellsPrefix(xs, ys, r, c, n - 1);
    }
  }

  /** The other side of the diagonal: the same values, negated if the storage is skew. */
  ghost predicate Reflected(xs: seq<Value>, ys: seq<Value>, symmetry: Symmetry, signs: Signs) {
    |xs| == |ys| && forall k :: 0 <= k < |xs| ==> ys[k] == signs.Mirrored(symmetry, xs[k])
  }

  lemma {:induction false} ExpansionReflected(lines: seq<Line>, symmetry: Symmetry, signs: Signs, n: nat, r: int, c: int)
    requires n <= |lines| && forall t :: 0 <= t < n ==> lines[t].row > 0 && lines[t].column > 0
    requires !symmetry.General? && r != c && forall v :: signs.neg(signs.neg(v)) == v
    ensures var list := Expansion(lines, symmetry, signs, n);
            Reflected(CellValues(list, r, c, |list|), CellValues(list, c, r, |list|), symmetry, signs)
  {
    hide Pair, Reflected, CellValues;
    if n > 0 {
      ExpansionReflected(lines, symmetry, signs, n - 1, r, c);
      var before, pair := Expansion(lines, symmetry, signs, n - 1), Pair(lines[n - 1], symmetry, signs);
      CellsAppend(before, pair, r, c, |pair|);
      CellsAppend(before, pair, c, r, |pair|);
      PairReflected(lines[n - 1], symmetry, signs, r, c);
      ReflectedTogether(CellValues(before, r, c, |before|), CellValues(before, c, r, |before|),
                        CellValues(pair, r, c, |pair|), CellValues(pair, c, r, |pair|), symmetry, signs);
    } else {
      NothingReflected(r, c, symmetry, signs);
    }
  }

  lemma ReflectedTogether(xs: seq<Value>, ys: seq<Value>, us: seq<Value>, vs: seq<Value>, symmetry: Symmetry, signs: Signs)
    requires Reflected(xs, ys, symmetry, signs) && Reflected(us, vs, symmetry, signs)
    ensures Reflected(xs + us, ys + vs, symmetry, signs)
  {
  }

  lemma NothingReflected(r: int, c: int, symmetry: Symmetry, signs: Signs)
    ensures Reflected(CellValues([], r, c, 0), CellValues([], c, r, 0), symmetry, signs)
  {
  }

  lemma PairReflected(line: Line, symmetry: Symmetry, signs: Signs, r: int, c: int)
    requires line.row > 0 && line.column > 0 && !symmetry.General? && r != c
    requires forall v :: signs.neg(signs.neg(v)) == v
    ensures var pair := Pair(line, symmetry, signs);
            Reflected(CellValues(pair, r, c, |pair|), CellValues(pair, c, r, |pair|), symmetry, signs)
  {
    var pair := Pair(line, symmetry, signs);
    assert CellValues(pair, r, c, 0) == [] && CellValues(pair, c, r, 0) == [];
    if |pair| == 2 {
      assert CellValues(pair, r, c, 2) ==
        CellValues(pair, r, c, 1) + (if pair[1].row == r && pair[1].column == c then [pair[1].value] else []);
    }
  }

  /** Off the diagonal, a matrix read from symmetric (or Hermitian) storage stores for (c, r) what it stores
      for (r, c), value by value and in the same order; from skew-symmetric storage, the negatives. */
  lemma ReadIsSymmetric(lines: seq<Line>, n: nat, symmetry: Symmetry, signs: Signs, r: nat, c: nat)
    requires !symmetry.General? && AllAcceptable(lines, n, n, symmetry, signs, |lines|) && r < n && c < n && r != c
    requires forall v :: signs.neg(signs.neg(v)) == v
    ensures var list := Expansion(lines, symmetry, signs, |lines|);
            var m := FromRows(n, RowParts(list, n, |list|));
            && Shaped(m)
            && Reflected(ColumnValues(RowOf(m, r), c), ColumnValues(RowOf(m, c), r), symmetry, signs)
  {
    var list := Expansion(lines, symmetry, signs, |lines|);
    var parts := RowParts(list, n, |list|);
    FromRowsShaped(n, parts);
    FromRowsRow(n, parts, r);
    FromRowsRow(n, parts, c);
    CellOfPart(list, r, c, |list|);
    CellOfPart(list, c, r, |list|);
    ExpansionReflected(lines, symmetry, signs, |lines|, r, c);
  }
}
