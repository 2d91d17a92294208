/** The reference row of the streaming validation: every cell to which a product contributes. */
module Reference {
  import opened Csr
  import opened Serial
  import opened Roundoff
  import opened Acceptance

  /** Full-precision reading of stored numbers, the two rounded formats and directed rounding. */
  datatype Numeric = Numeric(number: Value -> real, toDouble: real -> real, toLongDouble: real -> real,
                             directed: Directed, candidate: Format, reference: Format)
  {
    ghost predicate Valid() {
      && directed.Sound() && candidate.Valid() && reference.Valid()
      && toDouble(0.0) == 0.0 && Rounds(toLongDouble, reference)
    }
  }

  datatype FullReferenceCell = FullReferenceCell(column: int, serial: real, reference: real, bound: Bound, terms: nat)

  // ----- the products of one cell, in stored order

  ghost function EntryProducts(x: Numeric, a: Value, row: Row, c: int, n: nat): seq<real>
    requires n <= |row|
  {
    if n == 0 then []
    else EntryProducts(x, a, row, c, n - 1) +
         if row[n - 1].column == c then [Times(x.number(a), x.number(row[n - 1].value))] else []
  }

  ghost function Products(x: Numeric, aRow: Row, bRows: seq<Row>, c: int, n: nat): seq<real>
    requires n <= |aRow|
  {
    if n == 0 then []
    else var b := BRow(bRows, aRow[n - 1].column);
         Products(x, aRow, bRows, c, n - 1) + EntryProducts(x, aRow[n - 1].value, b, c, |b|)
  }

  function AddTerm(x: Numeric, cell: NumericCell, product: real): NumericCell {
    var precise := x.toLongDouble(product);
    NumericCell(x.toDouble(cell.serial + x.toDouble(product)), x.toLongDouble(cell.reference + precise),
                x.toLongDouble(cell.magnitude + Abs(precise)), cell.terms + 1)
  }

  function NoTerms(): NumericCell {
    NumericCell(0.0, 0.0, 0.0, 0)
  }

  ghost function CellOf(x: Numeric, products: seq<real>): NumericCell {
    if products == [] then NoTerms() else AddTerm(x, CellOf(x, products[..|products| - 1]), products[|products| - 1])
  }

  lemma CellOfOneMore(x: Numeric, products: seq<real>, product: real)
    ensures CellOf(x, products + [product]) == AddTerm(x, CellOf(x, products), product)
  {
    assert (products + [product])[..|products|] == products;
  }

  // ----- the accumulator of a row

  /** The table holds the cell of every column that got a product, and no other column. */
  ghost predicate Tabulates(x: Numeric, acc: map<int, NumericCell>, products: int -> seq<real>) {
    forall c :: (c in acc <==> products(c) != []) && (c in acc ==> acc[c] == CellOf(x, products(c)))
  }

  ghost function ProductsAt(x: Numeric, aRow: Row, bRows: seq<Row>, n: nat, a: Value, row: Row, t: nat): int -> seq<real>
    requires n <= |aRow| && t <= |row|
  {
    c => Products(x, aRow, bRows, c, n) + EntryProducts(x, a, row, c, t)
  }

  lemma TabulateOneMore(x: Numeric, acc: map<int, NumericCell>, aRow: Row, bRows: seq<Row>, n: nat, a: Value, row: Row, t: nat)
    requires n <= |aRow| && t < |row| && Tabulates(x, acc, ProductsAt(x, aRow, bRows, n, a, row, t))
    ensures var column := row[t].column;
            var cell := if column in acc then acc[column] else NoTerms();
            Tabulates(x, acc[column := AddTerm(x, cell, Times(x.number(a), x.number(row[t].value)))],
                      ProductsAt(x, aRow, bRows, n, a, row, t + 1))
  {
    hide CellOf, AddTerm, Products, Times, Tabulates, EntryProducts;
    var column, product := row[t].column, Times(x.number(a), x.number(row[t].value));
    var before, after := ProductsAt(x, aRow, bRows, n, a, row, t), ProductsAt(x, aRow, bRows, n, a, row, t + 1);
    forall c ensures after(c) == if c == column then before(c) + [product] else before(c) {
      NextEntryProducts(x, a, row, c, t);
    }
    UpdateOne(x, acc, before, after, column, product);
  }

  lemma UpdateOne(x: Numeric, acc: map<int, NumericCell>, before: int -> seq<real>, after: int -> seq<real>, column: int, product: real)
    requires Tabulates(x, acc, before)
    requires forall c :: after(c) == if c == column then before(c) + [product] else before(c)
    ensures Tabulates(x, acc[column := AddTerm(x, if column in acc then acc[column] else NoTerms(), product)], after)
  {
    hide CellOf, AddTerm;
    CellOfOneMore(x, before(column), product);
    EmptyCellOf(x);
  }

  lemma NextEntryProducts(x: Numeric, a: Value, row: Row, c: int, t: nat)
    requires t < |row|
    ensures EntryProducts(x, a, row, c, t + 1) == EntryProducts(x, a, row, c, t) +
            if row[t].column == c then [Times(x.number(a), x.number(row[t].value))] else []
  {
  }

  lemma EmptyCellOf(x: Numeric)
    ensures CellOf(x, []) == NoTerms()
  {
  }

  lemma NextEntry(x: Numeric, acc: map<int, NumericCell>, aRow: Row, bRows: seq<Row>, n: nat, a: Value, row: Row, b: Value, next: Row)
    requires n < |aRow| && a == aRow[n].value && row == BRow(bRows, aRow[n].column)
    requires Tabulates(x, acc, ProductsAt(x, aRow, bRows, n, a, row, |row|))
    ensures Tabulates(x, acc, ProductsAt(x, aRow, bRows, n + 1, b, next, 0))
  {
    hide CellOf;
    forall c ensures ProductsAt(x, aRow, bRows, n + 1, b, next, 0)(c) == ProductsAt(x, aRow, bRows, n, a, row, |row|)(c) {
    }
  }

  /** All products of a row's cells. */
  ghost function CellProducts(x: Numeric, aRow: Row, bRows: seq<Row>): int -> seq<real> {
    c => Products(x, aRow, bRows, c, |aRow|)
  }

  lemma TableDone(x: Numeric, acc: map<int, NumericCell>, aRow: Row, bRows: seq<Row>, b: Value, next: Row)
    requires Tabulates(x, acc, ProductsAt(x, aRow, bRows, |aRow|, b, next, 0))
    ensures Tabulates(x, acc, CellProducts(x, aRow, bRows))
  {
    hide CellOf;
    forall c ensures CellProducts(x, aRow, bRows)(c) == ProductsAt(x, aRow, bRows, |aRow|, b, next, 0)(c) {
    }
  }

  method AccumulateEntry(x: Numeric, acc0: map<int, NumericCell>, a: Value, b: CsrMatrix, bRow: nat,
                         ghost aRow: Row, ghost bRows: seq<Row>, ghost n: nat, ghost row: Row)
    returns (acc: map<int, NumericCell>)
    requires Shaped(b) && bRow < b.rows && row == RowOf(b, bRow) && n <= |aRow|
    requires Tabulates(x, acc0, ProductsAt(x, aRow, bRows, n, a, row, 0))
    ensures Tabulates(x, acc, ProductsAt(x, aRow, bRows, n, a, row, |row|))
  {
    hide Tabulates, AddTerm, Times, RowOf, ProductsAt;
    acc := acc0;
    var first, last := b.rowPtr[bRow], b.rowPtr[bRow + 1];
    RowExtent(b, bRow);
    for p := first to last
      invariant Tabulates(x, acc, ProductsAt(x, aRow, bRows, n, a, row, p - first))
    {
      RowOfAt(b, bRow, p);
      TabulateOneMore(x, acc, aRow, bRows, n, a, row, p - first);
      var column := b.columnIndices[p];
      var cell := if column in acc then acc[column] else NoTerms();
      acc := acc[column := AddTerm(x, cell, Times(x.number(a), x.number(b.values[p])))];
    }
  }

  lemma NothingTabulated(x: Numeric, aRow: Row, bRows: seq<Row>, a: Value, row: Row)
    ensures Tabulates(x, map[], ProductsAt(x, aRow, bRows, 0, a, row, 0))
  {
  }

  method AccumulateCells(x: Numeric, a: CsrMatrix, b: CsrMatrix, r: nat, ghost aRow: Row, ghost bRows: seq<Row>)
    returns (acc: map<int, NumericCell>)
    requires Shaped(a) && Shaped(b) && r < a.rows && aRow == RowOf(a, r) && bRows == Rows(b) && ColumnsBelow(aRow, b.rows)
    ensures Tabulates(x, acc, CellProducts(x, aRow, bRows))
  {
    hide Tabulates, RowOf, Rows, ProductsAt, CellProducts;
    acc := map[];
    var first, last := a.rowPtr[r], a.rowPtr[r + 1];
    RowExtent(a, r);
    NothingTabulated(x, aRow, bRows, 0, []);
    for p := first to last
      invariant Tabulates(x, acc, ProductsAt(x, aRow, bRows, p - first, 0, [], 0))
    {
      RowOfAt(a, r, p);
      var bRow := a.columnIndices[p];
      RowsAt(b, bRow);
      SameStart(x, acc, aRow, bRows, p - first, a.values[p], bRows[bRow]);
      acc := AccumulateEntry(x, acc, a.values[p], b, bRow, aRow, bRows, p - first, bRows[bRow]);
      NextEntry(x, acc, aRow, bRows, p - first, a.values[p], bRows[bRow], 0, []);
    }
    TableDone(x, acc, aRow, bRows, 0, []);
  }

  lemma SameStart(x: Numeric, acc: map<int, NumericCell>, aRow: Row, bRows: seq<Row>, n: nat, a: Value, row: Row)
    requires n <= |aRow| && Tabulates(x, acc, ProductsAt(x, aRow, bRows, n, 0, [], 0))
    ensures Tabulates(x, acc, ProductsAt(x, aRow, bRows, n, a, row, 0))
  {
    hide CellOf;
    forall c ensures ProductsAt(x, aRow, bRows, n, a, row, 0)(c) == ProductsAt(x, aRow, bRows, n, 0, [], 0)(c) {
    }
  }

  // ----- the finished row

  function Finished(x: Numeric, column: int, cell: NumericCell): FullReferenceCell
    requires forall y: real :: 0.0 < y ==> 0.0 < x.directed.down(y)
  {
    FullReferenceCell(column, cell.serial, cell.reference,
                      CoordinateBound(x.directed, x.candidate, x.reference, cell), cell.terms)
  }

  /** What the validation compares a coordinate with: zero, with bound zero, where no product contributes. */
  ghost function Expected(x: Numeric, column: int, products: seq<real>): FullReferenceCell
    requires x.Valid()
  {
    Finished(x, column, CellOf(x, products))
  }

  ghost predicate Ordered(cells: seq<FullReferenceCell>) {
    forall i, j :: 0 <= i < j < |cells| ==> cells[i].column < cells[j].column
  }

  /** Exactly the coordinates with products, by increasing column, each with what is expected there. */
  ghost predicate RowCells(x: Numeric, cells: seq<FullReferenceCell>, products: int -> seq<real>)
    requires x.Valid()
  {
    && Ordered(cells)
    && (forall k :: 0 <= k < |cells| ==> products(cells[k].column) != [] &&
                                         cells[k] == Expected(x, cells[k].column, products(cells[k].column)))
    && (forall c :: products(c) != [] ==> exists k :: 0 <= k < |cells| && cells[k].column == c)
  }

  method BuildFullRow(x: Numeric, a: CsrMatrix, b: CsrMatrix, r: nat, ghost aRow: Row, ghost bRows: seq<Row>)
    returns (cells: seq<FullReferenceCell>)
    requires x.Valid() && Shaped(a) && Shaped(b) && r < a.rows && aRow == RowOf(a, r) && bRows == Rows(b)
    requires ColumnsBelow(aRow, b.rows)
    ensures RowCells(x, cells, CellProducts(x, aRow, bRows))
  {
    hide CellProducts, RowOf, Rows, Finished, RowCells, Tabulates;
    var acc := AccumulateCells(x, a, b, r, aRow, bRows);
    var columns := KeysOf(acc);
    var sorted := SortColumns(columns);
    SameElementsDistinct(columns, sorted);
    forall k | 0 <= k < |sorted| ensures sorted[k] in acc {
      assert sorted[k] in sorted;
    }
    cells := FinishCells(x, acc, sorted);
    CellsOfTable(x, acc, sorted, cells, CellProducts(x, aRow, bRows));
  }

  method KeysOf(acc: map<int, NumericCell>) returns (columns: seq<int>)
    ensures Distinct(columns) && forall c :: c in columns <==> c in acc
  {
    columns := [];
    var pending := acc.Keys;
    while pending != {}
      invariant pending <= acc.Keys && Distinct(columns)
      invariant forall c :: c in columns <==> c in acc && c !in pending
    {
      NonEmpty(pending);
      var c :| c in pending;
      pending := pending - {c};
      columns := columns + [c];
    }
  }

  method FinishCells(x: Numeric, acc: map<int, NumericCell>, sorted: seq<int>) returns (cells: seq<FullReferenceCell>)
    requires x.Valid() && forall k :: 0 <= k < |sorted| ==> sorted[k] in acc
    ensures |cells| == |sorted| && forall k :: 0 <= k < |sorted| ==> cells[k] == Finished(x, sorted[k], acc[sorted[k]])
  {
    hide Finished;
    cells := [];
    for k := 0 to |sorted|
      invariant |cells| == k && forall l :: 0 <= l < k ==> cells[l] == Finished(x, sorted[l], acc[sorted[l]])
    {
      cells := cells + [Finished(x, sorted[k], acc[sorted[k]])];
    }
  }

  lemma CellsOfTable(x: Numeric, acc: map<int, NumericCell>, sorted: seq<int>, cells: seq<FullReferenceCell>, products: int -> seq<real>)
    requires x.Valid() && Tabulates(x, acc, products) && Ascending(sorted) && Distinct(sorted)
    requires forall c :: c in sorted <==> c in acc
    requires |cells| == |sorted|
    requires forall k :: 0 <= k < |sorted| ==> sorted[k] in acc && cells[k] == Finished(x, sorted[k], acc[sorted[k]])
    ensures RowCells(x, cells, products)
  {
    hide CellOf, CoordinateBound;
    forall c | products(c) != [] ensures exists k :: 0 <= k < |cells| && cells[k].column == c {
      assert c in sorted;
      var k :| 0 <= k < |sorted| && sorted[k] == c;
      assert cells[k].column == c;
    }
  }

  // ----- what the cells mean

  /** A built cell is one the roundoff bound speaks about. */
  lemma {:induction false} BuiltCell(x: Numeric, products: seq<real>) returns (ref: Tree, mag: Tree)
    requires x.Valid()
    ensures ReferenceCell(CellOf(x, products), ref, mag, products, x.reference)
  {
    hide ReferenceCell, AddTerm;
    if products == [] {
      ref, mag := Zero, Zero;
      NothingSummed(x);
    } else {
      var before, product := products[..|products| - 1], products[|products| - 1];
      ref, mag := BuiltCell(x, before);
      var cell, precise := CellOf(x, before), x.toLongDouble(product);
      BuiltStep(x, cell, ref, mag, before, product, precise);
      ref := Sum(ref, Product(product, precise), x.toLongDouble(cell.reference + precise));
      mag := Sum(mag, Product(Abs(product), Abs(precise)), x.toLongDouble(cell.magnitude + Abs(precise)));
      assert products == before + [product];
    }
  }

  lemma BuiltStep(x: Numeric, cell: NumericCell, ref: Tree, mag: Tree, before: seq<real>, product: real, precise: real)
    requires x.Valid() && precise == x.toLongDouble(product)
    requires ReferenceCell(cell, ref, mag, before, x.reference) && (before == [] ==> cell == NoTerms())
    ensures ReferenceCell(AddTerm(x, cell, product), Sum(ref, Product(product, precise), x.toLongDouble(cell.reference + precise)),
                          Sum(mag, Product(Abs(product), Abs(precise)), x.toLongDouble(cell.magnitude + Abs(precise))),
                          before + [product], x.reference)
  {
    hide Times, Close, Rounded, Abs, Leaves;
    AbsIsClose(precise, product, x.reference.Unit(), x.reference.denormMin);
    RunningSum(ref, product, x.toLongDouble, x.reference, precise);
    RunningSum(mag, Abs(product), x.toLongDouble, x.reference, Abs(precise));
    MagnitudesOneMore(before, product);
  }

  lemma NothingSummed(x: Numeric)
    ensures ReferenceCell(NoTerms(), Zero, Zero, [], x.reference)
  {
  }

  lemma MagnitudesOneMore(xs: seq<real>, x: real)
    ensures Magnitudes(xs + [x]) == Magnitudes(xs) + [Abs(x)]
  {
  }

  lemma NothingExpected(x: Numeric, column: int)
    requires x.Valid()
    ensures Expected(x, column, []) == FullReferenceCell(column, 0.0, 0.0, Finite(0.0), 0)
  {
  }
}
