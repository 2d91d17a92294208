/** Validation against a stored Full reference: the file is read row by row while the result is compared,
    and the verdict is that of the regenerated reference. */
module CachedValidation {
  import opened Csr
  import opened Acceptance
  import opened Reference
  import opened Validation
  import opened PartialCodec
  import opened Bytes
  import opened FullCodec
  import opened FullFile
  import opened FullReader

  // ----- what stored numbers mean

  function TwoTo(exponent: int): real
    decreases if exponent < 0 then -exponent else exponent
  {
    if exponent == 0 then 1.0 else if exponent > 0 then 2.0 * TwoTo(exponent - 1) else TwoTo(exponent + 1) / 2.0
  }

  /** ldexp of the significand. */
  function RealValue(x: Real, limbs: nat): real
    requires x.Binary?
  {
    var magnitude := x.numerator as real / Place(limbs) as real * TwoTo(x.exponent);
    if x.negative then -magnitude else magnitude
  }

  lemma TwoToStep(exponent: int)
    ensures TwoTo(exponent) == 2.0 * TwoTo(exponent - 1)
  {
  }

  /** Normalising words does not change their number. */
  lemma {:induction false} NormalisedValue(x: Real, limbs: nat)
    requires x.Binary?
    ensures RealValue(Normalised(x, limbs), limbs) == RealValue(x, limbs)
    decreases Place(limbs) - if x.Binary? then x.numerator else 0
  {
    hide TwoTo, Place;
    if x.numerator == 0 {
      ZeroValue(Place(limbs) as real, TwoTo(x.exponent));
      ZeroValue(Place(limbs) as real, TwoTo(0));
    } else if 2 * x.numerator < Place(limbs) {
      NormalisedValue(x.(numerator := 2 * x.numerator, exponent := x.exponent - 1), limbs);
      TwoToStep(x.exponent);
      Doubling(x.numerator as real, Place(limbs) as real, TwoTo(x.exponent - 1));
    }
  }

  lemma ZeroValue(place: real, power: real)
    requires place > 0.0
    ensures 0.0 / place * power == 0.0
  {
    assert 0.0 / place == 0.0;
  }

  lemma Doubling(n: real, place: real, power: real)
    requires place > 0.0
    ensures 2.0 * n / place * power == n / place * (2.0 * power)
  {
    assert 2.0 * n / place == 2.0 * (n / place);
  }

  /** `serial` reads the 64 bits of a double. */
  function CellValue(cell: Cell, limbs: nat, serial: nat -> real): FullReferenceCell
    requires cell.reference.Binary? && cell.bound.Binary? && cell.terms >= 0
  {
    FullReferenceCell(cell.column, serial(cell.serial), RealValue(cell.reference, limbs), Finite(RealValue(cell.bound, limbs)),
                      cell.terms)
  }

  function RowValue(row: seq<Cell>, limbs: nat, serial: nat -> real): (cells: seq<FullReferenceCell>)
    requires forall k :: 0 <= k < |row| ==> row[k].reference.Binary? && row[k].bound.Binary? && row[k].terms >= 0
    ensures |cells| == |row|
    ensures forall k :: 0 <= k < |row| ==> cells[k] == CellValue(row[k], limbs, serial)
  {
    if row == [] then [] else RowValue(row[..|row| - 1], limbs, serial) + [CellValue(row[|row| - 1], limbs, serial)]
  }

  lemma ValidRowReads(row: seq<Cell>, cols: int)
    requires RowValid(row, cols)
    ensures forall k :: 0 <= k < |row| ==> row[k].reference.Binary? && row[k].bound.Binary? && row[k].terms >= 0
  {
    forall k | 0 <= k < |row| ensures row[k].reference.Binary? && row[k].bound.Binary? && row[k].terms >= 0 {
      assert CellValid(row[k], cols);
    }
  }

  // ----- comparing stored cells

  ghost predicate HasCell(cells: seq<FullReferenceCell>, c: int) {
    exists k :: 0 <= k < |cells| && cells[k].column == c
  }

  /** The stored cell of a column, or nothing expected. */
  ghost function StoredCell(cells: seq<FullReferenceCell>, c: int): FullReferenceCell {
    if HasCell(cells, c) then
      var k :| 0 <= k < |cells| && cells[k].column == c;
      cells[k]
    else FullReferenceCell(c, 0.0, 0.0, Finite(0.0), 0)
  }

  ghost function StoredCells(cells: seq<FullReferenceCell>): int -> FullReferenceCell {
    c => StoredCell(cells, c)
  }

  lemma StoredCellsFit(row: seq<Cell>, cells: seq<FullReferenceCell>, cols: nat)
    requires RowValid(row, cols) && |cells| == |row| && forall k :: 0 <= k < |row| ==> cells[k].column == row[k].column
    ensures CellsFor(cells, StoredCells(cells), cols)
  {
    forall i, j | 0 <= i < j < |cells| ensures cells[i].column < cells[j].column {
      assert row[i].column < row[j].column;
    }
    forall k | 0 <= k < |cells| ensures 0 <= cells[k].column < cols && cells[k] == StoredCell(cells, cells[k].column) {
      assert CellValid(row[k], cols);
      StoredCellAt(cells, k);
    }
  }

  lemma StoredCellAt(cells: seq<FullReferenceCell>, k: nat)
    requires k < |cells| && Ordered(cells)
    ensures StoredCell(cells, cells[k].column) == cells[k]
  {
    var l :| 0 <= l < |cells| && cells[l].column == cells[k].column && StoredCell(cells, cells[k].column) == cells[l];
  }

  /** The stored rows of a table, as numbers. */
  ghost function TableValue(table: Table, r: nat, cols: int, build: Build, serial: nat -> real): seq<FullReferenceCell>
    requires TableOk(table, cols, build) && r < |table|
  {
    ValidRowReads(DecodedRow(build, table[r]), cols);
    RowValue(DecodedRow(build, table[r]), build.Limbs(), serial)
  }

  /** The comparison of the first n rows with a stored table. */
  ghost function VisitTable(x: Numeric, table: Table, result: CsrMatrix, build: Build, serial: nat -> real, n: nat): Tally
    requires Shaped(result) && TableOk(table, result.cols, build) && n <= result.rows && n <= |table|
  {
    if n == 0 then NothingVisited()
    else VisitAll(x, VisitTable(x, table, result, build, serial, n - 1), n - 1, RowOf(result, n - 1),
                  StoredCells(TableValue(table, n - 1, result.cols, build, serial)), result.cols)
  }

  lemma {:induction false} VisitTablePrefix(x: Numeric, table: Table, more: Table, result: CsrMatrix, build: Build,
                                            serial: nat -> real, n: nat)
    requires Shaped(result) && TableOk(table, result.cols, build) && TableOk(table + more, result.cols, build)
    requires n <= result.rows && n <= |table|
    ensures VisitTable(x, table + more, result, build, serial, n) == VisitTable(x, table, result, build, serial, n)
  {
    hide VisitAll, StoredCells, RowValue, RowOf, DecodedRow, RowValid, FullFile.RowFits;
    if n > 0 {
      VisitTablePrefix(x, table, more, result, build, serial, n - 1);
    }
  }

  ghost predicate Small(n: nat) {
    n < 0x8000_0000
  }

  /** Opens the file, reads and compares row after row, then checks the checksum: any fault of the file is an
      error, so that no damaged file yields a verdict. */
  method ValidateStored(x: Numeric, result: CsrMatrix, bytes: Text, key: Text, build: Build, digest: Digest, serial: nat -> real)
    returns (outcome: Result<Tally>, ghost table: Table)
    requires Usable(result, true) && digest.Valid() && Small(result.rows) && Small(result.cols)
    ensures outcome.Ok? <==> exists whole :: Holds(bytes, key, result.rows, result.cols, build, digest, whole)
    ensures outcome.Ok? ==> Holds(bytes, key, result.rows, result.cols, build, digest, table)
    ensures outcome.Ok? ==> outcome.value == VisitTable(x, table, result, build, serial, result.rows)
  {
    hide HeaderText, RowText, FullFile.RowFits, RowValid, RowsText, Holds, FileBody, PrefixAt, VisitTable, Usable, Shaped, ReadSoFar, TableOk;
    table := [];
    UsableShaped(result);
    if build.Limbs() > 2 {
      NoHeader(bytes, key, result.rows, result.cols, build, digest);
      return Error("unsupported Full reference metadata"), table;
    }
    var reader := new FullReferenceReader(bytes, result.rows, result.cols, build);
    HeaderStands(bytes, key, result.rows, result.cols, build, digest);
    var header := reader.Open(key);
    if header.Error? {
      return Error(header.message), table;
    }
    NothingRead(bytes, key, result.rows, result.cols, build);
    NothingCompared(x, result, build, serial);
    var t := NothingVisited();
    for r := 0 to result.rows
      invariant reader.Valid() && reader.next == r && !reader.finished
      invariant ReadSoFar(bytes, key, result.rows, result.cols, build, table, r, reader.at)
      invariant Compares(x, table, result, build, serial, r, t)
    {
      ghost var before := reader.at;
      var row, stored := reader.ReadRow();
      if row.Error? {
        NoTable(bytes, key, result.rows, result.cols, build, digest, table, r, before);
        return Error(row.message), table;
      }
      ReadOneMore(bytes, key, result.rows, result.cols, build, table, r, before, stored, reader.at);
      t := CompareStored(x, t, result, r, row.value, build, serial, table, stored);
      table := table + [stored];
    }
    ChecksumStands(bytes, key, result.rows, result.cols, build, digest, table, reader.at);
    var done := reader.Finish(digest);
    if done.Error? {
      return Error(done.message), table;
    }
    outcome := Ok(t);
  }

  lemma UsableShaped(m: CsrMatrix)
    requires Usable(m, true)
    ensures Shaped(m)
  {
  }

  ghost predicate Compares(x: Numeric, table: Table, result: CsrMatrix, build: Build, serial: nat -> real, n: nat, t: Tally) {
    && Shaped(result) && TableOk(table, result.cols, build) && n <= result.rows && n == |table|
    && t == VisitTable(x, table, result, build, serial, n) && Nonnegative(t)
  }

  lemma NothingCompared(x: Numeric, result: CsrMatrix, build: Build, serial: nat -> real)
    requires Shaped(result)
    ensures Compares(x, [], result, build, serial, 0, NothingVisited())
  {
  }

  /** Compares one row; `raw` are the words it was read from. */
  method CompareStored(x: Numeric, t0: Tally, result: CsrMatrix, r: nat, stored: seq<Cell>, build: Build, serial: nat -> real,
                       ghost table: Table, ghost raw: seq<Cell>)
    returns (t: Tally)
    requires Usable(result, true) && r < result.rows && Storable(raw, result.cols, build) && stored == DecodedRow(build, raw)
    requires Compares(x, table, result, build, serial, r, t0)
    ensures Compares(x, table + [raw], result, build, serial, r + 1, t)
  {
    hide FullFile.RowFits, VisitAll, BothSorted, RowValid, AscendingRows, StoredCells, RowValue, DecodedRow;
    ValidRowReads(stored, result.cols);
    var cells := RowValue(stored, build.Limbs(), serial);
    ghost var row := RowOf(result, r);
    RowSorted(result, r);
    StoredCellsFit(stored, cells, result.cols);
    Sorted(row, cells, result.cols);
    t := CompareRow(x, t0, result, r, cells, row, StoredCells(cells));
    OneMoreRow(table, raw, result.cols, build);
    VisitTablePrefix(x, table, [raw], result, build, serial, r);
  }

  lemma Sorted(row: Row, cells: seq<FullReferenceCell>, cols: nat)
    requires SortedColumns(row) && ColumnsBelow(row, cols) && CellsFor(cells, StoredCells(cells), cols)
    ensures BothSorted(row, cells, StoredCells(cells), cols)
  {
  }

  // ----- stored and regenerated references give the same verdict

  /** Only the values of `expected` matter. */
  lemma {:induction false} VisitsAgree(x: Numeric, t0: Tally, r: int, row: Row, e: int -> FullReferenceCell,
                                       f: int -> FullReferenceCell, n: nat)
    requires forall c :: e(c) == f(c)
    ensures VisitAll(x, t0, r, row, e, n) == VisitAll(x, t0, r, row, f, n)
  {
    hide Visit, ActualAt, Validation.StoredAt;
    if n > 0 {
      VisitsAgree(x, t0, r, row, e, f, n - 1);
    }
  }

  /** The rows of the table are, as numbers, the reference rows of the product. */
  ghost predicate TableIsReference(x: Numeric, table: Table, a: CsrMatrix, b: CsrMatrix, cols: int, build: Build, serial: nat -> real)
    requires x.Valid() && Shaped(a) && Shaped(b)
  {
    && TableOk(table, cols, build) && |table| == a.rows
    && forall r: nat :: r < a.rows ==>
         RowCells(x, TableValue(table, r, cols, build, serial), CellProducts(x, RowOf(a, r), Rows(b)))
  }

  lemma StoredIsExpected(x: Numeric, cells: seq<FullReferenceCell>, aRow: Row, bRows: seq<Row>, c: int)
    requires x.Valid() && RowCells(x, cells, CellProducts(x, aRow, bRows))
    ensures StoredCell(cells, c) == ExpectedAt(x, aRow, bRows)(c)
  {
    hide Expected, CellProducts;
    if HasCell(cells, c) {
      var k :| 0 <= k < |cells| && cells[k].column == c;
      StoredCellAt(cells, k);
    } else {
      assert CellProducts(x, aRow, bRows)(c) == [];
      NothingExpected(x, c);
    }
  }

  lemma {:induction false} StoredVerdict(x: Numeric, table: Table, a: CsrMatrix, b: CsrMatrix, result: CsrMatrix, build: Build,
                                         serial: nat -> real, n: nat)
    requires x.Valid() && Shaped(a) && Shaped(b) && Shaped(result) && n <= a.rows == result.rows
    requires TableIsReference(x, table, a, b, result.cols, build, serial)
    ensures VisitTable(x, table, result, build, serial, n) == VisitRows(x, a, b, result, n)
  {
    hide VisitAll, StoredCell, RowCells, TableValue, RowOf, Rows, ExpectedAt, TableOk, CellProducts;
    if n > 0 {
      StoredVerdict(x, table, a, b, result, build, serial, n - 1);
      var cells := TableValue(table, n - 1, result.cols, build, serial);
      var aRow, bRows := RowOf(a, n - 1), Rows(b);
      forall c ensures StoredCells(cells)(c) == ExpectedAt(x, aRow, bRows)(c) {
        StoredIsExpected(x, cells, aRow, bRows, c);
      }
      VisitsAgree(x, VisitRows(x, a, b, result, n - 1), n - 1, RowOf(result, n - 1), StoredCells(cells), ExpectedAt(x, aRow, bRows),
                  result.cols);
    }
  }

  /** With a cache: the same checks and the same verdict as ValidateFull, whenever the file holds the reference
      rows of these inputs; an error exactly when the file is not the intact file of any table. */
  method ValidateCached(x: Numeric, a: CsrMatrix, b: CsrMatrix, result: CsrMatrix, bytes: Text, key: Text, build: Build,
                        digest: Digest, serial: nat -> real)
    returns (outcome: Result<ValidationResult>)
    requires x.Valid() && digest.Valid() && Small(result.rows) && Small(result.cols)
    ensures !Comparable(a, b, result) ==> outcome == Ok(Invalid)
    ensures Comparable(a, b, result) ==>
      (outcome.Ok? <==> exists table :: Holds(bytes, key, result.rows, result.cols, build, digest, table))
    ensures forall table ::
      Comparable(a, b, result) && Holds(bytes, key, result.rows, result.cols, build, digest, table) &&
      TableIsReference(x, table, a, b, result.cols, build, serial) ==>
      outcome == Ok(Compared(VisitRows(x, a, b, result, a.rows).rejected == 0, VisitRows(x, a, b, result, a.rows)))
  {
    hide Usable, VisitRows, Holds, TableIsReference, VisitTable, Shaped;
    var aValid := ValidNumericCsr(a, false);
    var bValid := ValidNumericCsr(b, false);
    var resultValid := ValidNumericCsr(result, true);
    if !aValid || !bValid || !resultValid || a.cols != b.rows || result.rows != a.rows || result.cols != b.cols {
      return Ok(Invalid);
    }
    ComparableShaped(a, b, result);
    ghost var table;
    var tally;
    tally, table := ValidateStored(x, result, bytes, key, build, digest, serial);
    if tally.Error? {
      return Error(tally.message);
    }
    outcome := Ok(Compared(tally.value.rejected == 0, tally.value));
    forall other | Holds(bytes, key, result.rows, result.cols, build, digest, other)
      && TableIsReference(x, other, a, b, result.cols, build, serial)
      ensures tally.value == VisitRows(x, a, b, result, a.rows)
    {
      OneTable(bytes, key, result.rows, result.cols, build, digest, table, other);
      StoredVerdict(x, table, a, b, result, build, serial, a.rows);
    }
  }

  lemma ComparableShaped(a: CsrMatrix, b: CsrMatrix, result: CsrMatrix)
    requires Comparable(a, b, result)
    ensures Shaped(a) && Shaped(b) && Shaped(result)
  {
  }
}
