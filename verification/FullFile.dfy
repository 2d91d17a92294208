/** Rows of the Full reference in a file, and the reader that checks them as it goes. */
module FullFile {
  import opened Arithmetic
  import opened Csr
  import opened Bytes
  import opened PartialCodec
  import opened FullCodec

  // ----- cells

  /** A cell whose fields fit their places in the file. */
  ghost predicate CellFits(cell: Cell, limbs: nat) {
    && 0 <= cell.column < 0x1_0000_0000 && 0 <= cell.terms <= 0x7fff_ffff_ffff_ffff && cell.serial < 0x1_0000_0000_0000_0000
    && FullCodec.Encodable(cell.reference, limbs) && FullCodec.Encodable(cell.bound, limbs)
  }

  ghost function CellText(cell: Cell, limbs: nat): (bytes: Text)
    requires CellFits(cell, limbs)
    ensures |bytes| == 28 + 16 * limbs
  {
    Little(cell.column, 4) + Little(cell.terms, 8) + Little(cell.serial, 8)
    + RealBytes(cell.reference, limbs) + RealBytes(cell.bound, limbs)
  }

  lemma CellLayout(cell: Cell, limbs: nat)
    requires CellFits(cell, limbs)
    ensures var bytes := CellText(cell, limbs);
            && bytes[..4] == Little(cell.column, 4) && bytes[4..12] == Little(cell.terms, 8)
            && bytes[12..20] == Little(cell.serial, 8) && bytes[20..24 + 8 * limbs] == RealBytes(cell.reference, limbs)
            && bytes[24 + 8 * limbs..] == RealBytes(cell.bound, limbs)
  {
    hide Little, RealBytes, FullCodec.Encodable;
    var column, terms, serial := Little(cell.column, 4), Little(cell.terms, 8), Little(cell.serial, 8);
    var reference, bound := RealBytes(cell.reference, limbs), RealBytes(cell.bound, limbs);
    var front := column + terms;
    assert front[..4] == column && front[4..12] == terms;
    var words := front + serial;
    assert words[..4] == front[..4] && words[4..12] == front[4..12] && words[12..20] == serial;
    var upToReference := words + reference;
    assert upToReference[..4] == words[..4] && upToReference[4..12] == words[4..12] && upToReference[12..20] == words[12..20];
    assert upToReference[20..24 + 8 * limbs] == reference;
    var bytes := CellText(cell, limbs);
    assert bytes == upToReference + bound;
    assert bytes[..4] == upToReference[..4] && bytes[4..12] == upToReference[4..12] && bytes[12..20] == upToReference[12..20];
    assert bytes[20..24 + 8 * limbs] == upToReference[20..24 + 8 * limbs];
  }

  /** The fields of a cell can be read off its text. */
  lemma CellReadBack(cell: Cell, limbs: nat)
    requires CellFits(cell, limbs)
    ensures var bytes := CellText(cell, limbs);
            && Number(bytes[..4]) == cell.column && Number(bytes[4..12]) == cell.terms && Number(bytes[12..20]) == cell.serial
            && Number(bytes[20..24]) < 0x2_0000 && Number(bytes[24 + 8 * limbs..28 + 8 * limbs]) < 0x2_0000
  {
    hide Little, Number, RealBytes;
    EightBytes();
    CellLayout(cell, limbs);
    NumberOfLittle(cell.column, 4);
    NumberOfLittle(cell.terms, 8);
    NumberOfLittle(cell.serial, 8);
    RealReadBack(cell.reference, cell.reference, limbs);
    RealReadBack(cell.bound, cell.bound, limbs);
    var bytes := CellText(cell, limbs);
    assert bytes[20..24] == bytes[20..24 + 8 * limbs][..4];
    assert bytes[24 + 8 * limbs..28 + 8 * limbs] == bytes[24 + 8 * limbs..][..4];
  }

  lemma CellInjective(cell: Cell, other: Cell, limbs: nat)
    requires CellFits(cell, limbs) && CellFits(other, limbs) && CellText(cell, limbs) == CellText(other, limbs)
    ensures cell == other
  {
    hide CellText, Number, RealBytes, FullCodec.Encodable;
    CellReadBack(cell, limbs);
    CellReadBack(other, limbs);
    CellLayout(cell, limbs);
    CellLayout(other, limbs);
    assert FullCodec.Encodable(cell.reference, limbs) && FullCodec.Encodable(other.reference, limbs);
    RealReadBack(cell.reference, other.reference, limbs);
    RealReadBack(cell.bound, other.bound, limbs);
  }

  method PutCell(bytes0: Text, cell: Cell, limbs: nat) returns (result: Result<Text>)
    requires 0 <= cell.column < 0x1_0000_0000 && 0 <= cell.terms <= 0x7fff_ffff_ffff_ffff && cell.serial < 0x1_0000_0000_0000_0000
    requires cell.reference.Binary? ==> cell.reference.numerator < Place(limbs)
    requires cell.bound.Binary? ==> cell.bound.numerator < Place(limbs)
    ensures result.Ok? <==> Writable(cell.reference) && Writable(cell.bound)
    ensures result.Ok? ==> CellFits(cell, limbs) && result.value == bytes0 + CellText(cell, limbs)
  {
    hide Little, RealBytes, Place;
    var bytes := Put(bytes0, cell.column, 4);
    bytes := Put(bytes, cell.terms, 8);
    bytes := Put(bytes, cell.serial, 8);
    var reference := PutReal(bytes, cell.reference, limbs);
    if reference.Error? {
      return reference;
    }
    result := PutReal(reference.value, cell.bound, limbs);
  }

  ghost predicate Writable(x: Real) {
    x.Binary? && -32768 < x.exponent < 32768
  }

  /** Reads one cell; it fails exactly if no cell of the matrix reads like this. */
  method GetCell(bytes: Text, at: nat, cols: Int32, limbs: nat) returns (result: Result<Cell>)
    requires at + 28 + 16 * limbs <= |bytes| && cols >= 0
    ensures result.Ok? ==> CellFits(result.value, limbs) && result.value.column < cols
    ensures result.Ok? ==> bytes[at..at + 28 + 16 * limbs] == CellText(result.value, limbs)
    ensures result.Error? ==> forall cell | CellFits(cell, limbs) && cell.column < cols ::
      bytes[at..at + 28 + 16 * limbs] != CellText(cell, limbs)
  {
    hide Number, Little, RealBytes, CellText, CellFits, FullCodec.Encodable;
    ghost var text := bytes[at..at + 28 + 16 * limbs];
    SlicesOfText(bytes, at, limbs);
    EightBytes();
    var column, next := Get(bytes, at, 4);
    var terms, serial;
    terms, next := Get(bytes, next, 8);
    serial, next := Get(bytes, next, 8);
    if column >= cols || terms > 0x7fff_ffff_ffff_ffff {
      NoSuchCell(text, cols, limbs);
      return Error("Full reference coordinate out of range");
    }
    var reference, bound;
    reference, next := GetReal(bytes, next, limbs);
    if reference.Error? {
      NoSuchCell(text, cols, limbs);
      return Error(reference.message);
    }
    bound, next := GetReal(bytes, next, limbs);
    if bound.Error? {
      NoSuchCell(text, cols, limbs);
      return Error(bound.message);
    }
    var cell := Cell(column, terms, serial, reference.value, bound.value);
    WhatWasRead(text, cell, limbs);
    result := Ok(cell);
  }

  lemma SlicesOfText(bytes: Text, at: nat, limbs: nat)
    requires at + 28 + 16 * limbs <= |bytes|
    ensures var text := bytes[at..at + 28 + 16 * limbs];
            && bytes[at..at + 4] == text[..4] && bytes[at + 4..at + 12] == text[4..12] && bytes[at + 12..at + 20] == text[12..20]
            && bytes[at + 20..at + 24] == text[20..24] && bytes[at + 20..at + 24 + 8 * limbs] == text[20..24 + 8 * limbs]
            && bytes[at + 24 + 8 * limbs..at + 28 + 8 * limbs] == text[24 + 8 * limbs..28 + 8 * limbs]
            && bytes[at + 24 + 8 * limbs..at + 28 + 16 * limbs] == text[24 + 8 * limbs..]
  {
    var to := at + 28 + 16 * limbs;
    SliceOfSlice(bytes, at, to, 0, 4);
    SliceOfSlice(bytes, at, to, 4, 12);
    SliceOfSlice(bytes, at, to, 12, 20);
    SliceOfSlice(bytes, at, to, 20, 24);
    SliceOfSlice(bytes, at, to, 20, 24 + 8 * limbs);
    SliceOfSlice(bytes, at, to, 24 + 8 * limbs, 28 + 8 * limbs);
    SliceOfSlice(bytes, at, to, 24 + 8 * limbs, 28 + 16 * limbs);
  }

  lemma NoSuchCell(text: Text, cols: Int32, limbs: nat)
    requires |text| == 28 + 16 * limbs
    requires || Number(text[..4]) >= cols || Number(text[4..12]) > 0x7fff_ffff_ffff_ffff
             || Number(text[20..24]) >= 0x2_0000 || Number(text[24 + 8 * limbs..28 + 8 * limbs]) >= 0x2_0000
    ensures forall cell | CellFits(cell, limbs) && cell.column < cols :: text != CellText(cell, limbs)
  {
    hide Number, CellText, FullCodec.Encodable;
    forall cell | CellFits(cell, limbs) && cell.column < cols ensures text != CellText(cell, limbs) {
      CellReadBack(cell, limbs);
    }
  }

  lemma WhatWasRead(text: Text, cell: Cell, limbs: nat)
    requires |text| == 28 + 16 * limbs
    requires cell.column == Number(text[..4]) && cell.terms == Number(text[4..12]) <= 0x7fff_ffff_ffff_ffff
    requires cell.serial == Number(text[12..20])
    requires FullCodec.Encodable(cell.reference, limbs) && FullCodec.Encodable(cell.bound, limbs)
    requires text[20..24 + 8 * limbs] == RealBytes(cell.reference, limbs)
    requires text[24 + 8 * limbs..] == RealBytes(cell.bound, limbs)
    ensures CellFits(cell, limbs) && text == CellText(cell, limbs)
  {
    hide Number, Little, RealBytes, FullCodec.Encodable;
    EightBytes();
    NumberBelow(text[..4]);
    NumberBelow(text[12..20]);
    LittleOfNumber(text[..4]);
    LittleOfNumber(text[4..12]);
    LittleOfNumber(text[12..20]);
    assert text == text[..4] + text[4..12] + text[12..20] + text[20..24 + 8 * limbs] + text[24 + 8 * limbs..];
  }

  // ----- rows

  /** The exponent field of a binary64 is not all ones. */
  predicate SerialFinite(serial: nat) {
    serial / 0x10_0000_0000_0000 % 0x800 != 0x7ff
  }

  ghost predicate CellValid(cell: Cell, cols: int) {
    && 0 <= cell.column < cols && cell.terms > 0 && SerialFinite(cell.serial)
    && cell.reference.Binary? && cell.bound.Binary? && !(cell.bound.negative && cell.bound.numerator > 0)
  }

  ghost predicate RowValid(row: seq<Cell>, cols: int) {
    && (forall k :: 0 <= k < |row| ==> CellValid(row[k], cols))
    && forall k, l :: 0 <= k < l < |row| ==> row[k].column < row[l].column
  }

  method CheckRow(row: seq<Cell>, cols: int) returns (ok: bool)
    ensures ok <==> RowValid(row, cols)
  {
    var previous := -1;
    for k := 0 to |row|
      invariant RowValid(row[..k], cols)
      invariant previous == if k == 0 then -1 else row[k - 1].column
    {
      var cell := row[k];
      GoodCell(row, cols, k, previous);
      if cell.column <= previous || cell.column >= cols || cell.terms <= 0 || !SerialFinite(cell.serial)
         || cell.reference.NotFinite? || cell.bound.NotFinite? || (cell.bound.negative && cell.bound.numerator > 0) {
        return false;
      }
      previous := cell.column;
    }
    assert row[..|row|] == row;
    ok := true;
  }

  lemma GoodCell(row: seq<Cell>, cols: int, k: nat, previous: int)
    requires k < |row| && previous == if k == 0 then -1 else row[k - 1].column
    ensures RowValid(row, cols) ==> previous < row[k].column && CellValid(row[k], cols)
  {
  }

  ghost predicate RowFits(row: seq<Cell>, limbs: nat) {
    forall k :: 0 <= k < |row| ==> CellFits(row[k], limbs)
  }

  ghost function CellsSize(n: nat, limbs: nat): nat {
    if n == 0 then 0 else CellsSize(n - 1, limbs) + 28 + 16 * limbs
  }

  lemma {:induction false} CellsSizeIs(n: nat, limbs: nat)
    ensures CellsSize(n, limbs) == n * (28 + 16 * limbs)
  {
    if n > 0 {
      CellsSizeIs(n - 1, limbs);
      MulDistributes(n - 1, 1, 28 + 16 * limbs);
    }
  }

  lemma {:induction false} SizeMonotone(k: nat, n: nat, limbs: nat)
    requires k <= n
    ensures CellsSize(k, limbs) <= CellsSize(n, limbs)
    decreases n
  {
    if k < n {
      SizeMonotone(k, n - 1, limbs);
    }
  }

  ghost function CellsText(row: seq<Cell>, n: nat, limbs: nat): (bytes: Text)
    requires n <= |row| && RowFits(row, limbs)
    ensures |bytes| == CellsSize(n, limbs)
  {
    if n == 0 then [] else CellsText(row, n - 1, limbs) + CellText(row[n - 1], limbs)
  }

  /** The text of cell k. */
  lemma {:induction false} CellsTextAt(row: seq<Cell>, n: nat, k: nat, limbs: nat)
    requires k < n <= |row| && RowFits(row, limbs)
    ensures CellsSize(k, limbs) + 28 + 16 * limbs == CellsSize(k + 1, limbs) <= CellsSize(n, limbs)
    ensures CellsText(row, n, limbs)[CellsSize(k, limbs)..CellsSize(k + 1, limbs)] == CellText(row[k], limbs)
  {
    hide CellText, CellFits;
    var at, to := CellsSize(k, limbs), CellsSize(k + 1, limbs);
    if k < n - 1 {
      CellsTextAt(row, n - 1, k, limbs);
      var before := CellsText(row, n - 1, limbs);
      assert (before + CellText(row[n - 1], limbs))[at..to] == before[at..to];
    }
  }

  lemma CellsInjective(row: seq<Cell>, other: seq<Cell>, limbs: nat)
    requires RowFits(row, limbs) && RowFits(other, limbs) && |row| == |other|
    requires CellsText(row, |row|, limbs) == CellsText(other, |row|, limbs)
    ensures row == other
  {
    hide CellText, CellFits, CellsText, CellsSize;
    forall k | 0 <= k < |row| ensures row[k] == other[k] {
      CellsTextAt(row, |row|, k, limbs);
      CellsTextAt(other, |row|, k, limbs);
      assert CellFits(row[k], limbs) && CellFits(other[k], limbs);
      CellInjective(row[k], other[k], limbs);
    }
  }

  ghost predicate Readable(row: seq<Cell>, cols: int, limbs: nat) {
    RowFits(row, limbs) && forall k :: 0 <= k < |row| ==> row[k].column < cols
  }

  /** Reads some cells; it fails exactly if no cells of the matrix read like this. */
  method GetCells(bytes: Text, at: nat, count: nat, cols: Int32, limbs: nat) returns (result: Result<seq<Cell>>)
    requires at + CellsSize(count, limbs) <= |bytes| && cols >= 0
    ensures result.Ok? ==> |result.value| == count && Readable(result.value, cols, limbs)
    ensures result.Ok? ==> bytes[at..at + CellsSize(count, limbs)] == CellsText(result.value, count, limbs)
    ensures result.Error? ==> forall row | |row| == count && Readable(row, cols, limbs) ::
      bytes[at..at + CellsSize(count, limbs)] != CellsText(row, count, limbs)
  {
    hide CellText, CellFits, CellsText;
    var row: seq<Cell> := [];
    var next := at;
    EmptyText(row, limbs);
    for i := 0 to count
      invariant |row| == i && Readable(row, cols, limbs) && next == at + CellsSize(i, limbs) <= |bytes|
      invariant bytes[at..next] == CellsText(row, i, limbs)
    {
      SizeMonotone(i + 1, count, limbs);
      var cell := GetCell(bytes, next, cols, limbs);
      if cell.Error? {
        NoSuchCells(bytes, at, count, cols, limbs, i);
        return Error(cell.message);
      }
      OneMoreCell(row, cell.value, limbs);
      assert bytes[at..next] + bytes[next..next + 28 + 16 * limbs] == bytes[at..next + 28 + 16 * limbs];
      row, next := row + [cell.value], next + 28 + 16 * limbs;
    }
    result := Ok(row);
  }

  lemma EmptyText(row: seq<Cell>, limbs: nat)
    requires row == []
    ensures CellsText(row, 0, limbs) == []
  {
  }

  lemma OneMoreCell(row: seq<Cell>, cell: Cell, limbs: nat)
    requires RowFits(row, limbs) && CellFits(cell, limbs)
    ensures RowFits(row + [cell], limbs)
    ensures CellsText(row + [cell], |row| + 1, limbs) == CellsText(row, |row|, limbs) + CellText(cell, limbs)
  {
    CellsPrefix(row, [cell], |row|, limbs);
  }

  lemma {:induction false} CellsPrefix(row: seq<Cell>, more: seq<Cell>, n: nat, limbs: nat)
    requires n <= |row| && RowFits(row, limbs) && RowFits(row + more, limbs)
    ensures CellsText(row + more, n, limbs) == CellsText(row, n, limbs)
  {
    hide CellText, RowFits;
    if n > 0 {
      CellsPrefix(row, more, n - 1, limbs);
    }
  }

  lemma NoSuchCells(bytes: Text, at: nat, count: nat, cols: Int32, limbs: nat, i: nat)
    requires i < count && at + CellsSize(count, limbs) <= |bytes|
    requires at + CellsSize(i, limbs) + 28 + 16 * limbs <= |bytes|
    requires forall cell | CellFits(cell, limbs) && cell.column < cols ::
      bytes[at + CellsSize(i, limbs)..at + CellsSize(i, limbs) + 28 + 16 * limbs] != CellText(cell, limbs)
    ensures forall row | |row| == count && Readable(row, cols, limbs) ::
      bytes[at..at + CellsSize(count, limbs)] != CellsText(row, count, limbs)
  {
    hide CellText, CellFits, CellsText, CellsSize;
    forall row | |row| == count && Readable(row, cols, limbs)
      ensures bytes[at..at + CellsSize(count, limbs)] != CellsText(row, count, limbs)
    {
      CellsTextAt(row, count, i, limbs);
      SliceOfSlice(bytes, at, at + CellsSize(count, limbs), CellsSize(i, limbs), CellsSize(i + 1, limbs));
    }
  }

  ghost function RowText(row: seq<Cell>, limbs: nat): (bytes: Text)
    requires RowFits(row, limbs)
    ensures |bytes| == 8 + CellsSize(|row|, limbs)
  {
    Little(|row|, 8) + CellsText(row, |row|, limbs)
  }

  /** Distinct columns below `cols` are at most `cols` many. */
  lemma {:induction false} RowLengthBelow(row: seq<Cell>, cols: int, n: nat)
    requires RowValid(row, cols) && 0 < n <= |row|
    ensures n <= row[n - 1].column + 1 <= cols
  {
    assert CellValid(row[n - 1], cols);
    if n > 1 {
      RowLengthBelow(row, cols, n - 1);
      assert row[n - 2].column < row[n - 1].column;
    }
  }

  lemma RowNotLonger(row: seq<Cell>, cols: Int32)
    requires RowValid(row, cols) && cols >= 0
    ensures |row| <= cols
  {
    if |row| > 0 {
      RowLengthBelow(row, cols, |row|);
    }
  }

  ghost predicate PrefixAt(bytes: Text, at: nat, text: Text) {
    at + |text| <= |bytes| && bytes[at..at + |text|] == text
  }

  // ----- from the words of a row to its numbers

  function DecodedCell(build: Build, cell: Cell): Cell
  {
    Cell(cell.column, cell.terms, cell.serial, Decoded(build, cell.reference), Decoded(build, cell.bound))
  }

  function DecodedRow(build: Build, row: seq<Cell>): (decoded: seq<Cell>)
    ensures |decoded| == |row| && forall k :: 0 <= k < |row| ==> decoded[k] == DecodedCell(build, row[k])
  {
    if row == [] then [] else DecodedRow(build, row[..|row| - 1]) + [DecodedCell(build, row[|row| - 1])]
  }

  /** A row whose words may stand in a file: the numbers they make are a valid row. */
  ghost predicate Storable(row: seq<Cell>, cols: int, build: Build) {
    RowValid(DecodedRow(build, row), cols) && RowFits(row, build.Limbs())
  }

  lemma StoredIsReadable(row: seq<Cell>, cols: int, build: Build)
    requires Storable(row, cols, build)
    ensures Readable(row, cols, build.Limbs())
  {
    hide CellFits, Decoded;
    forall k | 0 <= k < |row| ensures row[k].column < cols {
      assert CellValid(DecodedRow(build, row)[k], cols);
    }
  }

  lemma RowInFront(bytes: Text, at: nat, row: seq<Cell>, cols: Int32, build: Build)
    requires Storable(row, cols, build) && cols >= 0 && PrefixAt(bytes, at, RowText(row, build.Limbs()))
    ensures |row| <= cols && Readable(row, cols, build.Limbs()) && at + 8 + CellsSize(|row|, build.Limbs()) <= |bytes|
    ensures Number(bytes[at..at + 8]) == |row|
    ensures bytes[at + 8..at + 8 + CellsSize(|row|, build.Limbs())] == CellsText(row, |row|, build.Limbs())
  {
    hide CellsText, CellsSize, RowFits, RowValid, RowText, PrefixAt, DecodedRow, Little, Number;
    RowNotLonger(DecodedRow(build, row), cols);
    EightBytes();
    NumberOfLittle(|row|, 8);
    RowSlices(bytes, at, row, build.Limbs());
    StoredIsReadable(row, cols, build);
  }

  lemma RowSlices(bytes: Text, at: nat, row: seq<Cell>, limbs: nat)
    requires RowFits(row, limbs) && PrefixAt(bytes, at, RowText(row, limbs))
    ensures at + 8 + CellsSize(|row|, limbs) <= |bytes| && bytes[at..at + 8] == Little(|row|, 8)
    ensures bytes[at + 8..at + 8 + CellsSize(|row|, limbs)] == CellsText(row, |row|, limbs)
  {
    hide CellsText, CellsSize, RowFits, Little;
    var to := at + 8 + CellsSize(|row|, limbs);
    var text := RowText(row, limbs);
    assert text[0..8] == Little(|row|, 8) && text[8..8 + CellsSize(|row|, limbs)] == CellsText(row, |row|, limbs);
    SliceOfSlice(bytes, at, to, 0, 8);
    SliceOfSlice(bytes, at, to, 8, 8 + CellsSize(|row|, limbs));
  }

  /** At most one row stands at a position. */
  lemma RowUnique(bytes: Text, at: nat, row: seq<Cell>, other: seq<Cell>, cols: Int32, build: Build)
    requires Storable(row, cols, build) && Storable(other, cols, build) && cols >= 0
    requires PrefixAt(bytes, at, RowText(row, build.Limbs())) && PrefixAt(bytes, at, RowText(other, build.Limbs()))
    ensures row == other
  {
    hide CellsText, RowFits, RowText, CellsSize, Number;
    RowInFront(bytes, at, row, cols, build);
    RowInFront(bytes, at, other, cols, build);
    CellsInjective(row, other, build.Limbs());
  }
}
