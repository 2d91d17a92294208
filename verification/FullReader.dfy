/** Writing a Full reference, and the reader that accepts exactly what was written. */
module FullReader {
  import opened Csr
  import opened Bytes
  import opened PartialCodec
  import opened FullCodec
  import opened FullFile

  type Table = seq<seq<Cell>>

  /** "SPFR0001" */
  const FullMagic: Text := [83, 80, 70, 82, 48, 48, 48, 49]

  ghost predicate HeaderOk(rows: Int32, cols: Int32, build: Build) {
    rows >= 0 && cols >= 0 && build.Limbs() <= 2
  }

  ghost function HeaderText(key: Text, rows: Int32, cols: Int32, build: Build): (bytes: Text)
    requires HeaderOk(rows, cols, build)
    ensures |bytes| == 48 + |key|
  {
    FullMagic + key + Little(rows, 8) + Little(cols, 8) + Little(build.digits, 8) + Little(build.maxExponent, 8)
    + Little(build.CellBytes(), 8)
  }

  ghost predicate TableOk(table: Table, cols: int, build: Build) {
    forall r :: 0 <= r < |table| ==> Storable(table[r], cols, build)
  }

  ghost function RowsText(table: Table, n: nat, cols: int, build: Build): Text
    requires n <= |table| && TableOk(table, cols, build)
  {
    if n == 0 then [] else RowsText(table, n - 1, cols, build) + RowText(table[n - 1], build.Limbs())
  }

  ghost function FileBody(key: Text, rows: Int32, cols: Int32, build: Build, table: Table): Text
    requires HeaderOk(rows, cols, build) && TableOk(table, cols, build)
  {
    HeaderText(key, rows, cols, build) + RowsText(table, |table|, cols, build)
  }

  /** The file of a table. */
  ghost predicate Holds(bytes: Text, key: Text, rows: Int32, cols: Int32, build: Build, digest: Digest, table: Table) {
    && HeaderOk(rows, cols, build) && TableOk(table, cols, build) && |table| == rows
    && bytes == FileBody(key, rows, cols, build, table) + digest.of(FileBody(key, rows, cols, build, table))
  }

  // ----- writing

  method WriteHeader(key: Text, rows: Int32, cols: Int32, build: Build) returns (result: Result<Text>)
    ensures result.Ok? <==> HeaderOk(rows, cols, build)
    ensures result.Ok? ==> result.value == HeaderText(key, rows, cols, build)
  {
    hide Little;
    if rows < 0 || cols < 0 || build.Limbs() > 2 {
      return Error("unsupported Full reference metadata");
    }
    var bytes := FullMagic + key;
    bytes := Put(bytes, rows, 8);
    bytes := Put(bytes, cols, 8);
    bytes := Put(bytes, build.digits, 8);
    bytes := Put(bytes, build.maxExponent, 8);
    bytes := Put(bytes, build.CellBytes(), 8);
    result := Ok(bytes);
  }

  /** The ranges of the C++ field types. */
  ghost predicate Typed(cell: Cell, build: Build) {
    && -0x8000_0000 <= cell.column < 0x8000_0000 && cell.terms <= 0x7fff_ffff_ffff_ffff && cell.serial < 0x1_0000_0000_0000_0000
    && IsLongDouble(build, cell.reference) && IsLongDouble(build, cell.bound)
  }

  /** Long doubles stand for themselves. */
  lemma TypedDecodes(row: seq<Cell>, build: Build)
    requires forall k :: 0 <= k < |row| ==> Typed(row[k], build)
    ensures DecodedRow(build, row) == row
  {
    forall k | 0 <= k < |row| ensures DecodedRow(build, row)[k] == row[k] {
      assert Typed(row[k], build);
      DecodedWritten(build, row[k].reference);
      DecodedWritten(build, row[k].bound);
    }
  }

  ghost predicate RowWritable(row: seq<Cell>, cols: int) {
    RowValid(row, cols) && forall k :: 0 <= k < |row| ==> Writable(row[k].reference) && Writable(row[k].bound)
  }

  method WriteRow(row: seq<Cell>, cols: Int32, build: Build) returns (result: Result<Text>)
    requires forall k :: 0 <= k < |row| ==> Typed(row[k], build)
    ensures result.Ok? <==> RowWritable(row, cols)
    ensures result.Ok? ==> Storable(row, cols, build) && result.value == RowText(row, build.Limbs())
  {
    hide Little, CellText, CellsText, CellsSize, CellFits, DecodedRow, Normalised, Exact;
    var ok := CheckRow(row, cols);
    if !ok {
      return Error("invalid Full reference coordinate");
    }
    var bytes := Put([], |row|, 8);
    assert row[..0] == [];
    EmptyText(row[..0], build.Limbs());
    for k := 0 to |row|
      invariant forall l :: 0 <= l < k ==> Writable(row[l].reference) && Writable(row[l].bound)
      invariant RowFits(row[..k], build.Limbs()) && bytes == Little(|row|, 8) + CellsText(row[..k], k, build.Limbs())
    {
      assert CellValid(row[k], cols) && Typed(row[k], build);
      var next := PutCell(bytes, row[k], build.Limbs());
      if next.Error? {
        return next;
      }
      OneMoreCell(row[..k], row[k], build.Limbs());
      assert row[..k] + [row[k]] == row[..k + 1];
      bytes := next.value;
    }
    assert row[..|row|] == row;
    TypedDecodes(row, build);
    result := Ok(bytes);
  }

  method WriteFile(key: Text, rows: Int32, cols: Int32, build: Build, table: Table, digest: Digest) returns (result: Result<Text>)
    requires rows >= 0 ==> |table| == rows
    requires forall r, k :: 0 <= r < |table| && 0 <= k < |table[r]| ==> Typed(table[r][k], build)
    ensures result.Ok? <==> HeaderOk(rows, cols, build) && forall r :: 0 <= r < rows ==> RowWritable(table[r], cols)
    ensures result.Ok? ==> Holds(result.value, key, rows, cols, build, digest, table)
  {
    hide HeaderText, RowText, RowWritable, RowFits, RowValid;
    var header := WriteHeader(key, rows, cols, build);
    if header.Error? {
      return header;
    }
    var bytes := header.value;
    for r := 0 to rows
      invariant forall q :: 0 <= q < r ==> RowWritable(table[q], cols)
      invariant TableOk(table[..r], cols, build)
      invariant bytes == header.value + RowsText(table[..r], r, cols, build)
    {
      var row := WriteRow(table[r], cols, build);
      if row.Error? {
        return row;
      }
      OneMoreRow(table[..r], table[r], cols, build);
      assert table[..r] + [table[r]] == table[..r + 1];
      bytes := bytes + row.value;
    }
    assert table[..rows] == table;
    result := Ok(bytes + digest.of(bytes));
  }

  lemma OneMoreRow(table: Table, row: seq<Cell>, cols: int, build: Build)
    requires TableOk(table, cols, build) && Storable(row, cols, build)
    ensures TableOk(table + [row], cols, build)
    ensures RowsText(table + [row], |table| + 1, cols, build) == RowsText(table, |table|, cols, build) + RowText(row, build.Limbs())
  {
    hide RowText, RowFits, RowValid;
    RowsPrefix(table, [row], |table|, cols, build);
  }

  lemma {:induction false} RowsPrefix(table: Table, more: Table, n: nat, cols: int, build: Build)
    requires n <= |table| && TableOk(table, cols, build) && TableOk(table + more, cols, build)
    ensures RowsText(table + more, n, cols, build) == RowsText(table, n, cols, build)
  {
    hide RowText, RowFits, RowValid;
    if n > 0 {
      RowsPrefix(table, more, n - 1, cols, build);
    }
  }

  // ----- reading

  class FullReferenceReader {
    const bytes: Text
    const rows: Int32
    const cols: Int32
    const build: Build
    var at: nat
    var next: nat
    var finished: bool

    ghost predicate Valid()
      reads this
    {
      HeaderOk(rows, cols, build) && at <= |bytes| && next <= rows
    }

    /** The next row would begin here. */
    constructor (bytes: Text, rows: Int32, cols: Int32, build: Build)
      requires HeaderOk(rows, cols, build)
      ensures Valid() && at == 0 && next == 0 && !finished
      ensures this.bytes == bytes && this.rows == rows && this.cols == cols && this.build == build
    {
      this.bytes, this.rows, this.cols, this.build := bytes, rows, cols, build;
      at, next, finished := 0, 0, false;
    }

    /** Every byte read so far is in the running hash: it is that of bytes[..at]. */
    method Read(size: nat) returns (chunk: Result<Text>)
      requires Valid()
      modifies this`at
      ensures Valid() && (chunk.Ok? <==> old(at) + size <= |bytes|)
      ensures chunk.Ok? ==> at == old(at) + size && chunk.value == bytes[old(at)..at]
    {
      if at + size > |bytes| {
        return Error("missing/truncated Full cache; prepare references before recovery");
      }
      chunk := Ok(bytes[at..at + size]);
      at := at + size;
    }

    method Open(key: Text) returns (outcome: Result<bool>)
      requires Valid() && at == 0
      modifies this`at
      ensures Valid() && (outcome.Ok? <==> PrefixAt(bytes, 0, HeaderText(key, rows, cols, build)))
      ensures outcome.Ok? ==> at == |HeaderText(key, rows, cols, build)|
    {
      hide HeaderText;
      var expected := WriteHeader(key, rows, cols, build);
      var found := Read(|expected.value|);
      if found.Error? || found.value != expected.value {
        return Error("incompatible Full reference header/build/input");
      }
      outcome := Ok(true);
    }

    /** The number of cells of the next row. */
    method ReadCount() returns (count: Result<nat>)
      requires Valid()
      modifies this`at
      ensures Valid()
      ensures count.Ok? ==> at == old(at) + 8 && count.value == Number(bytes[old(at)..old(at) + 8]) <= cols
      ensures count.Error? ==> NoRowAt(bytes, old(at), cols, build)
    {
      hide NoRowAt, Number;
      ghost var start := at;
      var chunk := Read(8);
      if chunk.Error? {
        NoRow(bytes, start, cols, build);
        return Error(chunk.message);
      }
      var value, behind := Get(chunk.value, 0, 8);
      assert chunk.value[0..8] == bytes[start..start + 8];
      if value > cols {
        NoRow(bytes, start, cols, build);
        return Error("invalid Full reference row length");
      }
      count := Ok(value);
    }

    /** The cells of a row whose count has been read. */
    method ReadCells(count: nat, ghost start: nat) returns (cells: Result<seq<Cell>>)
      requires Valid() && at == start + 8 && count == Number(bytes[start..start + 8]) <= cols
      modifies this`at
      ensures Valid()
      ensures cells.Ok? ==> at == start + 8 + CellsSize(count, build.Limbs()) && |cells.value| == count
      ensures cells.Ok? ==> RowFits(cells.value, build.Limbs()) && bytes[start + 8..at] == CellsText(cells.value, count, build.Limbs())
      ensures cells.Error? ==> NoRowAt(bytes, start, cols, build)
    {
      hide NoRowAt, Number, CellsText, RowFits, CellsSize, Readable;
      CellsSizeIs(count, build.Limbs());
      var chunk := Read(count * build.CellBytes());
      if chunk.Error? {
        NoRow(bytes, start, cols, build);
        return Error(chunk.message);
      }
      assert chunk.value[0..|chunk.value|] == chunk.value;
      cells := GetCells(chunk.value, 0, count, cols, build.Limbs());
      if cells.Error? {
        NoRow(bytes, start, cols, build);
        return;
      }
      ReadableFits(cells.value, cols, build);
    }

    /** Accepts exactly words that make a valid row, and returns the numbers they make. */
    method ReadRow() returns (row: Result<seq<Cell>>, ghost stored: seq<Cell>)
      requires Valid()
      modifies this`at, this`next
      ensures Valid() && next == old(next) + if row.Ok? then 1 else 0
      ensures row.Ok? ==> old(next) < rows && !finished && Storable(stored, cols, build) && row.value == DecodedRow(build, stored)
      ensures row.Ok? ==> old(at) <= at && bytes[old(at)..at] == RowText(stored, build.Limbs())
      ensures row.Error? ==> old(next) >= rows || finished || NoRowAt(bytes, old(at), cols, build)
    {
      hide RowText, CellsText, Number, RowFits, RowValid, CellsSize, NoRowAt, DecodedRow;
      stored := [];
      if next >= rows || finished {
        return Error("Full reference row overflow"), stored;
      }
      ghost var start := at;
      var count := ReadCount();
      if count.Error? {
        return Error(count.message), stored;
      }
      var cells := ReadCells(count.value, start);
      if cells.Error? {
        return cells, stored;
      }
      var decoded := DecodedRow(build, cells.value);
      var ok := CheckRow(decoded, cols);
      if !ok {
        OtherRowsDiffer(bytes, start, cells.value, cols, build);
        return Error("invalid Full reference coordinate"), stored;
      }
      RowWasRead(bytes, start, cells.value, cols, build);
      next := next + 1;
      row, stored := Ok(decoded), cells.value;
    }

    /** The checksum of everything read, and nothing after it. */
    method Finish(digest: Digest) returns (done: Result<bool>)
      requires Valid() && digest.Valid()
      modifies this`at, this`finished
      ensures Valid() && next == old(next)
      ensures done.Ok? <==> !old(finished) && next == rows && bytes[old(at)..] == digest.of(bytes[..old(at)])
      ensures finished == (old(finished) || done.Ok?)
    {
      if finished || next != rows {
        return Error("Full reference not completely read");
      }
      var hash := digest.of(bytes[..at]);
      var stored := Read(64);
      if stored.Error? || stored.value != hash || at != |bytes| {
        return Error("corrupt Full reference checksum/trailing data");
      }
      finished := true;
      done := Ok(true);
    }
  }

  ghost predicate NoRowAt(bytes: Text, at: nat, cols: Int32, build: Build) {
    forall r :: Storable(r, cols, build) ==> !PrefixAt(bytes, at, RowText(r, build.Limbs()))
  }

  lemma ReadableFits(row: seq<Cell>, cols: int, build: Build)
    requires Readable(row, cols, build.Limbs())
    ensures RowFits(row, build.Limbs())
  {
  }

  /** No row stands where the count, the length or the cells of one are missing. */
  lemma NoRow(bytes: Text, at: nat, cols: Int32, build: Build)
    requires cols >= 0 && at <= |bytes|
    requires
      || at + 8 > |bytes|
      || Number(bytes[at..at + 8]) > cols
      || at + 8 + CellsSize(Number(bytes[at..at + 8]), build.Limbs()) > |bytes|
      || (forall row | |row| == Number(bytes[at..at + 8]) && Readable(row, cols, build.Limbs()) ::
            bytes[at + 8..at + 8 + CellsSize(Number(bytes[at..at + 8]), build.Limbs())] != CellsText(row, |row|, build.Limbs()))
    ensures NoRowAt(bytes, at, cols, build)
  {
    hide RowText, CellsText, Number, CellsSize, PrefixAt, RowFits, RowValid;
    forall row | Storable(row, cols, build) && PrefixAt(bytes, at, RowText(row, build.Limbs())) ensures false {
      RowInFront(bytes, at, row, cols, build);
    }
  }

  /** Cells that were read but are no valid row leave no valid row to be read. */
  lemma OtherRowsDiffer(bytes: Text, at: nat, cells: seq<Cell>, cols: Int32, build: Build)
    requires cols >= 0 && RowFits(cells, build.Limbs()) && !RowValid(DecodedRow(build, cells), cols)
    requires at + 8 + CellsSize(|cells|, build.Limbs()) <= |bytes|
    requires Number(bytes[at..at + 8]) == |cells|
    requires bytes[at + 8..at + 8 + CellsSize(|cells|, build.Limbs())] == CellsText(cells, |cells|, build.Limbs())
    ensures NoRowAt(bytes, at, cols, build)
  {
    hide RowText, CellsText, Number, CellsSize, RowFits, RowValid;
    forall r | Storable(r, cols, build) && PrefixAt(bytes, at, RowText(r, build.Limbs())) ensures false {
      RowInFront(bytes, at, r, cols, build);
      CellsInjective(cells, r, build.Limbs());
    }
  }

  lemma RowWasRead(bytes: Text, at: nat, cells: seq<Cell>, cols: Int32, build: Build)
    requires RowFits(cells, build.Limbs()) && at + 8 + CellsSize(|cells|, build.Limbs()) <= |bytes|
    requires Number(bytes[at..at + 8]) == |cells|
    requires bytes[at + 8..at + 8 + CellsSize(|cells|, build.Limbs())] == CellsText(cells, |cells|, build.Limbs())
    ensures bytes[at..at + 8 + CellsSize(|cells|, build.Limbs())] == RowText(cells, build.Limbs())
  {
    hide CellsText, Number, CellsSize, RowFits, Little;
    LittleOfNumber(bytes[at..at + 8]);
    var to := at + 8 + CellsSize(|cells|, build.Limbs());
    assert bytes[at..to] == bytes[at..at + 8] + bytes[at + 8..to];
  }

  ghost function DecodedTable(build: Build, table: Table): (decoded: Table)
    ensures |decoded| == |table| && forall r :: 0 <= r < |table| ==> decoded[r] == DecodedRow(build, table[r])
  {
    seq(|table|, r requires 0 <= r < |table| => DecodedRow(build, table[r]))
  }

  /** Header, every row, checksum: succeeds exactly on the file of a table, and returns the table's numbers. */
  method ReadFile(bytes: Text, key: Text, rows: Int32, cols: Int32, build: Build, digest: Digest) returns (result: Result<Table>)
    requires digest.Valid()
    ensures result.Ok? <==> exists table :: Holds(bytes, key, rows, cols, build, digest, table)
    ensures forall table :: Holds(bytes, key, rows, cols, build, digest, table) ==>
      result.Ok? && result.value == DecodedTable(build, table)
  {
    hide HeaderText, RowText, RowFits, RowValid, RowsText, TableOk, Holds, FileBody, PrefixAt, DecodedRow;
    if rows < 0 || cols < 0 || build.Limbs() > 2 {
      NoHeader(bytes, key, rows, cols, build, digest);
      return Error("unsupported Full reference metadata");
    }
    var reader := new FullReferenceReader(bytes, rows, cols, build);
    HeaderStands(bytes, key, rows, cols, build, digest);
    var header := reader.Open(key);
    if header.Error? {
      return Error(header.message);
    }
    var numbers: Table := [];
    ghost var table: Table := [];
    NothingRead(bytes, key, rows, cols, build);
    for r := 0 to rows
      invariant reader.Valid() && reader.next == r && !reader.finished
      invariant ReadSoFar(bytes, key, rows, cols, build, table, r, reader.at) && |table| == r
      invariant numbers == DecodedTable(build, table)
    {
      ghost var before := reader.at;
      var row, stored := reader.ReadRow();
      if row.Error? {
        NoTable(bytes, key, rows, cols, build, digest, table, r, before);
        return Error(row.message);
      }
      ReadOneMore(bytes, key, rows, cols, build, table, r, before, stored, reader.at);
      table, numbers := table + [stored], numbers + [row.value];
    }
    ChecksumStands(bytes, key, rows, cols, build, digest, table, reader.at);
    var done := reader.Finish(digest);
    if done.Error? {
      return Error(done.message);
    }
    result := Ok(numbers);
  }

  lemma NoHeader(bytes: Text, key: Text, rows: Int32, cols: Int32, build: Build, digest: Digest)
    requires !HeaderOk(rows, cols, build)
    ensures !exists table :: Holds(bytes, key, rows, cols, build, digest, table)
  {
  }

  lemma HeaderStands(bytes: Text, key: Text, rows: Int32, cols: Int32, build: Build, digest: Digest)
    requires HeaderOk(rows, cols, build)
    ensures forall table :: Holds(bytes, key, rows, cols, build, digest, table) ==>
      PrefixAt(bytes, 0, HeaderText(key, rows, cols, build))
  {
    hide HeaderText, RowText, RowFits, RowValid, RowsText;
    forall table | Holds(bytes, key, rows, cols, build, digest, table)
      ensures PrefixAt(bytes, 0, HeaderText(key, rows, cols, build))
    {
      var header, rest := HeaderText(key, rows, cols, build), RowsText(table, |table|, cols, build);
      assert bytes == header + (rest + digest.of(header + rest));
    }
  }

  /** The header and the rows of `table` end at position `at`. */
  ghost predicate ReadSoFar(bytes: Text, key: Text, rows: Int32, cols: Int32, build: Build, table: Table, n: nat, at: nat) {
    && HeaderOk(rows, cols, build) && TableOk(table, cols, build) && |table| == n && at <= |bytes|
    && bytes[..at] == FileBody(key, rows, cols, build, table)
  }

  lemma NothingRead(bytes: Text, key: Text, rows: Int32, cols: Int32, build: Build)
    requires HeaderOk(rows, cols, build) && PrefixAt(bytes, 0, HeaderText(key, rows, cols, build))
    ensures ReadSoFar(bytes, key, rows, cols, build, [], 0, |HeaderText(key, rows, cols, build)|)
  {
    hide HeaderText;
    var header := HeaderText(key, rows, cols, build);
    assert bytes[..|header|] == bytes[0..|header|];
    assert RowsText([], 0, cols, build) == [];
  }

  lemma ReadOneMore(bytes: Text, key: Text, rows: Int32, cols: Int32, build: Build, table: Table, n: nat, at: nat,
                    row: seq<Cell>, to: nat)
    requires ReadSoFar(bytes, key, rows, cols, build, table, n, at) && Storable(row, cols, build)
    requires at <= to <= |bytes| && bytes[at..to] == RowText(row, build.Limbs())
    ensures ReadSoFar(bytes, key, rows, cols, build, table + [row], n + 1, to)
  {
    hide HeaderText, RowText, RowFits, RowValid, RowsText;
    OneMoreRow(table, row, cols, build);
    assert bytes[..to] == bytes[..at] + bytes[at..to];
  }

  /** The first rows of a file's table are those already read, and the next one stands here. */
  lemma RowStands(bytes: Text, key: Text, rows: Int32, cols: Int32, build: Build, digest: Digest, table: Table, n: nat, at: nat)
    requires ReadSoFar(bytes, key, rows, cols, build, table, n, at) && n < rows
    ensures forall whole :: Holds(bytes, key, rows, cols, build, digest, whole) ==>
      Storable(whole[n], cols, build) && PrefixAt(bytes, at, RowText(whole[n], build.Limbs()))
  {
    hide HeaderText, RowText, RowFits, RowValid, PrefixAt, RowsText;
    forall whole | Holds(bytes, key, rows, cols, build, digest, whole)
      ensures Storable(whole[n], cols, build) && PrefixAt(bytes, at, RowText(whole[n], build.Limbs()))
    {
      SameRows(bytes, key, rows, cols, build, digest, whole, table, n);
      RowAt(bytes, key, rows, cols, build, digest, whole, n);
    }
  }

  lemma NoTable(bytes: Text, key: Text, rows: Int32, cols: Int32, build: Build, digest: Digest, table: Table, n: nat, at: nat)
    requires ReadSoFar(bytes, key, rows, cols, build, table, n, at) && n < rows && NoRowAt(bytes, at, cols, build)
    ensures !exists whole :: Holds(bytes, key, rows, cols, build, digest, whole)
  {
    hide HeaderText, RowText, PrefixAt, RowsText, FileBody, RowFits, RowValid, NoRowAt;
    RowStands(bytes, key, rows, cols, build, digest, table, n, at);
    forall whole | Holds(bytes, key, rows, cols, build, digest, whole) ensures false {
      NotThisRow(bytes, at, whole[n], cols, build);
    }
  }

  lemma NotThisRow(bytes: Text, at: nat, row: seq<Cell>, cols: Int32, build: Build)
    requires NoRowAt(bytes, at, cols, build) && Storable(row, cols, build)
    ensures !PrefixAt(bytes, at, RowText(row, build.Limbs()))
  {
  }

  ghost function RowStart(key: Text, rows: Int32, cols: Int32, build: Build, table: Table, n: nat): nat
    requires HeaderOk(rows, cols, build) && TableOk(table, cols, build) && n <= |table|
  {
    |HeaderText(key, rows, cols, build)| + |RowsText(table, n, cols, build)|
  }

  lemma {:induction false} RowsMonotone(table: Table, m: nat, n: nat, cols: int, build: Build)
    requires m <= n <= |table| && TableOk(table, cols, build)
    ensures |RowsText(table, m, cols, build)| <= |RowsText(table, n, cols, build)|
    ensures RowsText(table, m, cols, build) == RowsText(table, n, cols, build)[..|RowsText(table, m, cols, build)|]
    decreases n
  {
    hide RowText, RowFits, RowValid;
    if m < n {
      RowsMonotone(table, m, n - 1, cols, build);
    }
  }

  lemma RowAt(bytes: Text, key: Text, rows: Int32, cols: Int32, build: Build, digest: Digest, whole: Table, n: nat)
    requires Holds(bytes, key, rows, cols, build, digest, whole) && n < rows
    ensures Storable(whole[n], cols, build)
    ensures PrefixAt(bytes, RowStart(key, rows, cols, build, whole, n), RowText(whole[n], build.Limbs()))
    ensures RowStart(key, rows, cols, build, whole, n + 1) ==
            RowStart(key, rows, cols, build, whole, n) + |RowText(whole[n], build.Limbs())|
  {
    hide HeaderText, RowText, RowFits, RowValid;
    var header, all := HeaderText(key, rows, cols, build), RowsText(whole, |whole|, cols, build);
    var before, row := RowsText(whole, n, cols, build), RowText(whole[n], build.Limbs());
    RowsMonotone(whole, n + 1, |whole|, cols, build);
    assert all == before + row + all[|before| + |row|..];
    assert bytes == (header + before) + row + (all[|before| + |row|..] + digest.of(header + all));
    Middle(header + before, row, all[|before| + |row|..] + digest.of(header + all));
  }

  lemma Middle(front: Text, text: Text, back: Text)
    ensures PrefixAt(front + text + back, |front|, text)
  {
  }

  lemma HoldsRows(bytes: Text, key: Text, rows: Int32, cols: Int32, build: Build, digest: Digest, table: Table)
    requires Holds(bytes, key, rows, cols, build, digest, table)
    ensures HeaderOk(rows, cols, build) && TableOk(table, cols, build) && |table| == rows
  {
  }

  lemma NoRowsYet(key: Text, rows: Int32, cols: Int32, build: Build, table: Table)
    requires HeaderOk(rows, cols, build) && TableOk(table, cols, build)
    ensures RowStart(key, rows, cols, build, table, 0) == |HeaderText(key, rows, cols, build)|
  {
  }

  lemma RowIsStorable(table: Table, n: nat, cols: int, build: Build)
    requires TableOk(table, cols, build) && n < |table|
    ensures Storable(table[n], cols, build)
  {
  }

  /** Row n - 1 stands where the rows before it end. */
  lemma BeforeRow(bytes: Text, key: Text, rows: Int32, cols: Int32, build: Build, table: Table, n: nat)
    requires HeaderOk(rows, cols, build) && TableOk(table, cols, build) && 0 < n <= |table|
    requires RowStart(key, rows, cols, build, table, n) <= |bytes|
    requires bytes[..RowStart(key, rows, cols, build, table, n)] ==
             HeaderText(key, rows, cols, build) + RowsText(table, n, cols, build)
    ensures var before := RowStart(key, rows, cols, build, table, n - 1);
            && before <= |bytes| && PrefixAt(bytes, before, RowText(table[n - 1], build.Limbs()))
            && RowStart(key, rows, cols, build, table, n) == before + |RowText(table[n - 1], build.Limbs())|
            && bytes[..before] == HeaderText(key, rows, cols, build) + RowsText(table, n - 1, cols, build)
  {
    hide HeaderText, RowText, RowFits, RowValid, PrefixAt;
    var before, to := RowStart(key, rows, cols, build, table, n - 1), RowStart(key, rows, cols, build, table, n);
    assert bytes[..before] == bytes[..to][..before];
    assert bytes[before..to] == bytes[..to][before..];
    EndsHere(bytes, before, to, RowText(table[n - 1], build.Limbs()));
  }

  lemma {:induction false} SameRows(bytes: Text, key: Text, rows: Int32, cols: Int32, build: Build, digest: Digest,
                                    whole: Table, table: Table, n: nat)
    requires Holds(bytes, key, rows, cols, build, digest, whole) && TableOk(table, cols, build) && n <= |table| && n <= rows
    requires RowStart(key, rows, cols, build, table, n) <= |bytes|
    requires bytes[..RowStart(key, rows, cols, build, table, n)] ==
             HeaderText(key, rows, cols, build) + RowsText(table, n, cols, build)
    ensures RowStart(key, rows, cols, build, table, n) == RowStart(key, rows, cols, build, whole, n)
    ensures table[..n] == whole[..n]
  {
    hide HeaderText, RowText, RowFits, RowValid, PrefixAt, Holds, RowStart, RowsText, TableOk;
    HoldsRows(bytes, key, rows, cols, build, digest, whole);
    if n > 0 {
      var before := RowStart(key, rows, cols, build, table, n - 1);
      BeforeRow(bytes, key, rows, cols, build, table, n);
      SameRows(bytes, key, rows, cols, build, digest, whole, table, n - 1);
      RowAt(bytes, key, rows, cols, build, digest, whole, n - 1);
      RowIsStorable(table, n - 1, cols, build);
      RowUnique(bytes, before, table[n - 1], whole[n - 1], cols, build);
      assert table[..n] == table[..n - 1] + [table[n - 1]] && whole[..n] == whole[..n - 1] + [whole[n - 1]];
    } else {
      NoRowsYet(key, rows, cols, build, table);
      NoRowsYet(key, rows, cols, build, whole);
    }
  }

  lemma EndsHere(bytes: Text, at: nat, to: nat, text: Text)
    requires at + |text| == to <= |bytes| && bytes[at..to] == text
    ensures PrefixAt(bytes, at, text)
  {
  }

  /** After all rows, the file of a table continues with the checksum and ends. */
  lemma ChecksumStands(bytes: Text, key: Text, rows: Int32, cols: Int32, build: Build, digest: Digest, table: Table, at: nat)
    requires rows >= 0 && ReadSoFar(bytes, key, rows, cols, build, table, rows, at)
    ensures bytes[at..] == digest.of(bytes[..at]) ==> Holds(bytes, key, rows, cols, build, digest, table)
    ensures forall whole :: Holds(bytes, key, rows, cols, build, digest, whole) ==>
      whole == table && bytes[at..] == digest.of(bytes[..at])
  {
    hide HeaderText, RowText, RowFits, RowValid, RowsText;
    assert bytes == bytes[..at] + bytes[at..];
    forall whole | Holds(bytes, key, rows, cols, build, digest, whole)
      ensures whole == table && bytes[at..] == digest.of(bytes[..at])
    {
      SameRows(bytes, key, rows, cols, build, digest, whole, table, rows);
      assert table[..rows] == table && whole[..rows] == whole;
    }
  }

  /** A file holds one table only: what was written is what is read. */
  lemma OneTable(bytes: Text, key: Text, rows: Int32, cols: Int32, build: Build, digest: Digest, table: Table, other: Table)
    requires Holds(bytes, key, rows, cols, build, digest, table) && Holds(bytes, key, rows, cols, build, digest, other)
    ensures table == other
  {
    hide HeaderText, RowText, RowFits, RowValid, RowsText;
    var body := FileBody(key, rows, cols, build, table);
    assert bytes[..|body|] == body;
    SameRows(bytes, key, rows, cols, build, digest, other, table, rows);
    assert table[..rows] == table && other[..rows] == other;
  }

  /** A reference generated once and read back later, long double by long double: generation fails exactly on an
      unwritable row, and what is reused is what was generated. */
  method GenerateThenReuse(key: Text, rows: Int32, cols: Int32, build: Build, table: Table, digest: Digest)
    returns (reused: Result<Table>)
    requires digest.Valid() && (rows >= 0 ==> |table| == rows)
    requires forall r, k :: 0 <= r < |table| && 0 <= k < |table[r]| ==> Typed(table[r][k], build)
    ensures reused.Ok? <==> HeaderOk(rows, cols, build) && forall r :: 0 <= r < rows ==> RowWritable(table[r], cols)
    ensures reused.Ok? ==> reused.value == table
  {
    hide Holds, RowWritable, Typed;
    var bytes := WriteFile(key, rows, cols, build, table, digest);
    if bytes.Error? {
      return Error(bytes.message);
    }
    reused := ReadFile(bytes.value, key, rows, cols, build, digest);
    forall r | 0 <= r < |table| ensures DecodedRow(build, table[r]) == table[r] {
      TypedDecodes(table[r], build);
    }
  }
}
