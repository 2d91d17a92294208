/** The Partial reference as a file: a checksummed, canonical encoding. */
module PartialCodec {
  import opened Csr
  import opened Bytes

  type Int32 = x: int | -0x8000_0000 <= x < 0x8000_0000

  type Int64 = x: int | -0x8000_0000_0000_0000 <= x < 0x8000_0000_0000_0000

  datatype PartialReference = PartialReference(rows: Int32, cols: Int32, finite: bool, rowNnz: seq<Int64>)

  /** SHA-256 in hexadecimal; nothing else is assumed about it. */
  datatype Digest = Digest(of: Text -> Text) {
    ghost predicate Valid() {
      forall text :: |of(text)| == 64
    }
  }

  /** "SPPR0001" */
  const Magic: Text := [83, 80, 80, 82, 48, 48, 48, 49]

  ghost predicate HexDigit(b: Byte) {
    48 <= b <= 57 || 97 <= b <= 102
  }

  ghost predicate KeyOk(key: Text) {
    |key| == 64 && forall i :: 0 <= i < 64 ==> HexDigit(key[i])
  }

  method CheckKey(key: Text) returns (ok: bool)
    ensures ok <==> KeyOk(key)
  {
    if |key| != 64 {
      return false;
    }
    for i := 0 to 64
      invariant forall k :: 0 <= k < i ==> HexDigit(key[k])
    {
      if !(48 <= key[i] <= 57 || 97 <= key[i] <= 102) {
        return false;
      }
    }
    ok := true;
  }

  // ----- the format

  ghost predicate Encodable(ref: PartialReference) {
    && ref.rows >= 0 && ref.cols >= 0 && |ref.rowNnz| == ref.rows
    && forall r :: 0 <= r < |ref.rowNnz| ==> ref.rowNnz[r] >= 0
  }

  ghost function Counts(rowNnz: seq<Int64>, n: nat): (bytes: Text)
    requires n <= |rowNnz| && forall r :: 0 <= r < n ==> rowNnz[r] >= 0
    ensures |bytes| == 8 * n
  {
    if n == 0 then [] else Counts(rowNnz, n - 1) + Little(rowNnz[n - 1], 8)
  }

  ghost function Header(ref: PartialReference, key: Text): (bytes: Text)
    requires ref.rows >= 0 && ref.cols >= 0
    ensures |bytes| == 32 + |key|
  {
    Magic + key + Little(ref.rows, 8) + Little(ref.cols, 8) + Little(if ref.finite then 1 else 0, 8)
  }

  ghost function Body(ref: PartialReference, key: Text): Text
    requires Encodable(ref)
  {
    Header(ref, key) + Counts(ref.rowNnz, |ref.rowNnz|)
  }

  ghost function Encoding(ref: PartialReference, key: Text, digest: Digest): Text
    requires Encodable(ref)
  {
    Body(ref, key) + digest.of(Body(ref, key))
  }

  // ----- encoding

  method Encode(ref: PartialReference, key: Text, digest: Digest) returns (result: Result<Text>)
    ensures result.Ok? <==> KeyOk(key) && Encodable(ref)
    ensures result.Ok? ==> result.value == Encoding(ref, key, digest)
  {
    hide Little, Counts;
    var keyOk := CheckKey(key);
    if !keyOk {
      return Error("invalid partial reference key");
    }
    if ref.rows < 0 || ref.cols < 0 || |ref.rowNnz| != ref.rows {
      return Error("invalid reference dimensions");
    }
    var bytes: Text := Magic + key;
    bytes := Put(bytes, ref.rows, 8);
    bytes := Put(bytes, ref.cols, 8);
    bytes := Put(bytes, if ref.finite then 1 else 0, 8);
    assert bytes == Header(ref, key);
    var counted := EncodeCounts(bytes, ref.rowNnz);
    if counted.Error? {
      return counted;
    }
    bytes := counted.value;
    result := Ok(bytes + digest.of(bytes));
  }

  method EncodeCounts(bytes0: Text, rowNnz: seq<Int64>) returns (result: Result<Text>)
    ensures result.Ok? <==> forall r :: 0 <= r < |rowNnz| ==> rowNnz[r] >= 0
    ensures result.Ok? ==> result.value == bytes0 + Counts(rowNnz, |rowNnz|)
  {
    hide Little;
    var bytes := bytes0;
    for r := 0 to |rowNnz|
      invariant forall k :: 0 <= k < r ==> rowNnz[k] >= 0
      invariant bytes == bytes0 + Counts(rowNnz, r)
    {
      if rowNnz[r] < 0 {
        return Error("negative reference count");
      }
      bytes := Put(bytes, rowNnz[r], 8);
    }
    result := Ok(bytes);
  }

  // ----- decoding

  /** Whatever decodes is the encoding of what it decodes to, so no two files decode alike. */
  method Decode(bytes: Text, key: Text, rows: Int32, cols: Int32, digest: Digest) returns (result: Result<PartialReference>)
    requires digest.Valid()
    ensures result.Ok? <==> exists ref :: DecodesTo(bytes, key, rows, cols, digest, ref)
    ensures result.Ok? ==> DecodesTo(bytes, key, rows, cols, digest, result.value)
  {
    hide Encoding, Body, Counts, Header, DecodesTo, KeyOk, Number;
    var keyOk := CheckKey(key);
    if !keyOk {
      BadKey(bytes, key, rows, cols, digest);
      return Error("invalid partial reference key");
    }
    if rows < 0 || cols < 0 || |bytes| != 160 + 8 * rows {
      EncodingLength(bytes, key, rows, cols, digest);
      return Error("incomplete, corrupt or incompatible partial reference");
    }
    var body := bytes[..|bytes| - 64];
    if bytes[..8] != Magic || bytes[8..72] != key || digest.of(body) != bytes[|bytes| - 64..] {
      EncodingFrame(bytes, key, rows, cols, digest);
      return Error("incomplete, corrupt or incompatible partial reference");
    }
    var storedRows, storedCols, finite, at;
    storedRows, at := Get(bytes, 72, 8);
    storedCols, at := Get(bytes, at, 8);
    finite, at := Get(bytes, at, 8);
    if storedRows != rows || storedCols != cols || finite > 1 {
      EncodingMetadata(bytes, key, rows, cols, digest);
      return Error("invalid partial reference metadata");
    }
    var rowNnz := ReadCounts(bytes, rows);
    if rowNnz.Error? {
      EncodingCounts(bytes, key, rows, cols, digest);
      return Error(rowNnz.message);
    }
    var ref := PartialReference(rows, cols, finite == 1, rowNnz.value);
    Canonical(bytes, key, ref, finite, digest);
    result := Ok(ref);
  }

  ghost predicate DecodesTo(bytes: Text, key: Text, rows: Int32, cols: Int32, digest: Digest, ref: PartialReference) {
    KeyOk(key) && Encodable(ref) && ref.rows == rows && ref.cols == cols && bytes == Encoding(ref, key, digest)
  }

  /** The eight bytes of count r. */
  ghost function CountAt(bytes: Text, r: nat): (count: nat)
    requires 96 + 8 * (r + 1) <= |bytes|
  {
    Number(bytes[96 + 8 * r..96 + 8 * (r + 1)])
  }

  method ReadCounts(bytes: Text, rows: nat) returns (rowNnz: Result<seq<Int64>>)
    requires |bytes| == 160 + 8 * rows
    ensures rowNnz.Ok? <==> forall r :: 0 <= r < rows ==> CountAt(bytes, r) <= 0x7fff_ffff_ffff_ffff
    ensures rowNnz.Ok? ==> |rowNnz.value| == rows && forall r :: 0 <= r < rows ==> rowNnz.value[r] == CountAt(bytes, r)
  {
    var counts: seq<Int64> := [];
    var at := 96;
    for r := 0 to rows
      invariant at == 96 + 8 * r && |counts| == r
      invariant forall k :: 0 <= k < r ==> counts[k] == CountAt(bytes, k)
    {
      var count, next := Get(bytes, at, 8);
      assert count == CountAt(bytes, r);
      if count > 0x7fff_ffff_ffff_ffff {
        return Error("partial reference count exceeds signed 64-bit range");
      }
      counts, at := counts + [count], next;
    }
    rowNnz := Ok(counts);
  }

  // ----- the two directions

  lemma {:induction false} CountsAt(rowNnz: seq<Int64>, n: nat, r: nat)
    requires r < n <= |rowNnz| && forall k :: 0 <= k < n ==> rowNnz[k] >= 0
    ensures Counts(rowNnz, n)[8 * r..8 * (r + 1)] == Little(rowNnz[r], 8)
  {
    if r < n - 1 {
      CountsAt(rowNnz, n - 1, r);
      assert Counts(rowNnz, n)[8 * r..8 * (r + 1)] == Counts(rowNnz, n - 1)[8 * r..8 * (r + 1)];
    }
  }

  lemma HeaderLayout(ref: PartialReference, key: Text)
    requires ref.rows >= 0 && ref.cols >= 0 && |key| == 64
    ensures var header := Header(ref, key);
            && |header| == 96 && header[..8] == Magic && header[8..72] == key
            && header[72..80] == Little(ref.rows, 8) && header[80..88] == Little(ref.cols, 8)
            && header[88..96] == Little(if ref.finite then 1 else 0, 8)
  {
    hide Little;
    var front, rows, cols := Magic + key, Little(ref.rows, 8), Little(ref.cols, 8);
    assert front[..8] == Magic && front[8..72] == key;
    var upToRows := front + rows;
    assert upToRows[..8] == front[..8] && upToRows[8..72] == front[8..72] && upToRows[72..80] == rows;
    var upToCols := upToRows + cols;
    assert upToCols[..8] == upToRows[..8] && upToCols[8..72] == upToRows[8..72];
    assert upToCols[72..80] == upToRows[72..80] && upToCols[80..88] == cols;
    var header := Header(ref, key);
    assert header[..8] == upToCols[..8] && header[8..72] == upToCols[8..72];
    assert header[72..80] == upToCols[72..80] && header[80..88] == upToCols[80..88];
  }

  /** Where the parts of an encoding lie. */
  lemma Layout(ref: PartialReference, key: Text, digest: Digest)
    requires Encodable(ref) && |key| == 64 && digest.Valid()
    ensures var bytes := Encoding(ref, key, digest);
            && |bytes| == 160 + 8 * ref.rows && bytes[..|bytes| - 64] == Body(ref, key)
            && bytes[|bytes| - 64..] == digest.of(Body(ref, key))
            && bytes[..8] == Magic && bytes[8..72] == key
            && bytes[72..80] == Little(ref.rows, 8) && bytes[80..88] == Little(ref.cols, 8)
            && bytes[88..96] == Little(if ref.finite then 1 else 0, 8)
            && bytes[96..|bytes| - 64] == Counts(ref.rowNnz, |ref.rowNnz|)
  {
    hide Counts, Little, Header;
    var header, counts := Header(ref, key), Counts(ref.rowNnz, |ref.rowNnz|);
    HeaderLayout(ref, key);
    var rest := counts + digest.of(Body(ref, key));
    var bytes := Encoding(ref, key, digest);
    assert bytes == header + rest;
    assert bytes[..8] == header[..8] && bytes[8..72] == header[8..72] && bytes[72..80] == header[72..80];
    assert bytes[80..88] == header[80..88] && bytes[88..96] == header[88..96];
    assert bytes[96..|bytes| - 64] == counts;
  }

  lemma CountInLayout(ref: PartialReference, key: Text, digest: Digest, r: nat)
    requires Encodable(ref) && |key| == 64 && digest.Valid() && r < ref.rows
    ensures |Encoding(ref, key, digest)| == 160 + 8 * ref.rows
    ensures CountAt(Encoding(ref, key, digest), r) == ref.rowNnz[r]
  {
    hide Counts, Encoding, Header, Body;
    var bytes := Encoding(ref, key, digest);
    Layout(ref, key, digest);
    CountsAt(ref.rowNnz, |ref.rowNnz|, r);
    SliceOfSlice(bytes, 96, |bytes| - 64, 8 * r, 8 * (r + 1));
    EightBytes();
    NumberOfLittle(ref.rowNnz[r], 8);
  }

  lemma BadKey(bytes: Text, key: Text, rows: Int32, cols: Int32, digest: Digest)
    requires !KeyOk(key)
    ensures !exists ref :: DecodesTo(bytes, key, rows, cols, digest, ref)
  {
  }

  lemma EncodingLength(bytes: Text, key: Text, rows: Int32, cols: Int32, digest: Digest)
    requires digest.Valid() && (rows < 0 || cols < 0 || |bytes| != 160 + 8 * rows)
    ensures !exists ref :: DecodesTo(bytes, key, rows, cols, digest, ref)
  {
    hide Encoding, Body, Counts, Header;
    forall ref | DecodesTo(bytes, key, rows, cols, digest, ref) ensures false {
      Layout(ref, key, digest);
    }
  }

  lemma EncodingFrame(bytes: Text, key: Text, rows: Int32, cols: Int32, digest: Digest)
    requires digest.Valid() && rows >= 0 && |bytes| == 160 + 8 * rows
    requires bytes[..8] != Magic || bytes[8..72] != key || digest.of(bytes[..|bytes| - 64]) != bytes[|bytes| - 64..]
    ensures !exists ref :: DecodesTo(bytes, key, rows, cols, digest, ref)
  {
    hide Encoding, Body, Counts, Header;
    forall ref | DecodesTo(bytes, key, rows, cols, digest, ref) ensures false {
      Layout(ref, key, digest);
    }
  }

  lemma EncodingMetadata(bytes: Text, key: Text, rows: Int32, cols: Int32, digest: Digest)
    requires digest.Valid() && rows >= 0 && |bytes| == 160 + 8 * rows
    requires Number(bytes[72..80]) != rows || Number(bytes[80..88]) != cols || Number(bytes[88..96]) > 1
    ensures !exists ref :: DecodesTo(bytes, key, rows, cols, digest, ref)
  {
    hide Encoding, Body, Counts, Header;
    forall ref | DecodesTo(bytes, key, rows, cols, digest, ref) ensures false {
      Layout(ref, key, digest);
      MetadataFits(ref);
    }
  }

  lemma MetadataFits(ref: PartialReference)
    requires Encodable(ref)
    ensures Number(Little(ref.rows, 8)) == ref.rows && Number(Little(ref.cols, 8)) == ref.cols
    ensures Number(Little(if ref.finite then 1 else 0, 8)) == if ref.finite then 1 else 0
  {
    EightBytes();
    NumberOfLittle(ref.rows, 8);
    NumberOfLittle(ref.cols, 8);
    NumberOfLittle(if ref.finite then 1 else 0, 8);
  }

  lemma EncodingCounts(bytes: Text, key: Text, rows: Int32, cols: Int32, digest: Digest)
    requires digest.Valid() && rows >= 0 && |bytes| == 160 + 8 * rows
    requires exists r :: 0 <= r < rows && CountAt(bytes, r) > 0x7fff_ffff_ffff_ffff
    ensures !exists ref :: DecodesTo(bytes, key, rows, cols, digest, ref)
  {
    hide Encoding, Body, Counts, Header, CountAt;
    forall ref | DecodesTo(bytes, key, rows, cols, digest, ref) ensures false {
      var r :| 0 <= r < rows && CountAt(bytes, r) > 0x7fff_ffff_ffff_ffff;
      CountInLayout(ref, key, digest, r);
    }
  }

  lemma {:induction false} CountsOfBytes(bytes: Text, rowNnz: seq<Int64>, n: nat)
    requires n <= |rowNnz| && 96 + 8 * |rowNnz| <= |bytes|
    requires forall r :: 0 <= r < |rowNnz| ==> 0 <= rowNnz[r] == CountAt(bytes, r)
    ensures Counts(rowNnz, n) == bytes[96..96 + 8 * n]
  {
    hide Little, Number;
    if n > 0 {
      CountsOfBytes(bytes, rowNnz, n - 1);
      LittleOfNumber(bytes[96 + 8 * (n - 1)..96 + 8 * n]);
      assert bytes[96..96 + 8 * n] == bytes[96..96 + 8 * (n - 1)] + bytes[96 + 8 * (n - 1)..96 + 8 * n];
    }
  }

  /** Bytes that pass every check are the encoding of what was read. */
  lemma Canonical(bytes: Text, key: Text, ref: PartialReference, finite: nat, digest: Digest)
    requires digest.Valid() && KeyOk(key) && ref.rows >= 0 && ref.cols >= 0 && |bytes| == 160 + 8 * ref.rows
    requires bytes[..8] == Magic && bytes[8..72] == key && digest.of(bytes[..|bytes| - 64]) == bytes[|bytes| - 64..]
    requires Number(bytes[72..80]) == ref.rows && Number(bytes[80..88]) == ref.cols
    requires Number(bytes[88..96]) == finite <= 1 && ref.finite == (finite == 1)
    requires |ref.rowNnz| == ref.rows && forall r :: 0 <= r < ref.rows ==> ref.rowNnz[r] == CountAt(bytes, r)
    ensures DecodesTo(bytes, key, ref.rows, ref.cols, digest, ref)
  {
    hide Little, Number, Counts, CountAt;
    LittleOfNumber(bytes[72..80]);
    LittleOfNumber(bytes[80..88]);
    LittleOfNumber(bytes[88..96]);
    CountsOfBytes(bytes, ref.rowNnz, |ref.rowNnz|);
    assert bytes[..96] == bytes[..8] + bytes[8..72] + bytes[72..80] + bytes[80..88] + bytes[88..96];
    assert bytes[..|bytes| - 64] == bytes[..96] + bytes[96..|bytes| - 64];
    assert bytes == bytes[..|bytes| - 64] + bytes[|bytes| - 64..];
  }

  /** Decoding after encoding is the identity. */
  lemma DecodeAfterEncode(ref: PartialReference, other: PartialReference, key: Text, digest: Digest)
    requires digest.Valid() && KeyOk(key) && Encodable(ref)
    ensures DecodesTo(Encoding(ref, key, digest), key, ref.rows, ref.cols, digest, other) <==> other == ref
  {
    hide Encoding, Body, Counts, Header, CountAt;
    if DecodesTo(Encoding(ref, key, digest), key, ref.rows, ref.cols, digest, other) {
      Layout(ref, key, digest);
      Layout(other, key, digest);
      MetadataFits(ref);
      MetadataFits(other);
      forall r | 0 <= r < ref.rows ensures ref.rowNnz[r] == other.rowNnz[r] {
        CountInLayout(ref, key, digest, r);
        CountInLayout(other, key, digest, r);
      }
    }
  }
}
