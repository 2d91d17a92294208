/** Little-endian integers in byte strings. */
module Bytes {

  type Byte = x: int | 0 <= x < 256

  type Text = seq<Byte>

  function Pow256(n: nat): (p: nat)
    ensures p > 0
  {
    if n == 0 then 1 else 256 * Pow256(n - 1)
  }

  /** The low `count` bytes of a value, lowest first. */
  function Little(value: nat, count: nat): (bytes: Text)
    ensures |bytes| == count
  {
    if count == 0 then [] else [value % 256] + Little(value / 256, count - 1)
  }

  function Number(bytes: Text): (value: nat) {
    if bytes == [] then 0 else bytes[0] + 256 * Number(bytes[1..])
  }

  lemma {:induction false} NumberBelow(bytes: Text)
    ensures Number(bytes) < Pow256(|bytes|)
  {
    if bytes != [] {
      NumberBelow(bytes[1..]);
    }
  }

  /** Reading what was written. */
  lemma {:induction false} NumberOfLittle(value: nat, count: nat)
    requires value < Pow256(count)
    ensures Number(Little(value, count)) == value
  {
    if count > 0 {
      NumberOfLittle(value / 256, count - 1);
      assert Little(value, count)[1..] == Little(value / 256, count - 1);
    }
  }

  /** Writing what was read. */
  lemma {:induction false} LittleOfNumber(bytes: Text)
    ensures Little(Number(bytes), |bytes|) == bytes
  {
    if bytes != [] {
      LittleOfNumber(bytes[1..]);
      var rest := Number(bytes[1..]);
      assert (bytes[0] + 256 * rest) / 256 == rest && (bytes[0] + 256 * rest) % 256 == bytes[0];
    }
  }

  /** Appends bytes while shifting the value right. */
  method Put(bytes0: Text, value0: nat, count: nat) returns (bytes: Text)
    ensures bytes == bytes0 + Little(value0, count)
  {
    bytes := bytes0;
    var value := value0;
    for i := 0 to count
      invariant bytes + Little(value, count - i) == bytes0 + Little(value0, count)
    {
      bytes := bytes + [value % 256];
      value := value / 256;
    }
  }

  lemma {:induction false} NumberAppend(bytes: Text, b: Byte)
    ensures Number(bytes + [b]) == Number(bytes) + b * Pow256(|bytes|)
  {
    if bytes != [] {
      NumberAppend(bytes[1..], b);
      assert (bytes + [b])[1..] == bytes[1..] + [b];
      Regroup(b, Pow256(|bytes| - 1));
    }
  }

  lemma Regroup(b: int, p: int)
    ensures 256 * (b * p) == b * (256 * p)
  {
  }

  /** Adds each byte at its place and advances the cursor. */
  method Get(bytes: Text, at0: nat, count: nat) returns (value: nat, at: nat)
    requires at0 + count <= |bytes|
    ensures value == Number(bytes[at0..at0 + count]) < Pow256(count) && at == at0 + count
  {
    value, at := 0, at0;
    var place: nat := 1;
    for i := 0 to count
      invariant at == at0 + i && value == Number(bytes[at0..at]) && place == Pow256(i)
    {
      NumberAppend(bytes[at0..at], bytes[at]);
      assert bytes[at0..at] + [bytes[at]] == bytes[at0..at + 1];
      value := value + bytes[at] * place;
      place, at := 256 * place, at + 1;
    }
    NumberBelow(bytes[at0..at]);
  }

  lemma SliceOfSlice(bytes: Text, from: nat, to: nat, i: nat, j: nat)
    requires i <= j <= to - from && to <= |bytes|
    ensures bytes[from..to][i..j] == bytes[from + i..from + j]
  {
    assert forall k :: i <= k < j ==> bytes[from..to][k] == bytes[from + k];
  }

  lemma EightBytes()
    ensures Pow256(8) == 0x1_0000_0000_0000_0000 && Pow256(4) == 0x1_0000_0000
  {
    assert Pow256(2) == 0x1_0000 && Pow256(4) == 0x100 * Pow256(3);
    assert Pow256(6) == 0x100 * Pow256(5) && Pow256(8) == 0x100 * Pow256(7);
  }
}
