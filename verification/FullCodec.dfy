/** The Full reference as a file: rows of exact binary numbers, framed by a header and a checksum. */
module FullCodec {
  import opened Arithmetic
  import opened Csr
  import opened Bytes

  /** A long double: plus or minus numerator / 2^(64 limbs) times 2^exponent, as frexp splits it. */
  datatype Real = NotFinite | Binary(negative: bool, numerator: nat, exponent: int)

  datatype Cell = Cell(column: int, terms: int, serial: nat, reference: Real, bound: Real)

  /** A build's long double: its digits and exponents, how many 64-bit words hold a significand, and
      what it makes of a number that does not fit without rounding. */
  datatype Build = Build(digits: nat, minExponent: int, maxExponent: nat, round: Real -> Real) {
    function Limbs(): (limbs: nat)
      ensures digits <= 64 * limbs
    {
      (digits + 63) / 64
    }

    function CellBytes(): nat {
      20 + 2 * (4 + 8 * Limbs())
    }
  }

  // ----- one number

  /** The weight of a 64-bit word. */
  function Place(k: nat): (p: nat)
    ensures p > 0
  {
    if k == 0 then 1 else 0x1_0000_0000_0000_0000 * Place(k - 1)
  }

  /** frexp's form: the significand's top bit is set; zero has exponent zero. */
  function Normalised(x: Real, limbs: nat): (n: Real)
    requires x.Binary?
    ensures n.Binary? && n.negative == x.negative
    decreases Place(limbs) - if x.Binary? then x.numerator else 0
  {
    if x.numerator == 0 then x.(exponent := 0)
    else if 2 * x.numerator >= Place(limbs) then x
    else Normalised(x.(numerator := 2 * x.numerator, exponent := x.exponent - 1), limbs)
  }

  /** How many low bits of the words a long double of this exponent leaves zero; fewer digits are kept below the
      normal range. */
  function SpareBits(build: Build, exponent: int): nat
  {
    64 * build.Limbs() - build.digits + if exponent < build.minExponent then build.minExponent - exponent else 0
  }

  predicate Exact(build: Build, x: Real)
    requires x.Binary?
  {
    x.numerator % Pow2(SpareBits(build, x.exponent)) == 0
  }

  /** The value getReal computes from the words of x: overflow is not finite, and only inexact numbers are rounded. */
  function Decoded(build: Build, x: Real): Real
  {
    if x.NotFinite? then x else
      var n := Normalised(x, build.Limbs());
      if n.numerator == 0 then n
      else if n.exponent > build.maxExponent then NotFinite
      else if Exact(build, n) then n
      else build.round(n)
  }

  /** The finite long doubles, as frexp splits them, and the others. */
  ghost predicate IsLongDouble(build: Build, x: Real)
  {
    x.Binary? ==>
      && x.numerator < Place(build.Limbs()) && Normalised(x, build.Limbs()) == x
      && (x.numerator > 0 ==> x.exponent <= build.maxExponent && Exact(build, x))
  }

  /** A long double survives being written and read. */
  lemma DecodedWritten(build: Build, x: Real)
    requires IsLongDouble(build, x)
    ensures Decoded(build, x) == x
  {
  }

  lemma {:induction false} NormalisedForm(x: Real, limbs: nat)
    requires x.Binary? && x.numerator < Place(limbs)
    ensures var n := Normalised(x, limbs);
            && n.numerator < Place(limbs) && Normalised(n, limbs) == n
            && (n.numerator == 0 <==> x.numerator == 0)
    decreases Place(limbs) - if x.Binary? then x.numerator else 0
  {
    if 0 < x.numerator && 2 * x.numerator < Place(limbs) {
      NormalisedForm(x.(numerator := 2 * x.numerator, exponent := x.exponent - 1), limbs);
    }
  }

  /** Whatever the words, what is read is a long double, provided rounding produces one. */
  lemma DecodedIsLongDouble(build: Build, x: Real)
    requires (x.Binary? ==> x.numerator < Place(build.Limbs()))
    requires forall n :: IsLongDouble(build, build.round(n))
    ensures IsLongDouble(build, Decoded(build, x))
  {
    if x.Binary? {
      NormalisedForm(x, build.Limbs());
    }
  }

  ghost predicate Encodable(x: Real, limbs: nat) {
    x.Binary? && x.numerator < Place(limbs) && -32768 <= x.exponent < 32768
  }

  function Tag(x: Real): (tag: nat)
    requires x.Binary? && -32768 <= x.exponent < 32768
    ensures tag < 0x2_0000
  {
    x.exponent + 32768 + if x.negative then 0x1_0000 else 0
  }

  function Quotient(x: nat, p: nat): (q: nat)
    requires p > 0
    ensures x == q * p + x % p
  {
    DivModIdentity(x, p);
    MulMonotone(x / p + 1, 0, p);
    x / p
  }

  function Rest(x: nat, p: nat): (r: nat)
    requires p > 0
    ensures r < p && x == Quotient(x, p) * p + r
  {
    x % p
  }

  /** The significand in 64-bit words, highest first. */
  ghost function Words(numerator: nat, limbs: nat): (bytes: Text)
    ensures |bytes| == 8 * limbs
  {
    if limbs == 0 then []
    else Little(Quotient(numerator, Place(limbs - 1)), 8) + Words(Rest(numerator, Place(limbs - 1)), limbs - 1)
  }

  ghost function RealBytes(x: Real, limbs: nat): (bytes: Text)
    requires Encodable(x, limbs)
    ensures |bytes| == 4 + 8 * limbs
  {
    Little(Tag(x), 4) + Words(x.numerator, limbs)
  }

  ghost function NumberOfWords(bytes: Text, limbs: nat): (numerator: nat)
    requires |bytes| == 8 * limbs
  {
    if limbs == 0 then 0
    else Number(bytes[..8]) * Place(limbs - 1) + NumberOfWords(bytes[8..], limbs - 1)
  }

  lemma {:induction false} NumberOfWordsBelow(bytes: Text, limbs: nat)
    requires |bytes| == 8 * limbs
    ensures NumberOfWords(bytes, limbs) < Place(limbs)
  {
    hide Number;
    if limbs > 0 {
      NumberOfWordsBelow(bytes[8..], limbs - 1);
      NumberBelow(bytes[..8]);
      EightBytes();
      DigitBound(Number(bytes[..8]), NumberOfWords(bytes[8..], limbs - 1), Pow256(8), Place(limbs - 1));
    }
  }

  lemma {:induction false} NumeratorReadBack(numerator: nat, limbs: nat)
    requires numerator < Place(limbs)
    ensures NumberOfWords(Words(numerator, limbs), limbs) == numerator
  {
    hide Number, Little, Pow256, Place, Quotient, Rest;
    NoWords();
    if limbs > 0 {
      var p := Place(limbs - 1);
      var digit, rest := Quotient(numerator, p), Rest(numerator, p);
      NumeratorReadBack(rest, limbs - 1);
      DigitFits(numerator, limbs);
      NumberOfLittle(digit, 8);
      var bytes := Words(numerator, limbs);
      assert bytes[..8] == Little(digit, 8) && bytes[8..] == Words(rest, limbs - 1);
    }
  }

  lemma NoWords()
    ensures Place(0) == 1
  {
  }

  lemma DigitFits(numerator: nat, limbs: nat)
    requires limbs > 0 && numerator < Place(limbs)
    ensures Quotient(numerator, Place(limbs - 1)) < Pow256(8)
  {
    hide Pow256;
    var p := Place(limbs - 1);
    EightBytes();
    MulMonotone(Pow256(8), Quotient(numerator, p), p);
  }

  lemma UniqueSplit(x: nat, q: nat, r: nat, p: nat)
    requires x == q * p + r && r < p
    ensures Quotient(x, p) == q && Rest(x, p) == r
  {
    ModUnique(x, q, r, p);
  }

  lemma {:induction false} WordsReadBack(bytes: Text, limbs: nat)
    requires |bytes| == 8 * limbs
    ensures Words(NumberOfWords(bytes, limbs), limbs) == bytes
  {
    hide Number, Little, Pow256, Place, Quotient, Rest;
    if limbs > 0 {
      var p, digit, rest := Place(limbs - 1), Number(bytes[..8]), NumberOfWords(bytes[8..], limbs - 1);
      WordsReadBack(bytes[8..], limbs - 1);
      NumberOfWordsBelow(bytes[8..], limbs - 1);
      UniqueSplit(digit * p + rest, digit, rest, p);
      LittleOfNumber(bytes[..8]);
      assert bytes == bytes[..8] + bytes[8..];
    }
  }

  lemma RealStarts(bytes0: Text, x: Real, limbs: nat)
    requires Encodable(x, limbs)
    ensures bytes0 + Little(Tag(x), 4) + Words(x.numerator, limbs) == bytes0 + RealBytes(x, limbs)
  {
  }

  /** The word in front and the words behind it. */
  lemma OneWord(bytes: Text, numerator: nat, limbs: nat)
    requires limbs > 0
    ensures bytes + Words(numerator, limbs) ==
            bytes + Little(Quotient(numerator, Place(limbs - 1)), 8) + Words(Rest(numerator, Place(limbs - 1)), limbs - 1)
  {
  }

  /** frexp's fraction, scaled up 64 bits at a time; nothing is left over after the last word. */
  method PutReal(bytes0: Text, x: Real, limbs: nat) returns (result: Result<Text>)
    requires x.Binary? ==> x.numerator < Place(limbs)
    ensures result.Ok? <==> x.Binary? && -32768 < x.exponent < 32768
    ensures result.Ok? ==> result.value == bytes0 + RealBytes(x, limbs)
  {
    hide Little, Pow256, Place, RealBytes;
    if x.NotFinite? {
      return Error("non-finite Full reference");
    }
    if x.exponent <= -32768 || x.exponent >= 32768 {
      return Error("unsupported Full reference exponent");
    }
    var bytes := Put(bytes0, Tag(x), 4);
    var fraction: nat := x.numerator;
    RealStarts(bytes0, x, limbs);
    for i := 0 to limbs
      invariant fraction < Place(limbs - i)
      invariant bytes + Words(fraction, limbs - i) == bytes0 + RealBytes(x, limbs)
    {
      var place := Place(limbs - i - 1);
      DigitFits(fraction, limbs - i);
      var digit := Quotient(fraction, place);
      OneWord(bytes, fraction, limbs - i);
      bytes := Put(bytes, digit, 8);
      fraction := Rest(fraction, place);
    }
    NoWords();
    assert fraction == 0;
    result := Ok(bytes);
  }

  lemma NextWord(words: Text, limbs: nat)
    requires limbs > 0 && |words| == 8 * limbs
    ensures NumberOfWords(words, limbs) == Number(words[..8]) * Place(limbs - 1) + NumberOfWords(words[8..], limbs - 1)
  {
  }

  lemma NoWordsLeft(words: Text)
    requires words == []
    ensures NumberOfWords(words, 0) == 0
  {
  }

  /** Adds up the words, each at its place. */
  method GetReal(bytes: Text, at0: nat, limbs: nat) returns (result: Result<Real>, at: nat)
    requires at0 + 4 + 8 * limbs <= |bytes|
    ensures at == at0 + 4 + 8 * limbs
    ensures result.Ok? <==> Number(bytes[at0..at0 + 4]) < 0x2_0000
    ensures result.Ok? ==> Encodable(result.value, limbs) && bytes[at0..at] == RealBytes(result.value, limbs)
  {
    hide Pow256, Place, Number, Little, NumberOfWords, Words;
    var tag, word := Get(bytes, at0, 4);
    at := at0 + 4 + 8 * limbs;
    if tag > 131071 {
      return Error("invalid Full reference exponent"), at;
    }
    var exponent: int, negative := tag as int % 0x1_0000 - 32768, tag >= 0x1_0000;
    ghost var words := bytes[at0 + 4..at];
    var value: nat := 0;
    assert words[0..] == words;
    for i := 0 to limbs
      invariant word == at0 + 4 + 8 * i
      invariant value + NumberOfWords(words[8 * i..], limbs - i) == NumberOfWords(words, limbs)
    {
      var limb, next := Get(bytes, word, 8);
      assert words[8 * i..][..8] == bytes[word..next] && words[8 * i..][8..] == words[8 * (i + 1)..];
      NextWord(words[8 * i..], limbs - i);
      MulMonotone(0, limb, Place(limbs - i - 1));
      value := value + limb * Place(limbs - i - 1);
      word := next;
    }
    NoWordsLeft(words[8 * limbs..]);
    NumberOfWordsBelow(words, limbs);
    WordsReadBack(words, limbs);
    LittleOfNumber(bytes[at0..at0 + 4]);
    var x := Binary(negative, value, exponent);
    assert Tag(x) == tag;
    assert bytes[at0..at] == bytes[at0..at0 + 4] + words;
    result := Ok(x);
  }

  lemma RealReadBack(x: Real, y: Real, limbs: nat)
    requires Encodable(x, limbs) && Encodable(y, limbs)
    ensures RealBytes(x, limbs) == RealBytes(y, limbs) ==> x == y
    ensures Number(RealBytes(x, limbs)[..4]) == Tag(x)
  {
    hide Number, Little, Pow256, Place, Words, NumberOfWords;
    EightBytes();
    NumberOfLittle(Tag(x), 4);
    NumberOfLittle(Tag(y), 4);
    NumeratorReadBack(x.numerator, limbs);
    NumeratorReadBack(y.numerator, limbs);
    var xs, ys := RealBytes(x, limbs), RealBytes(y, limbs);
    assert xs[..4] == Little(Tag(x), 4) && ys[..4] == Little(Tag(y), 4);
    assert xs[4..] == Words(x.numerator, limbs) && ys[4..] == Words(y.numerator, limbs);
  }

  /** Reading and writing again gives the same bytes exactly for the words of a long double: the reader also
      accepts words that the writer never produces. */
  lemma RewritesSame(build: Build, x: Real)
    requires Encodable(x, build.Limbs()) && Encodable(Decoded(build, x), build.Limbs())
    requires forall n :: IsLongDouble(build, build.round(n))
    ensures RealBytes(Decoded(build, x), build.Limbs()) == RealBytes(x, build.Limbs()) <==> IsLongDouble(build, x)
  {
    hide Words, Little, Place, Number, Exact;
    RealReadBack(x, Decoded(build, x), build.Limbs());
    DecodedIsLongDouble(build, x);
    if IsLongDouble(build, x) {
      DecodedWritten(build, x);
    }
  }

  /** One such pair: one half, written with its top bit set, and as 1/4 times 2. */
  lemma TwoTextsOneNumber(build: Build)
    requires build.digits == 64 && build.minExponent < 0 < build.maxExponent
    ensures var x, y := Binary(false, 0x4000_0000_0000_0000, 1), Binary(false, 0x8000_0000_0000_0000, 0);
            && Encodable(x, 1) && Encodable(y, 1) && RealBytes(x, 1) != RealBytes(y, 1)
            && Decoded(build, x) == Decoded(build, y) == y
  {
    hide RealBytes, Encodable;
    var x, y := Binary(false, 0x4000_0000_0000_0000, 1), Binary(false, 0x8000_0000_0000_0000, 0);
    BothEncodable(x, y);
    assert SpareBits(build, 0) == 0 && Pow2(0) == 1;
    assert Place(1) == 0x1_0000_0000_0000_0000 * Place(0);
    assert Normalised(y, 1) == y && Normalised(x, 1) == y;
    RealReadBack(x, y, 1);
  }

  lemma BothEncodable(x: Real, y: Real)
    requires x.Binary? && y.Binary? && x.numerator < y.numerator < 0x1_0000_0000_0000_0000
    requires 0 <= x.exponent < 10 && 0 <= y.exponent < 10
    ensures Encodable(x, 1) && Encodable(y, 1)
  {
    assert Place(1) == 0x1_0000_0000_0000_0000 * Place(0);
  }
}
