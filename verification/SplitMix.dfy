/** The SplitMix64 generator behind `permutation`.  Words are naturals below 2^64, masking is `% Words`
    and every operation is the one Python performs on unbounded integers. */
module SplitMix {
  import opened Arithmetic

  const Words: nat := 0x1_0000_0000_0000_0000
  const Gamma: nat := 0x9E37_79B9_7F4A_7C15
  const GammaInverse: nat := 0xF1DE_83E1_9937_733D
  const First: nat := 0xBF58_476D_1CE4_E5B9
  const FirstInverse: nat := 0x96DE_1B17_3F11_9089
  const Second: nat := 0x94D0_49BB_1331_11EB
  const SecondInverse: nat := 0x3196_42B2_D24D_8EC3

  // ----- exclusive or and shifts of naturals

  function Xor(a: nat, b: nat): (r: nat)
    decreases a + b
  {
    if a + b == 0 then 0 else (if a % 2 == b % 2 then 0 else 1) + 2 * Xor(a / 2, b / 2)
  }

  lemma {:induction false} XorZero(a: nat)
    ensures Xor(a, 0) == Xor(0, a) == a && Xor(a, a) == 0
  {
    if a > 0 {
      XorZero(a / 2);
    }
  }

  lemma {:induction false} XorTwice(a: nat, b: nat)
    ensures Xor(Xor(a, b), b) == a
    decreases a + b
  {
    if a + b > 0 {
      XorTwice(a / 2, b / 2);
      XorHalf(a, b);
    }
  }

  lemma XorHalf(a: nat, b: nat)
    ensures Xor(a, b) / 2 == Xor(a / 2, b / 2)
    ensures Xor(a, b) % 2 == if a % 2 == b % 2 then 0 else 1
  {
  }

  lemma {:induction false} XorBelow(a: nat, b: nat, k: nat)
    requires a < Pow2(k) && b < Pow2(k)
    ensures Xor(a, b) < Pow2(k)
  {
    if k > 0 {
      XorBelow(a / 2, b / 2, k - 1);
      XorHalf(a, b);
    } else {
      XorZero(0);
    }
  }

  lemma WordsArePow2()
    ensures Words == Pow2(64)
  {
    Pow2Byte(0);
    Pow2Byte(8);
    Pow2Byte(16);
    Pow2Byte(24);
    Pow2Byte(32);
    Pow2Byte(40);
    Pow2Byte(48);
    Pow2Byte(56);
  }

  lemma Pow2Byte(k: nat)
    ensures Pow2(k + 8) == 0x100 * Pow2(k)
  {
    assert Pow2(k + 2) == 4 * Pow2(k);
    assert Pow2(k + 4) == 4 * Pow2(k + 2);
    assert Pow2(k + 6) == 4 * Pow2(k + 4);
    assert Pow2(k + 8) == 4 * Pow2(k + 6);
  }

  function Shift(z: nat, s: nat): (r: nat)
    ensures r <= z && (s > 0 && z > 0 ==> r < z)
  {
    if s == 0 then z else Shift(z / 2, s - 1)
  }

  lemma {:induction false} ShiftXor(a: nat, b: nat, s: nat)
    ensures Shift(Xor(a, b), s) == Xor(Shift(a, s), Shift(b, s))
  {
    if s > 0 {
      XorHalf(a, b);
      ShiftXor(a / 2, b / 2, s - 1);
    }
  }

  // ----- the two kinds of mixing step and what undoes them

  function XorShift(z: nat, s: nat): nat {
    Xor(z, Shift(z, s))
  }

  function Unshift(y: nat, s: nat): nat
    requires s > 0
    decreases y
  {
    if y == 0 then 0 else Xor(y, Unshift(Shift(y, s), s))
  }

  lemma {:induction false} UnshiftAfter(x: nat, s: nat)
    requires s > 0
    ensures Unshift(XorShift(x, s), s) == x
    decreases x
  {
    var y := XorShift(x, s);
    XorTwice(x, Shift(x, s));
    XorZero(Shift(x, s));
    if x > 0 {
      UnshiftAfter(Shift(x, s), s);
      ShiftXor(x, Shift(x, s), s);
    }
  }

  lemma {:induction false} UnshiftBefore(y: nat, s: nat)
    requires s > 0
    ensures XorShift(Unshift(y, s), s) == y
    decreases y
  {
    if y > 0 {
      var u := Unshift(Shift(y, s), s);
      UnshiftBefore(Shift(y, s), s);
      ShiftXor(y, u, s);
      XorTwice(u, Shift(u, s));
      XorTwice(y, u);
    } else {
      XorZero(0);
    }
  }

  lemma {:induction false} UnshiftBelow(y: nat, s: nat)
    requires s > 0 && y < Words
    ensures Unshift(y, s) < Words
    decreases y
  {
    if y > 0 {
      UnshiftBelow(Shift(y, s), s);
      WordsArePow2();
      XorBelow(y, Unshift(Shift(y, s), s), 64);
    }
  }

  lemma XorShiftBelow(z: nat, s: nat)
    requires z < Words
    ensures XorShift(z, s) < Words
  {
    WordsArePow2();
    XorBelow(z, Shift(z, s), 64);
  }

  /** Masked multiplication. */
  function Times(z: nat, c: nat): (r: nat)
    ensures r < Words
  {
    z * c % Words
  }

  lemma TimesInverse(z: nat, c: nat, inverse: nat)
    requires z < Words && c * inverse % Words == 1
    ensures Times(Times(z, c), inverse) == z
  {
    var q, t := z * c / Words, c * inverse / Words;
    assert z * c == Words * q + Times(z, c);
    assert Times(z, c) * inverse == (z * c - Words * q) * inverse == z * (c * inverse) - Words * (q * inverse);
    assert z * (c * inverse) == z * (Words * t + 1) == Words * (z * t) + z;
    Residue(Times(z, c) * inverse, z * t - q * inverse, z);
  }

  lemma Residue(x: int, q: int, r: nat)
    requires x == Words * q + r && r < Words
    ensures x % Words == r
  {
  }

  /** The output function of one state. */
  function Mix(z: nat): nat {
    XorShift(Times(XorShift(Times(XorShift(z, 30), First), 27), Second), 31)
  }

  function Unmix(w: nat): nat {
    Unshift(Times(Unshift(Times(Unshift(w, 31), SecondInverse), 27), FirstInverse), 30)
  }

  lemma UnmixAfter(z: nat)
    requires z < Words
    ensures Mix(z) < Words && Unmix(Mix(z)) == z
  {
    hide Times, XorShift, Unshift;
    var a := XorShift(z, 30);
    var b := XorShift(Times(a, First), 27);
    XorShiftBelow(z, 30);
    XorShiftBelow(Times(a, First), 27);
    XorShiftBelow(Times(b, Second), 31);
    UnshiftAfter(Times(b, Second), 31);
    TimesInverse(b, Second, SecondInverse);
    UnshiftAfter(Times(a, First), 27);
    TimesInverse(a, First, FirstInverse);
    UnshiftAfter(z, 30);
  }

  lemma UnmixBefore(w: nat)
    requires w < Words
    ensures Unmix(w) < Words && Mix(Unmix(w)) == w
  {
    hide Times, XorShift, Unshift;
    var a := Unshift(w, 31);
    var b := Unshift(Times(a, SecondInverse), 27);
    UnshiftBelow(w, 31);
    UnshiftBelow(Times(a, SecondInverse), 27);
    UnshiftBelow(Times(b, FirstInverse), 30);
    UnshiftBefore(Times(b, FirstInverse), 30);
    TimesInverse(b, FirstInverse, First);
    UnshiftBefore(Times(a, SecondInverse), 27);
    TimesInverse(a, SecondInverse, Second);
    UnshiftBefore(w, 31);
  }

  /** The mixer is a bijection on 64-bit words. */
  lemma MixIsABijection(w: nat)
    requires w < Words
    ensures Mix(w) < Words && exists z: nat :: z < Words && Mix(z) == w
    ensures forall z: nat :: z < Words && Mix(z) == Mix(w) ==> z == w
  {
    UnmixAfter(w);
    UnmixBefore(w);
    forall z: nat | z < Words && Mix(z) == Mix(w) ensures z == w {
      UnmixAfter(z);
    }
  }

  lemma MixOfZero()
    ensures Mix(0) == 0
  {
    hide Xor, Shift;
    XorShiftZero(30);
    XorShiftZero(27);
    XorShiftZero(31);
  }

  lemma XorShiftZero(s: nat)
    ensures XorShift(0, s) == 0
  {
    XorZero(0);
  }

  // ----- the states of the generator

  /** The state after k draws of a word. */
  function Advanced(state: int, k: int): (r: nat)
    ensures r < Words
  {
    (state + k * Gamma) % Words
  }

  /** How many draws lead from one state to another. */
  function StepsTo(state: int, target: int): (k: nat)
    ensures k < Words
  {
    (target - state) * GammaInverse % Words
  }

  lemma StepsReach(state: int, target: nat)
    requires target < Words
    ensures Advanced(state, StepsTo(state, target)) == target
  {
    var d := target - state;
    var k, q, t := StepsTo(state, target), d * GammaInverse / Words, GammaInverse * Gamma / Words;
    assert d * GammaInverse == Words * q + k;
    assert k * Gamma == (d * GammaInverse - Words * q) * Gamma == d * (GammaInverse * Gamma) - Words * (q * Gamma);
    assert d * (GammaInverse * Gamma) == d * (Words * t + 1) == Words * (d * t) + d;
    Residue(state + k * Gamma, d * t - q * Gamma, target);
  }

  lemma StepsUnique(state: int, k: nat)
    requires k < Words
    ensures StepsTo(state, Advanced(state, k)) == k
  {
    var x := state + k * Gamma;
    var q, t := x / Words, GammaInverse * Gamma / Words;
    var d := Advanced(state, k) - state;
    assert d == k * Gamma - Words * q;
    assert d * GammaInverse == k * (Gamma * GammaInverse) - Words * (q * GammaInverse);
    assert k * (Gamma * GammaInverse) == k * (Words * t + 1) == Words * (k * t) + k;
    Residue(d * GammaInverse, k * t - q * GammaInverse, k);
  }

  /** Full period: from any seed the first 2^64 outputs are all the words, each once. */
  lemma FullPeriod(seed: int, w: nat)
    requires w < Words
    ensures exists k: nat :: k < Words && Mix(Advanced(seed, k)) == w
    ensures forall k: nat, l: nat :: k < Words && l < Words && Mix(Advanced(seed, k)) == Mix(Advanced(seed, l)) ==> k == l
  {
    UnmixBefore(w);
    StepsReach(seed, Unmix(w));
    forall k: nat, l: nat | k < Words && l < Words && Mix(Advanced(seed, k)) == Mix(Advanced(seed, l)) ensures k == l {
      UnmixAfter(Advanced(seed, k));
      UnmixAfter(Advanced(seed, l));
      StepsUnique(seed, k);
      StepsUnique(seed, l);
    }
  }
}
