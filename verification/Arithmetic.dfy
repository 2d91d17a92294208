/** Small facts about products, quotients and remainders. */
module Arithmetic {

  lemma MulMonotone(a: int, b: int, c: int)
    ensures a <= b && 0 <= c ==> a * c <= b * c
  {
    if a <= b && 0 <= c {
      assert 0 <= (b - a) * c;
      assert (b - a) * c == b * c - a * c;
    }
  }

  lemma MulDistributes(a: int, b: int, c: int)
    ensures (a + b) * c == a * c + b * c
  {
  }

  lemma MulCommutes(a: int, b: int)
    ensures a * b == b * a
  {
  }

  /** A number below n * base in base `base`. */
  lemma DigitBound(high: int, low: int, n: int, base: int)
    requires 0 <= high < n && 0 <= low < base
    ensures 0 <= high * base + low < n * base
  {
    MulMonotone(0, high, base);
    MulMonotone(high + 1, n, base);
    MulDistributes(high, 1, base);
  }

  lemma DigitsUnique(base: int, high: int, low: int, high': int, low': int)
    requires 0 <= low < base && 0 <= low' < base
    requires high * base + low == high' * base + low'
    ensures high == high' && low == low'
  {
    MulMonotone(high + 1, high', base);
    MulDistributes(high, 1, base);
    MulMonotone(high' + 1, high, base);
    MulDistributes(high', 1, base);
  }

  lemma DivModIdentity(x: int, size: int)
    requires size > 0
    ensures x == (x / size) * size + x % size && 0 <= x % size < size
  {
  }

  lemma ModUnique(x: int, q: int, r: int, size: int)
    requires size > 0 && x == q * size + r && 0 <= r < size
    ensures x % size == r && x / size == q
  {
    DivModIdentity(x, size);
    DigitsUnique(size, q, r, x / size, x % size);
  }

  lemma AddMultiple(x: int, m: int, size: int)
    requires size > 0
    ensures (x + m * size) % size == x % size
  {
    DivModIdentity(x, size);
    MulDistributes(x / size, m, size);
    ModUnique(x + m * size, x / size + m, x % size, size);
  }

  function Pow2(k: nat): (p: nat)
    ensures p > 0
  {
    if k == 0 then 1 else 2 * Pow2(k - 1)
  }
}
