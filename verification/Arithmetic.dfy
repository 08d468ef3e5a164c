/** Powers of two, and quotient and remainder by them. */
module Arithmetic {

  function Pow2(n: nat): (r: nat)
    ensures r >= 1
  {
    if n == 0 then 1 else 2 * Pow2(n - 1)
  }

  lemma MulNonNegative(a: int, b: int)
    requires a >= 0 && b >= 0
    ensures a * b >= 0
  {
  }

  lemma MulMonotone(a: int, b: int, c: int)
    requires a >= 0 && b <= c
    ensures a * b <= a * c
  {
    MulNonNegative(a, c - b);
    assert a * (c - b) == a * c - a * b;
  }

  lemma DoubleProduct(p: int, x: int)
    ensures 2 * (p * x) == (2 * p) * x
  {
  }

  lemma SmallMultiple(p: int, k: int)
    requires p > 0 && -p < p * k < p
    ensures k == 0
  {
    if k >= 1 {
      MulMonotone(p, 1, k);
    } else if k <= -1 {
      MulMonotone(p, k, -1);
    }
  }

  /** Quotient and remainder are the only way to split a number. */
  lemma DivModUnique(p: int, q: int, r: int)
    requires 0 <= r < p
    ensures (p * q + r) / p == q && (p * q + r) % p == r
  {
    var x := p * q + r;
    assert x == p * (x / p) + x % p;
    assert p * (x / p) - p * q == p * (x / p - q);
    SmallMultiple(p, x / p - q);
  }

  /** Shifting one bit in at the bottom shifts the remainder with it. */
  lemma ShiftInMod(low: int, high: int, p: int)
    requires 0 <= low < 2 && p > 0
    ensures (low + 2 * high) % (2 * p) == low + 2 * (high % p)
  {
    var q, r := high / p, high % p;
    assert high == p * q + r;
    assert 2 * (p * q) == (2 * p) * q;
    DivModUnique(2 * p, q, low + 2 * r);
  }

  lemma ModOfMod(x: int, m: int, k: int)
    requires m > 0 && k > 0 && m * k > 0
    ensures x % (m * k) % m == x % m
  {
    var q, r := x / (m * k), x % (m * k);
    var a, b := r / m, r % m;
    assert x == (m * k) * q + r && r == m * a + b;
    assert (m * k) * q == m * (k * q);
    assert x == m * (k * q + a) + b;
    DivModUnique(m, k * q + a, b);
  }
}
