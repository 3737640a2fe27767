/** Small facts about integer division and multiplication that the solver
    does not find on its own when the divisor or a factor is a variable. */
module Arith {

  function Min(a: int, b: int): int { if a <= b then a else b }
  function Max(a: int, b: int): int { if a <= b then b else a }

  lemma FloorBounds(x: int, d: int)
    requires 0 <= x && 0 < d
    ensures x - (d - 1) <= d * (x / d) <= x
    ensures 0 <= x / d
  {
  }

  /** Quotient and remainder are unique. */
  lemma DivUnique(x: int, d: int, q: int, r: int)
    requires d > 0 && 0 <= r < d && x == d * q + r
    ensures x / d == q
  {
    var q' := x / d;
    var r' := x % d;
    assert x == d * q' + r';
    MulDistrib(d, q', q);
    if q' > q {
      MulAtLeast(d, q' - q);
    } else if q' < q {
      MulDistrib(d, q, q');
      MulAtLeast(d, q - q');
    }
  }

  lemma MulDistrib(d: int, a: int, b: int)
    ensures d * a - d * b == d * (a - b)
  {
  }

  lemma MulAtLeast(d: int, k: int)
    requires d > 0 && k >= 1
    ensures d * k >= d
  {
  }

  lemma ModUnique(x: int, d: int, q: int, r: int)
    requires d > 0 && 0 <= r < d && x == d * q + r
    ensures x % d == r
  {
    DivUnique(x, d, q, r);
  }

  /** Removing one divisor from the dividend removes one from the quotient. */
  lemma DivMinusDivisor(t: int, d: int)
    requires t >= d > 0
    ensures (t - d) / d == t / d - 1
  {
    var q := t / d;
    var r := t % d;
    assert t - d == d * (q - 1) + r;
    DivUnique(t - d, d, q - 1, r);
  }

  /** A dividend below m divisors has a quotient below m. */
  lemma DivBelow(t: int, d: int, m: int)
    requires 0 <= t && d > 0 && t < m * d
    ensures t / d < m
  {
    FloorBounds(t, d);
  }

  /** A multiple of m strictly between -m and m is zero. */
  lemma SmallMultipleIsZero(d: int, m: int)
    requires m > 0 && -m < d < m && d % m == 0
    ensures d == 0
  {
  }

  lemma MulSucc(k: int, x: int)
    ensures (k + 1) * x == k * x + x
  {
  }
}
