/** Powers and percentage growth factors: the arithmetic every valuation step is built on. */
module Compounding {

  /** The factor a rate given in percent multiplies by over one period: `1 + pct/100`. */
  function Factor(pct: real): real
  {
    1.0 + pct / 100.0
  }

  /** `b ** n` for a natural exponent. */
  function Pow(b: real, n: nat): real
  {
    if n == 0 then 1.0 else b * Pow(b, n - 1)
  }

  lemma {:induction false} PowPositive(b: real, n: nat)
    requires b > 0.0
    ensures Pow(b, n) > 0.0
  {
    if n > 0 {
      PowPositive(b, n - 1);
    }
  }

  lemma {:induction false} PowNonZero(b: real, n: nat)
    requires b != 0.0
    ensures Pow(b, n) != 0.0
  {
    if n > 0 {
      PowNonZero(b, n - 1);
    }
  }

  lemma {:induction false} PowOfOne(n: nat)
    ensures Pow(1.0, n) == 1.0
  {
    if n > 0 {
      PowOfOne(n - 1);
    }
  }

  /** Multiplying a positive quantity by a factor above one makes it strictly larger. */
  lemma ScaleUp(b: real, p: real)
    requires b > 1.0 && p > 0.0
    ensures b * p > p
  {
    assert b * p - p == (b - 1.0) * p;
  }

  /** Multiplying a positive quantity by a factor in (0, 1) makes it strictly smaller but keeps it positive. */
  lemma ScaleDown(b: real, p: real)
    requires 0.0 < b < 1.0 && p > 0.0
    ensures 0.0 < b * p < p
  {
    assert p - b * p == (1.0 - b) * p;
  }

  /** Above one, a higher power is strictly larger. */
  lemma {:induction false} PowIncreasing(b: real, i: nat, j: nat)
    requires b > 1.0 && i < j
    ensures Pow(b, i) < Pow(b, j)
  {
    var k: nat := j - 1;
    PowPositive(b, k);
    ScaleUp(b, Pow(b, k));
    assert Pow(b, j) == b * Pow(b, k);
    if i < k {
      PowIncreasing(b, i, k);
    }
  }

  /** Strictly between zero and one, a higher power is strictly smaller. */
  lemma {:induction false} PowDecreasing(b: real, i: nat, j: nat)
    requires 0.0 < b < 1.0 && i < j
    ensures Pow(b, j) < Pow(b, i)
  {
    var k: nat := j - 1;
    PowPositive(b, k);
    ScaleDown(b, Pow(b, k));
    assert Pow(b, j) == b * Pow(b, k);
    if i < k {
      PowDecreasing(b, i, k);
    }
  }

  /** For a positive exponent, a strictly larger positive base gives a strictly larger power. */
  lemma {:induction false} PowBaseIncreasing(a: real, b: real, n: nat)
    requires 0.0 < a < b && n >= 1
    ensures Pow(a, n) < Pow(b, n)
  {
    PowPositive(a, n - 1);
    if n > 1 {
      PowBaseIncreasing(a, b, n - 1);
    }
  }
}
