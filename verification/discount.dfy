/**
 * The present-value sum inside `estimar_valor_presente` (valuation.py:146-147):
 * the projected flows discounted at the rate `wacc` percent, the first flow
 * by one period, the i-th (0-based) by i + 1 periods.
 */
module Discount {
  import opened Wrappers
  import opened Errors
  import opened Compounding

  /** `sum_{i < |xs|} xs[i] / base^(i+1)`, accumulated from the front as the source's comprehension enumerates. */
  function DiscountedSum(xs: seq<real>, base: real): real
    requires base != 0.0 || |xs| == 0
    decreases |xs|
  {
    if |xs| == 0 then 0.0
    else
      PowNonZero(base, |xs|);
      DiscountedSum(xs[..|xs| - 1], base) + xs[|xs| - 1] / Pow(base, |xs|)
  }

  /**
   * An independent reference: discount the first flow together with the
   * already-discounted remainder by one more period (Horner's scheme).
   */
  function Horner(xs: seq<real>, base: real): real
    requires base != 0.0 || |xs| == 0
    decreases |xs|
  {
    if |xs| == 0 then 0.0 else (xs[0] + Horner(xs[1..], base)) / base
  }

  /**
   * The algebra of one cons step: a flow discounted by `base * p` periods'
   * worth is the flow discounted by `p` and then once more by `base`.
   */
  lemma ShiftOnePeriod(x: real, d: real, y: real, base: real, p: real)
    requires base != 0.0 && p != 0.0
    ensures x / base + d / base + y / (base * p) == x / base + (d + y / p) / base
  {
    assert y / (base * p) == (y / p) / base;
  }

  /** Prepending a flow pushes every later flow one period further out. */
  lemma {:induction false} DiscountedSumCons(x: real, ys: seq<real>, base: real)
    requires base != 0.0
    ensures DiscountedSum([x] + ys, base) == x / base + DiscountedSum(ys, base) / base
    decreases |ys|
  {
    var zs := [x] + ys;
    if |ys| == 0 {
      assert zs[..0] == [];
    } else {
      var n := |zs|;
      var init := ys[..|ys| - 1];
      var y := ys[|ys| - 1];
      assert zs[..n - 1] == [x] + init;
      assert zs[n - 1] == y;
      DiscountedSumCons(x, init, base);
      PowNonZero(base, n - 1);
      assert Pow(base, n) == base * Pow(base, n - 1);
      ShiftOnePeriod(x, DiscountedSum(init, base), y, base, Pow(base, n - 1));
    }
  }

  /** The source's explicit sum and Horner's scheme agree on every series. */
  lemma {:induction false} DiscountedSumIsHorner(xs: seq<real>, base: real)
    requires base != 0.0 || |xs| == 0
    ensures DiscountedSum(xs, base) == Horner(xs, base)
    decreases |xs|
  {
    if |xs| > 0 {
      assert xs == [xs[0]] + xs[1..];
      DiscountedSumCons(xs[0], xs[1..], base);
      DiscountedSumIsHorner(xs[1..], base);
    }
  }

  /**
   * The present value of a projected series at discount rate `wacc` percent.
   * The source divides by `(1 + wacc/100) ** (i + 1)`, which is zero only
   * when `wacc` is -100; that division is the one failure, and it happens
   * only when there is a flow to divide. An empty projection sums to zero
   * at every rate. A negative base (rates below -100) is computed as written.
   */
  function PresentValue(projected: seq<real>, wacc: real): (r: Result<real, Error>)
    ensures r.Failure? <==> wacc == -100.0 && |projected| > 0
    ensures r.Failure? ==> r.error == ZeroDiscountBase
    ensures r.Success? ==> r.value == Horner(projected, Factor(wacc))
  {
    if Factor(wacc) == 0.0 && |projected| > 0 then Failure(ZeroDiscountBase)
    else
      DiscountedSumIsHorner(projected, Factor(wacc));
      Success(DiscountedSum(projected, Factor(wacc)))
  }

  /** An empty projection is worth nothing today, whatever the rate, -100 included. */
  lemma PresentValueOfNothing(wacc: real)
    ensures PresentValue([], wacc) == Success(0.0)
  {
  }

  /** Away from a zero base, the present value is the source's discounted sum. */
  lemma PresentValueIsDiscountedSum(projected: seq<real>, wacc: real)
    requires wacc != -100.0 || |projected| == 0
    ensures PresentValue(projected, wacc) == Success(DiscountedSum(projected, Factor(wacc)))
  {
  }

  /** A quotient of positive quantities is positive. */
  lemma PositiveQuotient(y: real, p: real)
    requires y > 0.0 && p > 0.0
    ensures y / p > 0.0
  {
  }

  /** A positive quantity divided by a larger positive divisor gets strictly smaller. */
  lemma LargerDivisor(y: real, p: real, q: real)
    requires y > 0.0 && 0.0 < p < q
    ensures y / q < y / p
  {
    assert y / q * q == y;
    assert y / p * p == y;
    assert y / q * p < y / q * q;
  }

  lemma {:induction false} DiscountedSumPositive(xs: seq<real>, base: real)
    requires base > 0.0 && |xs| > 0
    requires forall i :: 0 <= i < |xs| ==> xs[i] > 0.0
    ensures DiscountedSum(xs, base) > 0.0
    decreases |xs|
  {
    PowPositive(base, |xs|);
    PositiveQuotient(xs[|xs| - 1], Pow(base, |xs|));
    if |xs| > 1 {
      DiscountedSumPositive(xs[..|xs| - 1], base);
    }
  }

  lemma {:induction false} DiscountedSumDecreasing(xs: seq<real>, low: real, high: real)
    requires 0.0 < low < high && |xs| > 0
    requires forall i :: 0 <= i < |xs| ==> xs[i] > 0.0
    ensures DiscountedSum(xs, high) < DiscountedSum(xs, low)
    decreases |xs|
  {
    PowPositive(low, |xs|);
    PowBaseIncreasing(low, high, |xs|);
    LargerDivisor(xs[|xs| - 1], Pow(low, |xs|), Pow(high, |xs|));
    if |xs| > 1 {
      DiscountedSumDecreasing(xs[..|xs| - 1], low, high);
    }
  }

  /** For flows that are all positive, the present value at a rate above -100% is positive. */
  lemma PresentValuePositive(projected: seq<real>, wacc: real)
    requires wacc > -100.0 && |projected| > 0
    requires forall i :: 0 <= i < |projected| ==> projected[i] > 0.0
    ensures PresentValue(projected, wacc).Success?
    ensures PresentValue(projected, wacc).value > 0.0
  {
    DiscountedSumIsHorner(projected, Factor(wacc));
    DiscountedSumPositive(projected, Factor(wacc));
  }

  /** For flows that are all positive, a higher discount rate gives a strictly lower present value. */
  lemma PresentValueDecreasingInRate(projected: seq<real>, low: real, high: real)
    requires -100.0 < low < high && |projected| > 0
    requires forall i :: 0 <= i < |projected| ==> projected[i] > 0.0
    ensures PresentValue(projected, high).Success? && PresentValue(projected, low).Success?
    ensures PresentValue(projected, high).value < PresentValue(projected, low).value
  {
    DiscountedSumIsHorner(projected, Factor(low));
    DiscountedSumIsHorner(projected, Factor(high));
    DiscountedSumDecreasing(projected, Factor(low), Factor(high));
  }
}
