/**
 * The discounted-cash-flow view: the terminal value of `estimar_valor_terminal`
 * (valuation.py:159-160), the present value of `estimar_valor_presente`
 * (valuation.py:146-147) and their sum, the estimated company value
 * (valuation.py:162-166).
 *
 * Units. The projector and the present value read `growth` and `wacc` as
 * percentages (divided by 100), but the terminal value uses them as written:
 * `last * (1 + growth) / (wacc - growth)`. With growth 5 and wacc 10.55 the
 * numerator factor is 6, not 1.05, and the denominator is 5.55, not 0.0555.
 * This model keeps that formula exactly as the source computes it.
 */
module Dcf {
  import opened Wrappers
  import opened Errors
  import opened Compounding
  import opened Projection
  import opened Discount

  /** The three figures the DCF view reports. */
  datatype DcfValuation = DcfValuation(presentValue: real, terminalValue: real, companyValue: real)

  /**
   * The Gordon-growth terminal value, anchored at the last historical flow.
   * An empty history has no last flow; equal `wacc` and `growth` make the
   * denominator zero. Otherwise the value times the spread `wacc - growth`
   * is the grown last flow.
   */
  function TerminalValue(fcf: seq<real>, growth: real, wacc: real): (r: Result<real, Error>)
    ensures r.Failure? <==> |fcf| == 0 || wacc == growth
    ensures |fcf| == 0 ==> r == Failure(EmptySeries)
    ensures |fcf| > 0 && wacc == growth ==> r == Failure(ZeroSpread)
    ensures r.Success? ==> r.value * (wacc - growth) == Seed(fcf) * (1.0 + growth)
  {
    if |fcf| == 0 then Failure(EmptySeries)
    else if wacc == growth then Failure(ZeroSpread)
    else Success(Seed(fcf) * (1.0 + growth) / (wacc - growth))
  }

  /**
   * For a positive last flow and `growth > -1`, the terminal value is positive
   * when the discount rate exceeds growth and negative when it falls below.
   */
  lemma TerminalValueSign(fcf: seq<real>, growth: real, wacc: real)
    requires |fcf| > 0 && Seed(fcf) > 0.0 && growth > -1.0 && wacc != growth
    ensures wacc > growth ==> TerminalValue(fcf, growth, wacc).value > 0.0
    ensures wacc < growth ==> TerminalValue(fcf, growth, wacc).value < 0.0
  {
    var n := Seed(fcf) * (1.0 + growth);
    assert n > 0.0;
    if wacc > growth {
      PositiveQuotient(n, wacc - growth);
    } else {
      PositiveQuotient(n, growth - wacc);
      assert n / (wacc - growth) == -(n / (growth - wacc));
    }
  }

  /**
   * For a negative last flow and `growth > -1`, the signs flip: the terminal
   * value is negative when the discount rate exceeds growth and positive
   * when it falls below.
   */
  lemma TerminalValueSignNegativeFlow(fcf: seq<real>, growth: real, wacc: real)
    requires |fcf| > 0 && Seed(fcf) < 0.0 && growth > -1.0 && wacc != growth
    ensures wacc > growth ==> TerminalValue(fcf, growth, wacc).value < 0.0
    ensures wacc < growth ==> TerminalValue(fcf, growth, wacc).value > 0.0
  {
    var n := -(Seed(fcf) * (1.0 + growth));
    assert n == (-Seed(fcf)) * (1.0 + growth);
    assert n > 0.0;
    if wacc > growth {
      PositiveQuotient(n, wacc - growth);
      assert Seed(fcf) * (1.0 + growth) / (wacc - growth) == -(n / (wacc - growth));
    } else {
      PositiveQuotient(n, growth - wacc);
      assert Seed(fcf) * (1.0 + growth) / (wacc - growth) == n / (growth - wacc);
    }
  }

  /**
   * The whole DCF view: the terminal value is computed first (valuation.py:162),
   * so its failures take precedence; then the present value of the projection.
   * The company value is their sum, and both parts use the same anchor, the
   * last historical flow.
   */
  function ValueCompany(fcf: seq<real>, growth: real, periods: int, wacc: real): (r: Result<DcfValuation, Error>)
    ensures r.Success? <==> |fcf| > 0 && wacc != growth && (wacc != -100.0 || Horizon(periods) == 0)
    ensures |fcf| == 0 ==> r == Failure(EmptySeries)
    ensures |fcf| > 0 && wacc == growth ==> r == Failure(ZeroSpread)
    ensures |fcf| > 0 && wacc != growth && wacc == -100.0 && Horizon(periods) > 0 ==> r == Failure(ZeroDiscountBase)
    ensures r.Success? ==> r.value.companyValue == r.value.presentValue + r.value.terminalValue
    ensures r.Success? ==> r.value.terminalValue * (wacc - growth) == Seed(fcf) * (1.0 + growth)
    ensures r.Success? ==> r.value.presentValue == Horner(Project(fcf, growth, periods).value, Factor(wacc))
  {
    var tv := TerminalValue(fcf, growth, wacc);
    if tv.Failure? then Failure(tv.error)
    else
      var pv := PresentValue(Project(fcf, growth, periods).value, wacc);
      if pv.Failure? then Failure(pv.error)
      else Success(DcfValuation(pv.value, tv.value, pv.value + tv.value))
  }

  /**
   * With no projection period nothing is discounted, so even at a discount
   * rate of -100 the company value is the terminal value alone.
   */
  lemma ValueCompanyWithoutPeriods(fcf: seq<real>, growth: real, periods: int, wacc: real)
    requires |fcf| > 0 && periods < 1 && wacc != growth
    ensures ValueCompany(fcf, growth, periods, wacc).Success?
    ensures ValueCompany(fcf, growth, periods, wacc).value.presentValue == 0.0
    ensures ValueCompany(fcf, growth, periods, wacc).value.companyValue
            == ValueCompany(fcf, growth, periods, wacc).value.terminalValue
  {
    assert Project(fcf, growth, periods).value == [];
  }

  /** One history value 5, no growth, no period, rate -100: the company value is -0.05. */
  lemma ValueCompanyWithoutPeriodsExample()
    ensures ValueCompany([5.0], 0.0, 0, -100.0) == Success(DcfValuation(0.0, -0.05, -0.05))
  {
    assert Project([5.0], 0.0, 0).value == [];
  }

  /** Dividing a product by its nonzero factor gives the other factor back. */
  lemma CancelFactor(s: real, p: real)
    requires p != 0.0
    ensures s * p / p == s
  {
  }

  /** Flows of the form `s * base^(k+1)`, discounted at `base`, are each worth `s` today. */
  lemma {:induction false} DiscountedSumOfGrowth(xs: seq<real>, s: real, base: real)
    requires base != 0.0
    requires forall k :: 0 <= k < |xs| ==> xs[k] == s * Pow(base, k + 1)
    ensures DiscountedSum(xs, base) == |xs| as real * s
    decreases |xs|
  {
    if |xs| > 0 {
      var init := xs[..|xs| - 1];
      assert forall k :: 0 <= k < |init| ==> init[k] == xs[k];
      DiscountedSumOfGrowth(init, s, base);
      var n := |xs|;
      var p := Pow(base, n);
      PowNonZero(base, n);
      CancelFactor(s, p);
      calc {
        DiscountedSum(xs, base);
        DiscountedSum(init, base) + xs[n - 1] / p;
        (n - 1) as real * s + xs[n - 1] / p;
        { assert xs[n - 1] == s * p; }
        (n - 1) as real * s + s * p / p;
        (n - 1) as real * s + s;
        n as real * s;
      }
    }
  }

  /**
   * When the growth rate equals the discount rate, growth and discounting
   * cancel: the present value of the projection is `periods` times the seed.
   */
  lemma PresentValueAtEqualRates(fcf: seq<real>, rate: real, periods: int)
    requires |fcf| > 0 && rate != -100.0
    ensures PresentValue(Project(fcf, rate, periods).value, rate).Success?
    ensures PresentValue(Project(fcf, rate, periods).value, rate).value == Horizon(periods) as real * Seed(fcf)
  {
    var xs := Project(fcf, rate, periods).value;
    var base := Factor(rate);
    DiscountedSumOfGrowth(xs, Seed(fcf), base);
    PresentValueIsDiscountedSum(xs, rate);
    var v := DiscountedSum(xs, base);
    assert v == Horizon(periods) as real * Seed(fcf);
  }

  /** One period without growth: the present value is the last flow discounted once, `last / (1 + wacc/100)`. */
  lemma PresentValueSinglePeriod(fcf: seq<real>, wacc: real)
    requires |fcf| > 0 && wacc != -100.0
    ensures PresentValue(Project(fcf, 0.0, 1).value, wacc).Success?
    ensures PresentValue(Project(fcf, 0.0, 1).value, wacc).value == Seed(fcf) / Factor(wacc)
  {
    var xs := Project(fcf, 0.0, 1).value;
    assert xs == [Seed(fcf) * Factor(0.0)];
    assert Horner(xs, Factor(wacc)) == (xs[0] + Horner(xs[1..], Factor(wacc))) / Factor(wacc);
  }

  /**
   * One period without growth, whole view: the present value is the last flow discounted
   * once, `last / (1 + wacc/100)`, and the terminal value is `last / wacc`.
   */
  lemma ValueCompanySinglePeriod(fcf: seq<real>, wacc: real)
    requires |fcf| > 0 && wacc != 0.0 && wacc != -100.0
    ensures ValueCompany(fcf, 0.0, 1, wacc).Success?
    ensures ValueCompany(fcf, 0.0, 1, wacc).value.presentValue == Seed(fcf) / Factor(wacc)
    ensures ValueCompany(fcf, 0.0, 1, wacc).value.terminalValue == Seed(fcf) / wacc
  {
    var xs := Project(fcf, 0.0, 1).value;
    assert xs == [Seed(fcf) * Factor(0.0)];
    assert Horner(xs, Factor(wacc)) == (xs[0] + Horner(xs[1..], Factor(wacc))) / Factor(wacc);
  }
}
