/**
 * The market-multiple view and the price-multiple helpers of valuation.py:
 * `calcular_valuation_mm` (lines 170-173), `calcular_pl` (lines 65-69) and
 * `calcular_dividend_yield` (lines 71-75).
 */
module Multiples {
  import opened Wrappers

  /** The two figures `calcular_valuation_mm` returns. */
  datatype MultipleValuation = MultipleValuation(enterpriseValue: real, marketCap: real)

  /**
   * Enterprise value is the market multiple applied to EBITDA; market cap is
   * enterprise value less long-term debt plus cash. So market cap and
   * enterprise value differ exactly by the net cash position.
   */
  function ValueByMultiple(multiple: real, ebitda: real, debt: real, cash: real): (r: MultipleValuation)
    ensures r.enterpriseValue == multiple * ebitda
    ensures r.marketCap - r.enterpriseValue == cash - debt
  {
    var ev := multiple * ebitda;
    MultipleValuation(ev, ev - debt + cash)
  }

  /** The multiple is recovered from the enterprise value whenever EBITDA is nonzero. */
  lemma ImpliedMultiple(multiple: real, ebitda: real, debt: real, cash: real)
    requires ebitda != 0.0
    ensures ValueByMultiple(multiple, ebitda, debt, cash).enterpriseValue / ebitda == multiple
  {
  }

  /** With positive EBITDA, a higher multiple gives a strictly higher market cap. */
  lemma MarketCapIncreasingInMultiple(low: real, high: real, ebitda: real, debt: real, cash: real)
    requires low < high && ebitda > 0.0
    ensures ValueByMultiple(low, ebitda, debt, cash).marketCap < ValueByMultiple(high, ebitda, debt, cash).marketCap
  {
    assert high * ebitda - low * ebitda == (high - low) * ebitda;
  }

  /** The worked scenario: multiple 8, EBITDA 50, debt 20, cash 5. */
  lemma ValueByMultipleExample()
    ensures ValueByMultiple(8.0, 50.0, 20.0, 5.0) == MultipleValuation(400.0, 385.0)
  {
  }

  /**
   * The outcome of one floating-point division. Dividing by zero does not
   * raise on pandas series; it yields an infinity or NaN, modelled here as
   * `NonFinite`.
   */
  datatype Quotient = Finite(value: real) | NonFinite

  function Divide(a: real, b: real): (r: Quotient)
    ensures r.NonFinite? <==> b == 0.0
    ensures r.Finite? ==> r.value * b == a
  {
    if b == 0.0 then NonFinite else Finite(a / b)
  }

  /** Elementwise division of a series by one scalar, `series / d`. */
  function DivideAll(xs: seq<real>, d: real): (r: seq<Quotient>)
    ensures |r| == |xs|
    ensures forall i :: 0 <= i < |xs| ==> (r[i].NonFinite? <==> d == 0.0)
    ensures forall i :: 0 <= i < |xs| ==> r[i].Finite? ==> r[i].value * d == xs[i]
    decreases |xs|
  {
    if |xs| == 0 then [] else [Divide(xs[0], d)] + DivideAll(xs[1..], d)
  }

  /**
   * The price/earnings series: `None` exactly when no trailing EPS is known;
   * otherwise one ratio per closing price, each of which times the EPS gives
   * the price back.
   */
  function PriceEarnings(prices: seq<real>, eps: Option<real>): (r: Option<seq<Quotient>>)
    ensures r.None? <==> eps.None?
    ensures r.Some? ==> |r.value| == |prices|
    ensures r.Some? ==> forall i :: 0 <= i < |prices| ==> (r.value[i].NonFinite? <==> eps.value == 0.0)
    ensures r.Some? ==> forall i :: 0 <= i < |prices| ==> r.value[i].Finite? ==> r.value[i].value * eps.value == prices[i]
  {
    match eps
    case None => None
    case Some(e) => Some(DivideAll(prices, e))
  }

  /** With a positive EPS a higher price means a strictly higher P/L ratio. */
  lemma PriceEarningsIncreasingInPrice(prices: seq<real>, e: real, i: nat, j: nat)
    requires e > 0.0 && i < |prices| && j < |prices| && prices[i] < prices[j]
    ensures PriceEarnings(prices, Some(e)).value[i].value < PriceEarnings(prices, Some(e)).value[j].value
  {
    var r := PriceEarnings(prices, Some(e)).value;
    assert (r[j].value - r[i].value) * e == prices[j] - prices[i];
    FactorSign(r[j].value - r[i].value, e, prices[j] - prices[i]);
  }

  /** One day of price history: the closing price and the dividend paid that day. */
  datatype Bar = Bar(close: real, dividends: real)

  /** The dividend yield of one day in percent, `dividends / close * 100`. */
  function DayYield(bar: Bar): (r: Quotient)
    ensures r.NonFinite? <==> bar.close == 0.0
    ensures r.Finite? ==> r.value * bar.close == bar.dividends * 100.0
  {
    match Divide(bar.dividends, bar.close)
    case NonFinite => NonFinite
    case Finite(q) => Finite(q * 100.0)
  }

  /** The dividend-yield series, one percentage per day of history. */
  function DividendYield(history: seq<Bar>): (r: seq<Quotient>)
    ensures |r| == |history|
    ensures forall i :: 0 <= i < |history| ==> r[i] == DayYield(history[i])
    decreases |history|
  {
    if |history| == 0 then [] else [DayYield(history[0])] + DividendYield(history[1..])
  }

  /** If `y * c == p` with `c` positive, then `y` has the sign of `p`. */
  lemma FactorSign(y: real, c: real, p: real)
    requires c > 0.0 && y * c == p
    ensures p >= 0.0 ==> y >= 0.0
    ensures p > 0.0 ==> y > 0.0
    ensures p == 0.0 ==> y == 0.0
  {
    if y < 0.0 {
      assert y * c < 0.0;
    } else if y == 0.0 {
      assert y * c == 0.0;
    }
  }

  /** A day with a positive close has a yield of the dividend's sign: zero when nothing is paid, positive otherwise. */
  lemma DayYieldSign(bar: Bar)
    requires bar.close > 0.0 && bar.dividends >= 0.0
    ensures DayYield(bar).Finite?
    ensures bar.dividends == 0.0 ==> DayYield(bar).value == 0.0
    ensures bar.dividends > 0.0 ==> DayYield(bar).value > 0.0
  {
    FactorSign(DayYield(bar).value, bar.close, bar.dividends * 100.0);
  }
}
