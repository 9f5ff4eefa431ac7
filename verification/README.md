# Valuation arithmetic of a stock-valuation dashboard

A Dafny model of the valuation arithmetic in `valuation.py`. The rest of that
file is a Streamlit dashboard that fetches data through yfinance. The model
covers:

- the free-cash-flow projector `estimar_fluxo_de_caixa`. It seeds from the
  last historical free cash flow and compounds it once per period by
  `1 + growth/100`;
- the present value of the projection at the discount rate `wacc` percent,
  the i-th flow (0-based) discounted by `(1 + wacc/100)^(i+1)`;
- the Gordon-growth terminal value, written as the source writes it:
  `last * (1 + growth) / (wacc - growth)`;
- the DCF company value: present value plus terminal value;
- the market-multiple valuation `calcular_valuation_mm`: `EV = multiple * EBITDA`
  and `market cap = EV - debt + cash`;
- the elementwise helpers `calcular_pl` (price / EPS, or `None` without an EPS)
  and `calcular_dividend_yield` (`dividends / close * 100`).

Python floats are modelled as exact `real`s. Modules:

- `Wrappers` (`wrappers.dfy`): `Option` and `Result`.
- `Errors` (`errors.dfy`): the failure reasons.
- `Compounding`: `Pow` and the percentage factor `1 + pct/100`.
- `Projection`, `Discount`, `Dcf`, `Multiples`: the operations, one module per
  part of the computation.

Units. The projector and the present value divide `growth` and `wacc` by 100.
The terminal value uses the same two inputs unscaled, so a 5% growth rate
becomes a factor of 6 in its numerator. The model keeps this formula exactly
as written; the comment at the top of `dcf.dfy` explains it.

At the edges the model follows the code:

- With `periods < 1` the loop `range(1, periods + 1)` is empty, so the projector
  returns an empty list.
- The present value divides by `(1 + wacc/100) ** (i + 1)` once per projected
  flow. It fails only when that base is exactly zero (`wacc` of -100) and there
  is at least one flow. An empty projection sums to 0.0 at every rate, so with
  `periods < 1` the company value is the terminal value alone. Rates below -100
  are computed with a negative base, as written.
- A terminal value with `wacc < growth` is computed, not rejected. For a
  positive last flow and `growth > -1` it is negative (`Dcf.TerminalValueSign`);
  for a negative last flow and `growth > -1` it is positive
  (`Dcf.TerminalValueSignNegativeFlow`). Below -1 the factor `1 + growth` is
  itself negative and both signs flip again.
- A division by zero in the source gives an infinity or NaN (numpy and pandas
  floats). The DCF functions report it as a typed `Result` failure instead.
  The ratio helpers mark the element as `NonFinite`.
- The source's `estimar_valor_presente` reads `wacc` from the enclosing slider
  value, not from a parameter. The model makes it a parameter.
- The terminal value reads the outer `df_fcf` series, while the present value
  fetches the same series again. The model passes one series to both, so both
  share the same anchor, the last observation.

## Model

| member | source | states |
|---|---|---|
| Projection.Project | valuation.py:24-32 | fails exactly when the history is empty (`fcf_atual[-1]`); otherwise returns one value per loop round (none when `periods < 1`), and the k-th value (1-based) is `last * (1 + growth/100)^k` |
| Projection.ProjectLoop | valuation.py:24-32 | the imperative append loop returns the same result as the projector, error path included |
| Projection.Steps | valuation.py:27-30 | the append loop's output: n compounding steps from a start value produce exactly n values |
| Projection.StepsClosedForm | valuation.py:27-30 | repeatedly replacing the running value by its product with the factor gives `prev * factor^(k+1)` at step k |
| Projection.StepsRatio | valuation.py:28-30 | in the loop's output the first value is the start times the factor and each later value is the previous one times the factor, as `ultimo_fcf = proximo_fcf` carries it forward |
| Projection.ProjectReadsOnlyLast | valuation.py:26 | two histories with the same last value give the same projection: earlier observations are never read |
| Projection.ProjectStepRatio | valuation.py:28-30 | the first projected value is the seed times the growth factor, and each later value is the previous one times the same factor |
| Projection.ProjectIncreasing | valuation.py:28 | with a positive seed and positive growth, later projected values are strictly larger |
| Projection.ProjectDecreasing | valuation.py:28 | with a positive seed and growth strictly between -100 and 0, later projected values are strictly smaller |
| Projection.ProjectConstant | valuation.py:28 | with zero growth every projected value equals the seed |
| Projection.ProjectExample | valuation.py:24-32 | history [100, 110, 121] with 10% growth over 3 periods projects [133.1, 146.41, 161.051] |
| Discount.PresentValue | valuation.py:147 | fails exactly when the discount base `1 + wacc/100` is zero and there is at least one flow to divide; otherwise equals the Horner-scheme discounting of the flows, an independent reference definition |
| Discount.PresentValueOfNothing | valuation.py:147 | an empty projection has present value 0.0 at every rate, -100 included, since nothing is divided |
| Discount.DiscountedSum | valuation.py:147 | the source's sum `x_i / base^(i+1)` over the flows, defined whenever the base is nonzero or there are no flows; its contract is carried by `Discount.DiscountedSumIsHorner` and `Discount.PresentValueIsDiscountedSum` |
| Discount.PresentValueIsDiscountedSum | valuation.py:147 | whenever the rate is not -100 or there are no flows, the present value succeeds and equals the explicit sum of `x_i / (1 + wacc/100)^(i+1)` |
| Discount.DiscountedSumIsHorner | valuation.py:147 | the source's explicit sum of `x_i / base^(i+1)` equals Horner's scheme `(x_0 + rest) / base` for every series |
| Discount.DiscountedSumCons | valuation.py:147 | prepending a flow discounts every later flow by one more period |
| Discount.PresentValuePositive | valuation.py:147 | for a non-empty series of positive flows and a rate above -100, the present value is positive |
| Discount.PresentValueDecreasingInRate | valuation.py:147 | for a non-empty series of positive flows, a higher rate above -100 gives a strictly lower present value |
| Dcf.DiscountedSumOfGrowth | valuation.py:147 | flows `s * base^(k+1)` discounted at the same base are each worth `s` today, so the sum is the count times `s` |
| Dcf.PresentValueAtEqualRates | valuation.py:146-147 | when growth equals the discount rate, the present value of the projection is the number of periods times the last historical flow |
| Dcf.TerminalValue | valuation.py:159-160 | fails on an empty history or when `wacc == growth`; otherwise the value times `wacc - growth` is `last * (1 + growth)`, with the units exactly as the source writes them |
| Dcf.TerminalValueSign | valuation.py:160 | for a positive last flow and `growth > -1`, the terminal value is positive when `wacc > growth` and negative when `wacc < growth` |
| Dcf.TerminalValueSignNegativeFlow | valuation.py:160 | for a negative last flow and `growth > -1`, the terminal value is negative when `wacc > growth` and positive when `wacc < growth` |
| Dcf.ValueCompany | valuation.py:162-166 | succeeds exactly when the history is non-empty, `wacc != growth`, and either `wacc != -100` or there is no projection period; it reports the terminal-value failure first; the company value is present value plus terminal value, and both parts are anchored at the same last historical flow |
| Dcf.ValueCompanyWithoutPeriods | valuation.py:146-166 | with `periods < 1` the present value is 0.0 and the company value equals the terminal value, at every rate other than `growth`, -100 included |
| Dcf.ValueCompanyWithoutPeriodsExample | valuation.py:146-166 | history [5], zero growth, no period and rate -100 give present value 0, terminal value -0.05 and company value -0.05 |
| Dcf.PresentValueSinglePeriod | valuation.py:146-147 | one period with zero growth: the present value is the last flow discounted once, `last / (1 + wacc/100)`, for every rate other than -100 |
| Dcf.ValueCompanySinglePeriod | valuation.py:146-160 | one period with zero growth: the present value is `last / (1 + wacc/100)` and the terminal value is `last / wacc` |
| Multiples.ValueByMultiple | valuation.py:170-173 | the enterprise value is the multiple times EBITDA, and market cap minus enterprise value is cash minus debt |
| Multiples.ImpliedMultiple | valuation.py:171 | with nonzero EBITDA the multiple is recovered as enterprise value divided by EBITDA |
| Multiples.MarketCapIncreasingInMultiple | valuation.py:171-172 | with positive EBITDA a higher multiple gives a strictly higher market cap |
| Multiples.ValueByMultipleExample | valuation.py:170-173 | multiple 8, EBITDA 50, debt 20 and cash 5 give EV 400 and market cap 385 |
| Multiples.Divide | valuation.py:67 | a division is non-finite exactly when the divisor is zero; otherwise the quotient times the divisor is the dividend |
| Multiples.DivideAll | valuation.py:67 | dividing a series by a scalar keeps its length; every element is non-finite exactly when the scalar is zero, and otherwise times the scalar gives the original element |
| Multiples.PriceEarnings | valuation.py:65-69 | `None` exactly when EPS is `None`; otherwise one ratio per price, non-finite exactly when EPS is zero, each ratio times EPS being the price |
| Multiples.PriceEarningsIncreasingInPrice | valuation.py:67 | with a positive EPS a higher price gives a strictly higher P/L ratio |
| Multiples.DayYield | valuation.py:74 | a day's yield is non-finite exactly when the close is zero; otherwise the yield times the close is 100 times the dividend |
| Multiples.DividendYield | valuation.py:71-75 | one yield per day of history, each the day's own yield |
| Multiples.DayYieldSign | valuation.py:74 | with a positive close and a non-negative dividend the yield is finite, zero when no dividend is paid and positive otherwise |

## Left out

- Data fetching (`get_free_cash_flow`, `get_historical_data`, `get_eps`, `get_financials`, `obter_dados_empresa`, valuation.py:15-22, 55-63, 77-84, 174-179). These are calls into yfinance. The `/10**6` scaling of debt and cash and the error when EBITDA is missing both belong to this fetch layer.
- The fetch-and-sort preamble repeated inside `estimar_valor_presente` and `estimar_valor_terminal` (valuation.py:138-144, 151-157). This is DataFrame plumbing. The model takes the resulting ascending series as its input.
- Streamlit widgets, tabs, text output and CSS loading (valuation.py:9-13, 43-45, 104-110, 127-129, 164-167, 180-189). This includes the slider bounds on `wacc` and the line that displays the debt where the market cap is meant (valuation.py:189); both are presentation.
- pandas date handling: future dates, the concatenation that drops the first real row, and `dropna` (valuation.py:50-53, 95-101, 114-125).
- Plotly charting (valuation.py:131-134).
- IEEE-754 rounding, overflow and the values infinity and NaN. Arithmetic is exact over `real`, and a division by zero is reported as a failure or as `NonFinite` rather than as a float value.
- The per-ticker `wacc` dictionary (valuation.py:36-41). It is global state that the slider value shadows, so the discount rate is an explicit parameter.
