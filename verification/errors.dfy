/** Why a valuation could not be computed. */
module Errors {

  datatype Error =
    | EmptySeries       // no historical free-cash-flow observation to seed from
    | ZeroDiscountBase  // the discount base `1 + wacc/100` is zero
    | ZeroSpread        // the terminal-value denominator `wacc - growth` is zero
}
