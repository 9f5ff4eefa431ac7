/**
 * The free-cash-flow projector `estimar_fluxo_de_caixa` (valuation.py:24-32).
 *
 * It takes the chronologically last historical free-cash-flow value as the
 * seed and compounds it once per period by `1 + growth/100`, growth being a
 * percentage (5 means 5%). The result holds one value per period of
 * `range(1, periods + 1)`, nearest period first.
 */
module Projection {
  import opened Wrappers
  import opened Errors
  import opened Compounding

  /** The number of loop rounds `range(1, periods + 1)` makes: none when `periods < 1`. */
  function Horizon(periods: int): nat
  {
    if periods > 0 then periods else 0
  }

  /** The projection seed: the most recent actual observation, `fcf_atual[-1]`. */
  function Seed(fcf: seq<real>): real
    requires |fcf| > 0
  {
    fcf[|fcf| - 1]
  }

  /** The values the projector appends, starting from `prev` and taking `n` compounding steps. */
  function Steps(prev: real, factor: real, n: nat): (r: seq<real>)
    ensures |r| == n
    decreases n
  {
    if n == 0 then [] else [prev * factor] + Steps(prev * factor, factor, n - 1)
  }

  /** One loop round: the first step is taken, the rest start from its value. */
  lemma StepsUnfold(prev: real, factor: real, n: nat)
    requires n > 0
    ensures Steps(prev, factor, n) == [prev * factor] + Steps(prev * factor, factor, n - 1)
  {
  }

  /** The k-th step (0-based) is the start value grown by k + 1 factors. */
  lemma {:induction false} StepsClosedForm(prev: real, factor: real, n: nat)
    ensures forall k :: 0 <= k < n ==> Steps(prev, factor, n)[k] == prev * Pow(factor, k + 1)
    decreases n
  {
    if n > 0 {
      StepsClosedForm(prev * factor, factor, n - 1);
      forall k | 0 <= k < n
        ensures Steps(prev, factor, n)[k] == prev * Pow(factor, k + 1)
      {
        if k > 0 {
          calc {
            Steps(prev, factor, n)[k];
            Steps(prev * factor, factor, n - 1)[k - 1];
            (prev * factor) * Pow(factor, k);
            prev * (factor * Pow(factor, k));
          }
        }
      }
    }
  }

  /**
   * The projector. An empty history has no last element (the source's
   * `fcf_atual[-1]` raises), which is the only failure. The result has one
   * element per period, the k-th (1-based) being `seed * (1 + growth/100)^k`.
   */
  function Project(fcf: seq<real>, growth: real, periods: int): (r: Result<seq<real>, Error>)
    ensures r.Failure? <==> |fcf| == 0
    ensures r.Failure? ==> r.error == EmptySeries
    ensures r.Success? ==> |r.value| == Horizon(periods)
    ensures r.Success? ==> forall k :: 0 <= k < |r.value| ==>
              r.value[k] == Seed(fcf) * Pow(Factor(growth), k + 1)
  {
    if |fcf| == 0 then Failure(EmptySeries)
    else
      StepsClosedForm(Seed(fcf), Factor(growth), Horizon(periods));
      Success(Steps(Seed(fcf), Factor(growth), Horizon(periods)))
  }

  /** The projector as the source writes it: a loop appending one compounded value per period. */
  method ProjectLoop(fcf: seq<real>, growth: real, periods: int) returns (r: Result<seq<real>, Error>)
    ensures r == Project(fcf, growth, periods)
  {
    if |fcf| == 0 {
      return Failure(EmptySeries);
    }
    var factor := Factor(growth);
    var estimates: seq<real> := [];
    var last := fcf[|fcf| - 1];
    var i := 1;
    while i <= periods
      invariant 1 <= i <= Horizon(periods) + 1
      invariant estimates + Steps(last, factor, Horizon(periods) - (i - 1))
                == Steps(Seed(fcf), factor, Horizon(periods))
    {
      var next := last * factor;
      ghost var m: nat := Horizon(periods) - (i - 1);
      ghost var rest := Steps(next, factor, m - 1);
      StepsUnfold(last, factor, m);
      assert estimates + ([next] + rest) == (estimates + [next]) + rest;
      estimates := estimates + [next];
      last := next;
      i := i + 1;
    }
    assert estimates + [] == estimates;
    r := Success(estimates);
  }

  /** Only the last historical value matters: earlier observations never change the projection. */
  lemma ProjectReadsOnlyLast(fcf1: seq<real>, fcf2: seq<real>, growth: real, periods: int)
    requires |fcf1| > 0 && |fcf2| > 0
    requires fcf1[|fcf1| - 1] == fcf2[|fcf2| - 1]
    ensures Project(fcf1, growth, periods) == Project(fcf2, growth, periods)
  {
  }

  /** Each step is the previous one times the factor, the first being the start value times it. */
  lemma {:induction false} StepsRatio(prev: real, factor: real, n: nat)
    requires n > 0
    ensures Steps(prev, factor, n)[0] == prev * factor
    ensures forall k :: 0 < k < n ==> Steps(prev, factor, n)[k] == Steps(prev, factor, n)[k - 1] * factor
    decreases n
  {
    if n > 1 {
      StepsRatio(prev * factor, factor, n - 1);
    }
  }

  /** Each projected value is the previous one times the growth factor, the first being the seed times it. */
  lemma ProjectStepRatio(fcf: seq<real>, growth: real, periods: int)
    requires |fcf| > 0 && periods >= 1
    ensures Project(fcf, growth, periods).value[0] == Seed(fcf) * Factor(growth)
    ensures forall k :: 0 < k < Horizon(periods) ==>
              Project(fcf, growth, periods).value[k] == Project(fcf, growth, periods).value[k - 1] * Factor(growth)
  {
    StepsRatio(Seed(fcf), Factor(growth), Horizon(periods));
  }

  /** Every later element is strictly larger. */
  ghost predicate StrictlyIncreasing(xs: seq<real>)
  {
    forall i, j :: 0 <= i < j < |xs| ==> xs[i] < xs[j]
  }

  /** Every later element is strictly smaller. */
  ghost predicate StrictlyDecreasing(xs: seq<real>)
  {
    forall i, j :: 0 <= i < j < |xs| ==> xs[j] < xs[i]
  }

  /** With positive growth and a positive seed the projection is strictly increasing. */
  lemma ProjectIncreasing(fcf: seq<real>, growth: real, periods: int)
    requires |fcf| > 0 && Seed(fcf) > 0.0 && growth > 0.0
    ensures StrictlyIncreasing(Project(fcf, growth, periods).value)
  {
    var r := Project(fcf, growth, periods).value;
    var s, f := Seed(fcf), Factor(growth);
    forall i, j | 0 <= i < j < |r|
      ensures r[i] < r[j]
    {
      PowIncreasing(f, i + 1, j + 1);
      assert s * Pow(f, j + 1) - s * Pow(f, i + 1) == s * (Pow(f, j + 1) - Pow(f, i + 1));
    }
  }

  /** With growth strictly between -100% and 0 and a positive seed the projection is strictly decreasing. */
  lemma ProjectDecreasing(fcf: seq<real>, growth: real, periods: int)
    requires |fcf| > 0 && Seed(fcf) > 0.0 && -100.0 < growth < 0.0
    ensures StrictlyDecreasing(Project(fcf, growth, periods).value)
  {
    var r := Project(fcf, growth, periods).value;
    var s, f := Seed(fcf), Factor(growth);
    forall i, j | 0 <= i < j < |r|
      ensures r[j] < r[i]
    {
      PowDecreasing(f, i + 1, j + 1);
      assert s * Pow(f, i + 1) - s * Pow(f, j + 1) == s * (Pow(f, i + 1) - Pow(f, j + 1));
    }
  }

  /** With zero growth every projected value equals the seed. */
  lemma ProjectConstant(fcf: seq<real>, periods: int)
    requires |fcf| > 0
    ensures forall k :: 0 <= k < Horizon(periods) ==> Project(fcf, 0.0, periods).value[k] == Seed(fcf)
  {
    forall k | 0 <= k < Horizon(periods)
      ensures Project(fcf, 0.0, periods).value[k] == Seed(fcf)
    {
      PowOfOne(k + 1);
    }
  }

  /** The worked scenario: history [100, 110, 121], 10% growth, three periods. */
  lemma ProjectExample()
    ensures Project([100.0, 110.0, 121.0], 10.0, 3) == Success([133.1, 146.41, 161.051])
  {
    var r := Project([100.0, 110.0, 121.0], 10.0, 3).value;
    assert Pow(1.1, 1) == 1.1;
    assert Pow(1.1, 2) == 1.21;
    assert Pow(1.1, 3) == 1.331;
    assert r == [133.1, 146.41, 161.051];
  }
}
