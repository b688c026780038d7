/** The two valuation figures the dashboard shows: Bazin's ceiling price and
    Graham's fair value (the "Graham number").

    The fair value is a square root, which exact real arithmetic cannot
    compute, so it is described by the predicate IsGrahamFairValue and the
    rest of the model works on its square, GrahamSquare, which is a plain
    product. */
module Valuation {
  import opened Numerics

  /** Bazin's ceiling price: the price at which the annual dividend yields
      exactly the target yield; zero when there is no positive dividend. */
  function BazinCeiling(dividend: real, targetYield: real): (ceiling: real)
    requires targetYield > 0.0
    ensures ceiling >= 0.0
    ensures ceiling > 0.0 <==> dividend > 0.0
    ensures dividend > 0.0 ==> ceiling * targetYield == dividend
  {
    if dividend > 0.0 then dividend / targetYield else 0.0
  }

  /** The radicand of the Graham number: 22.5 (a price/earnings of 15 times
      a price/book of 1.5) times earnings per share times book value per
      share. */
  function GrahamProduct(eps: real, bookValue: real): real
  {
    22.5 * eps * bookValue
  }

  /** `g` is the Graham fair value: the square root of GrahamProduct when
      both earnings and book value are positive, and zero otherwise. */
  ghost predicate IsGrahamFairValue(eps: real, bookValue: real, g: real)
  {
    if eps > 0.0 && bookValue > 0.0 then IsSqrt(GrahamProduct(eps, bookValue), g) else g == 0.0
  }

  /** The square of the Graham fair value. */
  function GrahamSquare(eps: real, bookValue: real): (s: real)
    ensures s >= 0.0
    ensures s > 0.0 <==> eps > 0.0 && bookValue > 0.0
  {
    if eps > 0.0 && bookValue > 0.0 then
      assert eps * bookValue > 0.0;
      GrahamProduct(eps, bookValue)
    else 0.0
  }

  /** Every Graham fair value squares to GrahamSquare, is positive exactly
      when both earnings and book value are, and is unique. */
  lemma GrahamFairValueProperties(eps: real, bookValue: real, g: real, g': real)
    requires IsGrahamFairValue(eps, bookValue, g)
    requires IsGrahamFairValue(eps, bookValue, g')
    ensures g >= 0.0 && g * g == GrahamSquare(eps, bookValue)
    ensures g > 0.0 <==> eps > 0.0 && bookValue > 0.0
    ensures g == g'
  {
    if eps > 0.0 && bookValue > 0.0 {
      SqrtUnique(GrahamProduct(eps, bookValue), g, g');
    }
  }

  /** Comparing the fair value with a price is comparing GrahamSquare with
      the price's square. */
  lemma GrahamCompare(eps: real, bookValue: real, g: real, price: real)
    requires IsGrahamFairValue(eps, bookValue, g)
    requires price > 0.0
    ensures g > price <==> GrahamSquare(eps, bookValue) > price * price
    ensures g >= price <==> GrahamSquare(eps, bookValue) >= price * price
  {
    GrahamFairValueProperties(eps, bookValue, g, g);
    SqrtCompare(GrahamSquare(eps, bookValue), g, price);
  }
}
