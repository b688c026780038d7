/** The threshold-only score helper (`calcular_score_estatistico`): the same
    three tests as the partial-credit score, each worth a fixed 40, 40 or 20
    points with no partial credit, and 0 for a symbol with no price history
    or a computation that fails. */
module Threshold {
  import opened Numerics
  import opened MarketData
  import opened Valuation
  import opened Score

  /** The Bazin test: the ceiling, taken as zero without a positive
      dividend, is above the price. */
  predicate BazinPasses(dividend: real, targetYield: real, price: real)
    requires dividend > 0.0 ==> targetYield != 0.0
  {
    (if dividend > 0.0 then dividend / targetYield else 0.0) > price
  }

  /** The Graham test: the square root of the Graham product is above the
      price, with no positivity guard on earnings or book value, decided
      without taking the root (GrahamPassesMeaning). A negative product has
      a NaN root, which is above no price; a non-negative root is above
      every negative price, and above a non-negative price exactly when the
      product is above the price's square. */
  predicate GrahamPasses(eps: real, bookValue: real, price: real)
  {
    var product := GrahamProduct(eps, bookValue);
    product >= 0.0 && (price < 0.0 || product > price * price)
  }

  /** The trend test: the price is at most the 200-day average. */
  predicate TrendPasses(price: real, average: real)
  {
    price <= average
  }

  /** A test's weight when it passes, zero otherwise. */
  function Points(pass: bool, weight: int): int
  {
    if pass then weight else 0
  }

  /** The helper's score for any last close. Dividing a positive
      dividend by a zero target raises an error, which the helper's
      catch-all handler turns into 0. */
  function ThresholdScore(price: real, average: real, f: Fundamentals, targetYield: real): (pts: int)
    ensures pts % 20 == 0 && 0 <= pts <= 100
    ensures f.dividend > 0.0 && targetYield == 0.0 ==> pts == 0
    ensures !(f.dividend > 0.0 && targetYield == 0.0) ==>
      var bazin, graham, trend :=
        BazinPasses(f.dividend, targetYield, price), GrahamPasses(f.eps, f.bookValue, price), TrendPasses(price, average);
      && (pts % 40 == 20 <==> trend)
      && (pts >= 80 <==> bazin && graham)
      && (pts < 40 <==> !bazin && !graham)
      && (pts == 0 <==> !bazin && !graham && !trend)
  {
    if f.dividend > 0.0 && targetYield == 0.0 then 0
    else
      Points(BazinPasses(f.dividend, targetYield, price), 40)
      + Points(GrahamPasses(f.eps, f.bookValue, price), 40)
      + Points(TrendPasses(price, average), 20)
  }

  /** The helper: no history gives 0; otherwise the last close is the price,
      the fundamentals are defaulted as in the primary path, and the points
      are accumulated test by test. */
  method StatisticalScore(closes: seq<real>, average: real, info: Info, targetYield: real) returns (pts: int)
    ensures pts % 20 == 0 && 0 <= pts <= 100
    ensures |closes| == 0 ==> pts == 0
    ensures |closes| > 0 ==> pts == ThresholdScore(closes[|closes| - 1], average, ReadFundamentals(info), targetYield)
  {
    if |closes| == 0 {
      return 0;
    }
    var price := closes[|closes| - 1];
    var f := ReadFundamentals(info);
    if f.dividend > 0.0 && targetYield == 0.0 {
      return 0;
    }
    pts := 0;
    // Bazin (40 points)
    if (if f.dividend > 0.0 then f.dividend / targetYield else 0.0) > price {
      pts := pts + 40;
    }
    // Graham (40 points): the root of the product against the price
    var product := GrahamProduct(f.eps, f.bookValue);
    if product >= 0.0 && (price < 0.0 || product > price * price) {
      pts := pts + 40;
    }
    // 200-day average (20 points)
    if price <= average {
      pts := pts + 20;
    }
  }

  /** GrahamPasses is the source's comparison of the square root with the
      price, and a negative product never passes. */
  lemma GrahamPassesMeaning(eps: real, bookValue: real, price: real, r: real)
    ensures IsSqrt(GrahamProduct(eps, bookValue), r) ==> (GrahamPasses(eps, bookValue, price) <==> r > price)
    ensures GrahamProduct(eps, bookValue) < 0.0 ==> !GrahamPasses(eps, bookValue, price)
  {
    if IsSqrt(GrahamProduct(eps, bookValue), r) && price >= 0.0 {
      SqrtCompare(GrahamProduct(eps, bookValue), r, price);
    }
  }

  /** Where the helper's Graham test agrees with the primary path's guard,
      the threshold score never exceeds the partial-credit score: every
      test that passes earns its full weight there too. */
  lemma PartialCreditDominates(price: real, average: real, f: Fundamentals, targetYield: real, g: real)
    requires price > 0.0 && average > 0.0 && targetYield > 0.0
    requires IsGrahamFairValue(f.eps, f.bookValue, g)
    requires (f.eps > 0.0 && f.bookValue > 0.0) || !GrahamPasses(f.eps, f.bookValue, price)
    ensures ThresholdScore(price, average, f, targetYield)
            <= PartialCreditScore(price, average, g, BazinCeiling(f.dividend, targetYield))
  {
    if GrahamPasses(f.eps, f.bookValue, price) {
      GrahamCompare(f.eps, f.bookValue, g, price);
    }
  }

  /** Without the guard the helper awards the Graham points to negative
      earnings with negative book value: at a price of 10, earnings of -2
      and book value of -8 the helper scores 40 while the primary score,
      whose fair value is then 0, scores nothing. */
  lemma MissingGuardDivergence()
    ensures IsGrahamFairValue(-2.0, -8.0, 0.0)
    ensures ThresholdScore(10.0, 5.0, Fundamentals(0.0, -2.0, -8.0), 0.12) == 40
    ensures PartialCreditScore(10.0, 5.0, 0.0, BazinCeiling(0.0, 0.12)) == 0
  {
  }
}
