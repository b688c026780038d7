/** The HackInvest score (0 to 100) with partial credit, the verdict band it
    falls in, and the two strategy badges.

    The score has three parts: Graham and Bazin, each worth at most 40 with
    partial credit below the price, and the position of the price against
    its 200-day average, worth 20, 10 or 0. */
module Score {
  import opened Numerics
  import opened MarketData
  import opened Valuation

  /** The rule shared by the Graham and the Bazin part: full credit when the
      figure exceeds the price, partial credit of twenty times the ratio of
      figure to price, truncated, when the figure is positive, and nothing
      otherwise. */
  function Component(value: real, price: real): (points: int)
    requires price > 0.0
    ensures 0 <= points <= 40
    ensures points == 40 <==> value > price
    ensures value <= 0.0 ==> points == 0
    ensures 0.0 < value <= price ==>
              points <= 20 && points as real <= value / price * 20.0 < points as real + 1.0
  {
    if value > price then 40
    else if value > 0.0 then Trunc(Max(0.0, value / price * 20.0))
    else 0
  }

  /** The Graham part computed from the square of the fair value, so that
      no square root is needed. */
  function GrahamPoints(eps: real, bookValue: real, price: real): (points: int)
    requires price > 0.0
    ensures 0 <= points <= 40
    ensures points == 40 <==> eps > 0.0 && bookValue > 0.0 && GrahamProduct(eps, bookValue) > price * price
    ensures !(eps > 0.0 && bookValue > 0.0) ==> points == 0
  {
    var s := GrahamSquare(eps, bookValue);
    if s > price * price then 40
    else if s > 0.0 then FloorRoot(400.0 * s, price * price, 20)
    else 0
  }

  /** GrahamPoints awards exactly what Component awards the Graham fair
      value itself. */
  lemma GrahamPointsAgree(eps: real, bookValue: real, price: real, g: real)
    requires price > 0.0
    requires IsGrahamFairValue(eps, bookValue, g)
    ensures GrahamPoints(eps, bookValue, price) == Component(g, price)
  {
    var s := GrahamSquare(eps, bookValue);
    GrahamFairValueProperties(eps, bookValue, g, g);
    GrahamCompare(eps, bookValue, g, price);
    if 0.0 < s <= price * price {
      var t := g / price * 20.0;
      var m := FloorRoot(400.0 * s, price * price, 20);
      RatioAtMostOne(g, price);
      FloorCriterion(m, g, price);
      if m < 20 {
        FloorCriterion(m + 1, g, price);
      }
      assert m as real <= t < m as real + 1.0;
    }
  }

  /** `k <= g / price * 20` exactly when `(k * price)^2 <= 400 * g^2`: the
      step from the fair value to its square in the partial credit. */
  lemma FloorCriterion(k: nat, g: real, price: real)
    requires g >= 0.0 && price > 0.0
    ensures (k as real <= g / price * 20.0) <==> Sq(k) * (price * price) <= 400.0 * (g * g)
  {
    var a := k as real / 20.0;
    assert k as real <= g / price * 20.0 <==> a <= g / price;
    RatioBelow(g, price, a);
    assert a * price >= 0.0;
    if a * price <= g {
      SquareLeq(a * price, g);
    } else {
      SquareLess(g, a * price);
    }
    assert (a * price) * (a * price) == Sq(k) * (price * price) / 400.0;
  }

  /** The 200-day trend part: 20 when `price / average <= 1.0`, 10 when it
      is at most 1.10, otherwise 0. */
  function TrendPoints(price: real, average: real): (points: int)
    requires price > 0.0 && average > 0.0
    ensures points == 20 <==> price <= average
    ensures points == 10 <==> average < price <= 1.1 * average
    ensures points == 0 <==> price > 1.1 * average
  {
    var distance := price / average;
    RatioAtMost(price, average, 1.0);
    RatioAtMost(price, average, 1.10);
    if distance <= 1.0 then 20
    else if distance <= 1.10 then 10
    else 0
  }

  /** The partial-credit score for given valuation figures: the sum of the
      three parts, capped at 100. The cap never changes the sum. */
  function PartialCreditScore(price: real, average: real, graham: real, ceiling: real): (score: int)
    requires price > 0.0 && average > 0.0
    ensures 0 <= score <= 100
    ensures score == Component(graham, price) + Component(ceiling, price) + TrendPoints(price, average)
  {
    Min(100, Component(graham, price) + Component(ceiling, price) + TrendPoints(price, average))
  }

  /** What the score block produces: nothing when the provider returned no
      price history (the dashboard then asks the user to check the ticker),
      otherwise the score. */
  datatype ScoreResult = NoData | Scored(score: int)

  /** The score block of the dashboard: takes the last close as the price,
      defaults the fundamentals, computes the Bazin ceiling, then
      accumulates the Graham, Bazin and trend points and caps the total at
      100. The Graham fair value is used through its square; the result is
      the partial-credit score of the true fair value. */
  method HackInvestScore(closes: seq<real>, average: real, targetYield: real, info: Info) returns (result: ScoreResult)
    requires |closes| > 0 ==> closes[|closes| - 1] > 0.0
    requires average > 0.0 && targetYield > 0.0
    ensures result == NoData <==> |closes| == 0
    ensures result.Scored? ==> 0 <= result.score <= 100
    ensures result.Scored? ==>
      var price, f := closes[|closes| - 1], ReadFundamentals(info);
      forall g :: IsGrahamFairValue(f.eps, f.bookValue, g) ==>
        result.score == PartialCreditScore(price, average, g, BazinCeiling(f.dividend, targetYield))
  {
    if |closes| == 0 {
      return NoData;
    }
    var price := closes[|closes| - 1];
    var f := ReadFundamentals(info);
    var ceiling := BazinCeiling(f.dividend, targetYield);
    var grahamSquare := GrahamSquare(f.eps, f.bookValue);

    var score := 0;
    // Graham points (at most 40)
    if grahamSquare > price * price {
      score := score + 40;
    } else if grahamSquare > 0.0 {
      score := score + FloorRoot(400.0 * grahamSquare, price * price, 20);
    }
    ghost var grahamPart := score;
    // Bazin points (at most 40)
    if ceiling > price {
      score := score + 40;
    } else if ceiling > 0.0 {
      score := score + Trunc(Max(0.0, ceiling / price * 20.0));
    }
    ghost var bazinPart := score - grahamPart;
    // 200-day average points (at most 20)
    var distance := price / average;
    if distance <= 1.0 {
      score := score + 20;
    } else if distance <= 1.10 {
      score := score + 10;
    }
    score := Min(100, score);
    result := Scored(score);

    assert grahamPart == GrahamPoints(f.eps, f.bookValue, price);
    assert bazinPart == Component(ceiling, price);
    forall g | IsGrahamFairValue(f.eps, f.bookValue, g)
      ensures score == PartialCreditScore(price, average, g, ceiling)
    {
      GrahamPointsAgree(f.eps, f.bookValue, price, g);
    }
  }

  /** The verdict shown with the score. */
  datatype Verdict = Excellent | Neutral | Avoid

  /** Verdict banding: 80 and above is excellent, 50 to 79 neutral, below 50
      avoid. */
  function VerdictOf(score: int): (v: Verdict)
    ensures v == Excellent <==> score >= 80
    ensures v == Neutral <==> 50 <= score < 80
    ensures v == Avoid <==> score < 50
  {
    if score >= 80 then Excellent
    else if score >= 50 then Neutral
    else Avoid
  }

  /** The position of a verdict from worst to best. */
  function Rank(v: Verdict): nat
  {
    match v
    case Avoid => 0
    case Neutral => 1
    case Excellent => 2
  }

  /** A higher score never gets a worse verdict. */
  lemma VerdictMonotone(s1: int, s2: int)
    requires s1 <= s2
    ensures Rank(VerdictOf(s1)) <= Rank(VerdictOf(s2))
  {
  }

  /** The Bazin badge: "within the ceiling price". */
  predicate WithinCeiling(price: real, ceiling: real)
  {
    price <= ceiling
  }

  /** The Graham badge: "with a margin of safety". */
  predicate HasMarginOfSafety(price: real, graham: real)
  {
    price <= graham
  }

  /** A badge is green exactly when its part earns at least 20 points, and
      when the figure equals the price the part earns 20, not 40. */
  lemma BadgeMatchesComponent(price: real, value: real)
    requires price > 0.0
    ensures WithinCeiling(price, value) <==> Component(value, price) >= 20
    ensures HasMarginOfSafety(price, value) <==> Component(value, price) >= 20
    ensures value == price ==> Component(value, price) == 20
  {
    if 0.0 < value <= price {
      var u := value / price;
      RatioAtMost(value, price, 1.0);
      RatioBelow(value, price, 1.0);
      assert 0.0 < u <= 1.0;
      assert value < price <==> u < 1.0;
      assert Component(value, price) == Trunc(Max(0.0, u * 20.0));
    }
  }

  /** The Graham badge decided from the square of the fair value. */
  lemma MarginOfSafetyFromSquare(eps: real, bookValue: real, price: real, g: real)
    requires price > 0.0
    requires IsGrahamFairValue(eps, bookValue, g)
    ensures HasMarginOfSafety(price, g) <==> GrahamSquare(eps, bookValue) >= price * price
  {
    GrahamCompare(eps, bookValue, g, price);
  }

  /** A price of 10 with earnings of 2 and book value of 8 per share: the
      fair value is the square root of 360, above the price, so the Graham
      part is 40. */
  lemma GrahamExample(g: real)
    requires IsGrahamFairValue(2.0, 8.0, g)
    ensures Component(g, 10.0) == 40
  {
    GrahamCompare(2.0, 8.0, g, 10.0);
  }

  /** A dividend of 1.20 at a 12% target gives a ceiling of 10; at a price of
      10 the Bazin part is 20, because the comparison is strict, while the
      badge reads "within the ceiling". */
  lemma BazinBoundaryExample()
    ensures BazinCeiling(1.2, 0.12) == 10.0
    ensures Component(BazinCeiling(1.2, 0.12), 10.0) == 20
    ensures WithinCeiling(10.0, BazinCeiling(1.2, 0.12))
  {
    BadgeMatchesComponent(10.0, 10.0);
  }

  /** A price of 109 against an average of 100 is within 10% above it. */
  lemma TrendExample()
    ensures TrendPoints(109.0, 100.0) == 10
  {
  }
}
