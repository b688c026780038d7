# HackInvest valuation core in Dafny

HackInvest is a Streamlit dashboard for one Brazilian stock. It fetches the
price history and the fundamentals of the ticker, computes two valuation
figures, blends them with the 200-day moving average into a score from 0 to
100, and shows a verdict and two strategy badges. This project models the
arithmetic between the data fetch and the rendering:

- the defaulting of the fundamentals read from the provider's `info` mapping
  (`MarketData`);
- Bazin's ceiling price and Graham's fair value (`Valuation`);
- the partial-credit score, the verdict bands and the badges (`Score`);
- the threshold-only helper `calcular_score_estatistico` (`Threshold`);
- ticker normalisation (`Ticker`);
- exact stand-ins for `min`, `max`, `int()` and `np.sqrt` (`Numerics`).

Numbers are exact reals, not floats. Dafny's reals have no square root, so the
Graham fair value `g` is described by the predicate
`Valuation.IsGrahamFairValue`: `g` is 0 unless earnings and book value are
both positive, and otherwise `g >= 0` with `g * g == 22.5 * EPS * BVPS`. The
executable code works on the square of the fair value instead. A comparison
`g > price` becomes `g² > price²`. The partial credit `int(g / price * 20)`
becomes the largest `k <= 20` with `(k * price)² <= 400 * g²`
(`Numerics.FloorRoot`). The lemmas `Score.GrahamPointsAgree` and
`Valuation.GrahamCompare` prove that these forms give the same answers as the
source's formulas for every value that satisfies the predicate.

One boundary is easy to misread: the full 40 points need a figure strictly
above the price (the strict `>` at hackinvest.py:76 and :83), so a Bazin
ceiling equal to the price earns 20 points, not 40. The "within the ceiling" badge uses `<=`
and is shown in that case (`Score.BazinBoundaryExample`). The same holds for
the Graham part and its badge.

## Model

| member | source | states |
|---|---|---|
| `MarketData.Get` | hackinvest.py:65-67 | `info.get(key, default)` is the stored value when the key is present and the default otherwise |
| `MarketData.Or` | hackinvest.py:67 | Python `a or b` is the first operand when it is truthy and the second otherwise, so the result is truthy exactly when either operand is |
| `MarketData.ReadFundamentals` | hackinvest.py:65-67 | EPS and book value are the number stored under `trailingEps` / `bookValue`, or 0 when the key is missing or holds None; the dividend is `dividendRate` when that is a non-zero number, else `trailingAnnualDividendRate` or 0 |
| `MarketData.DividendFallback` | hackinvest.py:67 | the dividend is `dividendRate` if truthy, else `trailingAnnualDividendRate` if truthy, else 0 |
| `MarketData.EmptyInfoIsZero` | hackinvest.py:65-67 | an empty `info` mapping gives zero dividend, EPS and book value |
| `Valuation.BazinCeiling` | hackinvest.py:70 | the ceiling is non-negative, positive exactly when the dividend is, and then it is the price at which the dividend yields exactly the target (`ceiling * yield == dividend`) |
| `Valuation.IsGrahamFairValue` | hackinvest.py:71 | the fair value is the non-negative square root of `22.5 * EPS * BVPS` when both are positive, and 0 otherwise |
| `Valuation.GrahamSquare` | hackinvest.py:71 | the square of the fair value is non-negative and positive exactly when EPS and book value are both positive |
| `Valuation.GrahamFairValueProperties` | hackinvest.py:71 | every Graham fair value is non-negative, squares to `GrahamSquare`, is positive exactly when EPS and BVPS both are, and is unique |
| `Valuation.GrahamCompare` | hackinvest.py:76 | comparing the fair value with a positive price is the same as comparing `GrahamSquare` with the price squared, both strictly and non-strictly |
| `Numerics.Trunc` | hackinvest.py:80 | `int()` of a non-negative float is its floor: a non-negative integer `n` with `n <= x < n + 1` |
| `Numerics.SqrtCompare` | hackinvest.py:27 | for a non-negative bound `p`, a square root of `x` exceeds `p` exactly when `x > p * p` |
| `Numerics.FloorRoot` | hackinvest.py:79-80 | the result is the largest `m <= k` with `m² * den <= num`: it satisfies the bound and every larger candidate up to `k` fails it |
| `Score.Component` | hackinvest.py:76-87 | the Graham/Bazin part is in [0, 40], is 40 exactly when the figure exceeds the price, is 0 for a non-positive figure, and otherwise is the floor of `20 * figure / price`, at most 20 |
| `Score.GrahamPoints` | hackinvest.py:71-80 | the Graham part computed from the square is in [0, 40], is 40 exactly when EPS and BVPS are positive and `22.5 * EPS * BVPS > price²`, and is 0 when either is non-positive |
| `Score.GrahamPointsAgree` | hackinvest.py:76-80 | the square-based Graham part equals the source's rule applied to the actual fair value |
| `Score.FloorCriterion` | hackinvest.py:79-80 | `k <= g / price * 20` exactly when `(k * price)² <= 400 * g²`, for `g >= 0` |
| `Score.TrendPoints` | hackinvest.py:90-94 | 20 exactly when price <= average, 10 exactly when the price is above the average by at most 10%, 0 exactly when it is more than 10% above |
| `Score.PartialCreditScore` | hackinvest.py:74-96 | the score is in [0, 100] and the `min(100, ·)` cap never changes the sum of the three parts |
| `Score.HackInvestScore` | hackinvest.py:57-96 | no history gives no score; otherwise the accumulated score is in [0, 100] and equals the partial-credit score of the last close, the Bazin ceiling and every Graham fair value of the defaulted fundamentals |
| `Score.VerdictOf` | hackinvest.py:103-105 | "EXCELENTE" exactly for scores >= 80, "NEUTRA" exactly for 50 to 79, "EVITAR" exactly below 50 |
| `Score.VerdictMonotone` | hackinvest.py:103-105 | a higher score never gets a worse verdict |
| `Score.WithinCeiling` | hackinvest.py:124 | the Bazin badge is green when the price is at most the ceiling |
| `Score.HasMarginOfSafety` | hackinvest.py:132 | the Graham badge is green when the price is at most the fair value |
| `Score.BadgeMatchesComponent` | hackinvest.py:124-132 | each badge is green exactly when its part earns at least 20 points, and a figure equal to the price earns 20, not 40 |
| `Score.MarginOfSafetyFromSquare` | hackinvest.py:132 | the Graham badge is green exactly when `GrahamSquare >= price²` |
| `Score.GrahamExample` | hackinvest.py:71-77 | price 10, EPS 2, BVPS 8: the fair value is the square root of 360 and the Graham part is 40 |
| `Score.BazinBoundaryExample` | hackinvest.py:83-87 | dividend 1.20 at a 12% target gives a ceiling of 10; at price 10 the Bazin part is 20 while the badge is green |
| `Score.TrendExample` | hackinvest.py:90-94 | price 109 against an average of 100 earns 10 |
| `Threshold.BazinPasses` | hackinvest.py:25 | the helper's Bazin test: the ceiling, 0 without a positive dividend, is above the price |
| `Threshold.GrahamPasses` | hackinvest.py:27 | the helper's Graham test, `sqrt(22.5 * EPS * BVPS) > price` for any price, with a negative product (a NaN root) never passing |
| `Threshold.TrendPasses` | hackinvest.py:29 | the helper's trend test: the price is at most the 200-day average |
| `Threshold.ThresholdScore` | hackinvest.py:23-31 | the helper's score is a multiple of 20 in [0, 100]; a zero target with a positive dividend gives 0; otherwise the trend test decides the 20, 80 or more means both Bazin and Graham passed, under 40 means neither did, and 0 means no test passed |
| `Threshold.StatisticalScore` | hackinvest.py:11-31 | no history gives 0; otherwise, for any last close, the accumulated points equal ThresholdScore of the last close and the defaulted fundamentals |
| `Threshold.GrahamPassesMeaning` | hackinvest.py:27 | for every price, the helper's Graham test holds exactly when a square root of `22.5 * EPS * BVPS` exceeds the price, and a negative product (a NaN root) never passes |
| `Threshold.PartialCreditDominates` | hackinvest.py:23-29 | where the helper's Graham test respects the positivity guard, the threshold score never exceeds the partial-credit score |
| `Threshold.MissingGuardDivergence` | hackinvest.py:27 | EPS -2 and BVPS -8 at price 10 earn the helper 40 points while the primary score gives 0 |
| `Ticker.Upper` | hackinvest.py:36 | upper-casing keeps the length, maps every character, and leaves no lower-case ASCII letter |
| `Ticker.WithSuffix` | hackinvest.py:51 | the symbol always ends with ".SA", is the input or the input plus ".SA", and is unchanged when the input already ends with ".SA" |
| `Ticker.Normalize` | hackinvest.py:36-51 | the queried symbol is the upper-cased input when that already ends with ".SA", and the upper-cased input followed by ".SA" otherwise |
| `Ticker.NormalizeIdempotent` | hackinvest.py:51 | normalising twice equals normalising once |
| `Ticker.HelperSymbol` | hackinvest.py:13 | the helper's symbol starts with the given ticker, ends with ".SA" and is exactly three characters longer: ".SA" is appended unconditionally |
| `Ticker.HelperSymbolNotIdempotent` | hackinvest.py:13 | the helper's symbol is never a fixed point, differs from the normalised one when the input already ends with ".SA", and turns "BBAS3.SA" into "BBAS3.SA.SA" |

## Left out

- The Streamlit page is not modelled: page setup, sidebar widgets, columns, metrics, message boxes and the line chart. It is presentation only. The verdict and the badges are kept as functions.
- The provider calls (`yf.Ticker`, `history`, `info`) are not modelled, because they are network I/O. The closing prices, the 200-day average and the `info` mapping are inputs.
- The pandas rolling 200-day mean is not modelled, nor its NaN result for fewer than 200 rows. The average is an input with `average > 0`. For the same reason a zero average, which would raise `ZeroDivisionError` at line 90, is excluded.
- The `.round(2)` of the chart data is not modelled (presentation).
- The one-hour `st.cache_data` memoisation of the helper is not modelled. It is framework caching with no code of its own.
- Floating point is not modelled: exact reals replace floats, so rounding does not occur, and 1.10 is exactly eleven tenths.
- NaN is not modelled, except in one place. `np.sqrt` of a negative product in the helper gives NaN, and NaN compared with the price is false; `Threshold.GrahamPasses` models that comparison exactly, for every price.
- A NaN or non-numeric value in `info` is not modelled. Python treats NaN as truthy, so the defaulting would pass it through. Fields are either None or a real.
- The primary score assumes a positive last close (`price > 0` in the requires of `Score.HackInvestScore` and the functions it uses), because closing prices are positive. The source itself does not fail on other prices: it divides by the price only at lines 79 and 86, which run only when 0 < figure <= price. At a price of 0, lines 76 and 83 give 40 to any positive figure and line 90 gives 20, since 0 / average <= 1.0. At a negative price both figures, which are never negative, exceed it, so the score is always 100. These cases are not modelled. The helper is modelled for every price, since it never divides by the price.
- The catch-all handler of the primary path (line 144) is not modelled. It only reports I/O and library failures. The helper's handler is modelled for the one failure its arithmetic can raise: a positive dividend divided by a zero target gives 0.
- The f-string formatting of prices and percentages is not modelled (presentation).
- The chart period selector is not modelled (presentation).
- Ticker.Upper: only the ASCII letters `a` to `z` are upper-cased. Python's `str.upper` also maps other Unicode letters and can change a string's length.
- The fair value itself is not computed. No square-root function exists over Dafny's reals, so every statement about it is made for any value satisfying `Valuation.IsGrahamFairValue`, and its existence is taken from real analysis.
