/** The fundamentals snapshot read from the market-data provider's `info`
    mapping, with the script's defaulting rules: a missing field, a field
    holding `None` and a field holding zero all count as zero, and the
    annual dividend falls back from `dividendRate` to
    `trailingAnnualDividendRate`. */
module MarketData {

  /** A value of the `info` mapping: Python's `None`, or a number. */
  datatype PyValue = PyNone | PyNum(x: real)

  /** The provider's `info` mapping, keyed by field name. */
  type Info = map<string, PyValue>

  /** The fields of `info` that the valuation reads. */
  const DividendRateKey: string := "dividendRate"
  const TrailingDividendKey: string := "trailingAnnualDividendRate"
  const EpsKey: string := "trailingEps"
  const BookValueKey: string := "bookValue"

  /** `info.get(key, default)`. */
  function Get(info: Info, key: string, default: PyValue): (v: PyValue)
    ensures key in info ==> v == info[key]
    ensures key !in info ==> v == default
  {
    if key in info then info[key] else default
  }

  /** Python truthiness of a value: `None` and zero are false. */
  predicate Truthy(v: PyValue)
  {
    v.PyNum? && v.x != 0.0
  }

  /** Python's `a or b`: the first operand if it is truthy, else the second. */
  function Or(a: PyValue, b: PyValue): (r: PyValue)
    ensures Truthy(a) ==> r == a
    ensures !Truthy(a) ==> r == b
    ensures Truthy(r) <==> Truthy(a) || Truthy(b)
  {
    if Truthy(a) then a else b
  }

  /** The number stored under `key`, or zero when the key is absent or holds
      `None`: the "absent field counts as zero" rule stated directly. */
  function NumberOrZero(info: Info, key: string): real
  {
    if key in info && info[key].PyNum? then info[key].x else 0.0
  }

  /** The three fundamentals the valuation uses. */
  datatype Fundamentals = Fundamentals(dividend: real, eps: real, bookValue: real)

  /** The defaulting shared by the primary score and the threshold helper.
      EPS and book value are looked up with a default of 0 and then `or`-ed
      with 0; the dividend `or`-chains `dividendRate`,
      `trailingAnnualDividendRate` and 0. */
  function ReadFundamentals(info: Info): (f: Fundamentals)
    ensures f.eps == NumberOrZero(info, EpsKey)
    ensures f.bookValue == NumberOrZero(info, BookValueKey)
    ensures f.dividend == if NumberOrZero(info, DividendRateKey) != 0.0
                          then NumberOrZero(info, DividendRateKey)
                          else NumberOrZero(info, TrailingDividendKey)
  {
    var zero := PyNum(0.0);
    var eps := Or(Get(info, EpsKey, zero), zero);
    var bookValue := Or(Get(info, BookValueKey, zero), zero);
    var dividend := Or(Or(Get(info, DividendRateKey, PyNone), Get(info, TrailingDividendKey, PyNone)), zero);
    Fundamentals(dividend.x, eps.x, bookValue.x)
  }

  /** The dividend is `dividendRate` when that is present and non-zero,
      otherwise `trailingAnnualDividendRate` when that is present and
      non-zero, otherwise zero. */
  lemma DividendFallback(info: Info)
    ensures var d := ReadFundamentals(info).dividend;
      var primary, trailing := Get(info, DividendRateKey, PyNone), Get(info, TrailingDividendKey, PyNone);
      && (Truthy(primary) ==> d == primary.x)
      && ((!Truthy(primary) && Truthy(trailing)) ==> d == trailing.x)
      && ((!Truthy(primary) && !Truthy(trailing)) ==> d == 0.0)
  {
  }

  /** An empty `info` mapping yields all-zero fundamentals. */
  lemma EmptyInfoIsZero()
    ensures ReadFundamentals(map[]) == Fundamentals(0.0, 0.0, 0.0)
  {
  }
}
