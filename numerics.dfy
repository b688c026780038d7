/** Exact-arithmetic stand-ins for the handful of Python and NumPy numeric
    primitives the valuation code uses: `min`, `max`, `int()` on a
    non-negative float, and `np.sqrt`.

    Dafny's reals have no square-root operation, so a square root is
    described by the predicate IsSqrt and every use of one is rewritten as
    a comparison of squares (SqrtCompare) or as an integer square root
    (FloorRoot). */
module Numerics {

  /** Python's built-in `min` on two integers. */
  function Min(a: int, b: int): int
  {
    if a <= b then a else b
  }

  /** Python's built-in `max` on two reals. */
  function Max(a: real, b: real): real
  {
    if a >= b then a else b
  }

  /** Python's `int()` applied to a non-negative float: truncation toward
      zero, which on non-negative values is the floor. */
  function Trunc(x: real): (n: int)
    requires x >= 0.0
    ensures n >= 0
    ensures n as real <= x < n as real + 1.0
  {
    x.Floor
  }

  /** `r` is the non-negative square root of `x` (what `np.sqrt(x)` returns,
      with exact arithmetic, for `x >= 0`). */
  ghost predicate IsSqrt(x: real, r: real)
  {
    r >= 0.0 && r * r == x
  }

  /** The square of a natural number, as a real. */
  function Sq(j: nat): real
  {
    (j as real) * (j as real)
  }

  lemma MulPos(a: real, b: real)
    requires a > 0.0 && b > 0.0
    ensures a * b > 0.0
  {
  }

  lemma SquareLeq(a: real, b: real)
    requires 0.0 <= a <= b
    ensures a * a <= b * b
  {
    var lo, mid, hi := a * a, a * b, b * b;
    assert lo <= mid;
    assert mid <= hi;
  }

  lemma SquareLess(a: real, b: real)
    requires 0.0 <= a < b
    ensures a * a < b * b
  {
    var lo, mid, hi := a * a, a * b, b * b;
    assert lo <= mid;
    assert mid < hi;
  }

  /** Comparing a square root with a non-negative bound is comparing the
      radicand with the bound's square. */
  lemma SqrtCompare(x: real, r: real, p: real)
    requires IsSqrt(x, r)
    requires p >= 0.0
    ensures r > p <==> x > p * p
    ensures r >= p <==> x >= p * p
  {
    if r > p {
      SquareLess(p, r);
    } else {
      SquareLeq(r, p);
    }
    if r >= p {
      SquareLeq(p, r);
    } else {
      SquareLess(r, p);
    }
  }

  /** A radicand has at most one non-negative square root. */
  lemma SqrtUnique(x: real, r1: real, r2: real)
    requires IsSqrt(x, r1) && IsSqrt(x, r2)
    ensures r1 == r2
  {
    if r1 < r2 {
      SquareLess(r1, r2);
    } else if r2 < r1 {
      SquareLess(r2, r1);
    }
  }

  /** The largest natural number `m <= k` with `m * m * den <= num`: the
      integer square root of `num / den`, capped at `k`, computed without
      dividing. */
  function FloorRoot(num: real, den: real, k: nat): (m: nat)
    requires num >= 0.0
    ensures m <= k
    ensures Sq(m) * den <= num
    ensures forall j: nat :: m < j <= k ==> Sq(j) * den > num
  {
    if k == 0 || Sq(k) * den <= num then k else FloorRoot(num, den, k - 1)
  }

  /** Dividing by a positive number preserves a bound scaled by it. */
  lemma RatioAtMost(x: real, d: real, bound: real)
    requires d > 0.0
    ensures x / d <= bound <==> x <= bound * d
  {
    var u := x / d;
    assert u * d == x;
    if u <= bound {
      assert (bound - u) * d >= 0.0;
    } else {
      assert (u - bound) * d > 0.0;
    }
  }

  lemma RatioBelow(x: real, d: real, bound: real)
    requires d > 0.0
    ensures x / d < bound <==> x < bound * d
  {
    var u := x / d;
    assert u * d == x;
    if u < bound {
      assert (bound - u) * d > 0.0;
    } else {
      assert (u - bound) * d >= 0.0;
    }
  }

  lemma RatioAtMostOne(x: real, d: real)
    requires 0.0 <= x <= d && d > 0.0
    ensures 0.0 <= x / d <= 1.0
  {
    RatioAtMost(x, d, 1.0);
    RatioBelow(x, d, 0.0);
  }
}
