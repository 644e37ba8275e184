/**
 * Ruby's `Float#round(1)` on the quotients the review-timing engine computes,
 * in integer tenths: the nearest integer to `n / d`, with a tie rounded away
 * from zero.
 */
module Rounding {

  /**
   * `r` is the integer nearest to `n / d`; on a tie (the error is exactly half
   * of `d`) the value away from zero is taken.
   */
  ghost predicate IsNearest(r: int, n: int, d: int)
    requires d > 0
  {
    && -d <= 2 * (r * d - n) <= d
    && (2 * (r * d - n) == d ==> n >= 0)
    && (2 * (r * d - n) == -d ==> n < 0)
  }

  /** Division rounded half away from zero. */
  function RoundDiv(n: int, d: int): (r: int)
    requires d > 0
    ensures IsNearest(r, n, d)
    ensures n >= 0 ==> r >= 0
    ensures n <= 0 ==> r <= 0
  {
    if n >= 0 then
      var q := (2 * n + d) / (2 * d);
      assert 2 * n + d == q * (2 * d) + (2 * n + d) % (2 * d);
      q
    else
      var q := (2 * -n + d) / (2 * d);
      assert 2 * -n + d == q * (2 * d) + (2 * -n + d) % (2 * d);
      -q
  }

  /** The rounding rule determines the result: there is one nearest value. */
  lemma NearestUnique(a: int, b: int, n: int, d: int)
    requires d > 0
    requires IsNearest(a, n, d) && IsNearest(b, n, d)
    ensures a == b
  {
    if a != b {
      var (hi, lo) := if a > b then (a, b) else (b, a);
      var k := hi - lo;
      assert k * d == (hi * d - n) - (lo * d - n) by {
        assert hi * d == lo * d + k * d;
      }
      assert 2 * (k * d) <= 2 * d;
      ScaleBound(k, d);
    }
  }

  /** A positive multiple `k * d` that is at most `d` has `k == 1`. */
  lemma ScaleBound(k: int, d: int)
    requires d > 0 && k >= 1 && k * d <= d
    ensures k == 1
  {
  }

  /** A rounded ratio of a part to its whole, in per-mille (tenths of a percent), lies in [0, 1000]. */
  lemma PerMilleBounds(part: int, whole: int, r: int)
    requires 0 <= part <= whole && whole > 0
    requires IsNearest(r, part * 1000, whole)
    ensures 0 <= r <= 1000
  {
    assert 2 * (r * whole) <= whole + 2000 * part;
    assert 2000 * part <= 2000 * whole;
    if r >= 1001 {
      MulMonotone(1001, r, whole);
    }
    if r <= -1 {
      MulMonotone(r, -1, whole);
    }
  }

  lemma MulMonotone(a: int, b: int, d: int)
    requires a <= b && d > 0
    ensures a * d <= b * d
  {
    assert b * d - a * d == (b - a) * d;
  }
}
