/** JavaScript number operations used by the slider, restricted to integers.
    Dafny's `%` and `/` are Euclidean; JavaScript's `%` truncates toward zero
    and `Math.round` rounds halves toward positive infinity. */
module JsNumber {

  /** A positive multiple of `n` is at least `n`. */
  lemma MulAtLeast(d: int, n: int)
    requires d >= 1 && n > 0
    ensures d * n >= n
  {
  }

  /** Quotient and remainder are determined by `a == q * n + r` with `0 <= r < n`. */
  lemma {:induction false} EuclidUnique(a: int, n: int, q: int, r: int)
    requires n > 0 && 0 <= r < n && a == q * n + r
    ensures a % n == r && a / n == q
  {
    var q', r' := a / n, a % n;
    assert a == q' * n + r' && 0 <= r' < n;
    if q' > q {
      assert (q' - q) * n == q' * n - q * n;
      MulAtLeast(q' - q, n);
    } else if q' < q {
      assert (q - q') * n == q * n - q' * n;
      MulAtLeast(q - q', n);
    }
  }

  /** `a % n` in JavaScript for a positive integer divisor: the remainder of
      the division truncated toward zero, which takes the sign of `a`. */
  function Rem(a: int, n: int): (r: int)
    requires n > 0
    ensures -n < r < n
    ensures a >= 0 ==> r >= 0
    ensures a <= 0 ==> r <= 0
    ensures (a - r) % n == 0
  {
    if a >= 0 then
      EuclidUnique(a - a % n, n, a / n, 0);
      a % n
    else
      EuclidUnique(a + (-a) % n, n, -((-a) / n), 0);
      -((-a) % n)
  }

  /** On a non-negative dividend the JavaScript remainder is Dafny's; on a
      negative one, adding `n` to it gives Dafny's. */
  lemma RemAgreesWithMod(a: int, n: int)
    requires n > 0
    ensures Rem(a, n) >= 0 ==> Rem(a, n) == a % n
    ensures Rem(a, n) < 0 ==> n + Rem(a, n) == a % n
  {
    var r := Rem(a, n);
    var k := (a - r) / n;
    EuclidUnique(a - r, n, k, 0);
    if r >= 0 {
      EuclidUnique(a, n, k, r);
    } else {
      EuclidUnique(a, n, k - 1, n + r);
    }
  }

  /** `Math.round(num / den)` for an integer numerator and a positive integer
      denominator, with the division taken exactly: the integer nearest to
      `num / den`, a half rounded up. */
  function RoundDiv(num: int, den: int): (r: int)
    requires den > 0
    ensures 2 * den * r - den <= 2 * num < 2 * den * r + den
    ensures r == 0 <==> -den <= 2 * num < den
    ensures r > 0 <==> 2 * num >= den
    ensures r < 0 <==> 2 * num < -den
  {
    var q := (2 * num + den) / (2 * den);
    QuotientBounds(2 * num + den, 2 * den);
    q
  }

  /** `a / m` times `m` lies within `m` below `a`, and the quotient's sign
      follows from where `a` lies. */
  lemma QuotientBounds(a: int, m: int)
    requires m > 0
    ensures m * (a / m) <= a < m * (a / m) + m
    ensures a / m > 0 <==> a >= m
    ensures a / m < 0 <==> a < 0
  {
  }

  /** The bounds in RoundDiv's contract leave exactly one integer: it is the
      rounding of `num / den`. */
  lemma {:induction false} RoundDivUnique(num: int, den: int, k: int)
    requires den > 0
    requires 2 * den * k - den <= 2 * num < 2 * den * k + den
    ensures RoundDiv(num, den) == k
  {
    var r := RoundDiv(num, den);
    if r > k {
      assert 2 * den * r - 2 * den * k == (r - k) * (2 * den);
      MulAtLeast(r - k, 2 * den);
    } else if r < k {
      assert 2 * den * k - 2 * den * r == (k - r) * (2 * den);
      MulAtLeast(k - r, 2 * den);
    }
  }
}
