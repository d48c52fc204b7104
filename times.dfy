/** Go's time.Time and time.Duration as integers.
    A Time is a count of nanoseconds since Go's zero time (January 1, year 1, UTC),
    so the zero value of time.Time is 0. A Duration is a count of nanoseconds. */
module Times {

  type Time = int
  type Duration = int

  /** The zero value of time.Time, which a Go struct field holds until it is set. */
  const ZeroTime: Time := 0

  const Millisecond: Duration := 1_000_000
  const Second: Duration := 1_000_000_000
  const Hour: Duration := 3_600_000_000_000
  /** time.Hour*24*4, the age past which a response is reported out of date. */
  const FourDays: Duration := Hour * 24 * 4

  /** time.Duration is an int64: Sub clamps its result to this range. */
  const MinDuration: Duration := -0x8000_0000_0000_0000
  const MaxDuration: Duration := 0x7FFF_FFFF_FFFF_FFFF

  /** t.After(u): t is strictly later than u. */
  predicate After(t: Time, u: Time) {
    t > u
  }

  /** t.Sub(u): the elapsed time t - u, saturated to the range of a Duration. */
  function Sub(t: Time, u: Time): (d: Duration)
    ensures MinDuration <= d <= MaxDuration
    ensures MinDuration <= t - u <= MaxDuration ==> d == t - u
    ensures t - u > MaxDuration ==> d == MaxDuration
    ensures t - u < MinDuration ==> d == MinDuration
  {
    if t - u > MaxDuration then MaxDuration
    else if t - u < MinDuration then MinDuration
    else t - u
  }

  /** Saturation never changes whether an elapsed time exceeds a representable bound,
      so `begin.Sub(x) > limit` is decided by the exact difference. */
  lemma SubExceeds(t: Time, u: Time, limit: Duration)
    requires MinDuration <= limit < MaxDuration
    ensures Sub(t, u) > limit <==> t - u > limit
  {
  }

  /** Go's integer division, which truncates toward zero (Dafny's `/` is Euclidean). */
  function TruncDiv(a: int, b: int): (q: int)
    requires b > 0
    ensures a >= 0 ==> q * b <= a < q * b + b
    ensures a < 0 ==> q * b - b < a <= q * b
  {
    if a >= 0 then a / b else -((-a) / b)
  }

  /** Truncating division by a positive divisor keeps the order of its dividends. */
  lemma {:induction false} TruncDivMonotone(a: int, c: int, b: int)
    requires b > 0 && a <= c
    ensures TruncDiv(a, b) <= TruncDiv(c, b)
  {
    var p, q := TruncDiv(a, b), TruncDiv(c, b);
    if a >= 0 {
      BelowNextMultiple(p, a, c, q, b);
    } else if c < 0 {
      assert (p - 1) * b == p * b - b;
      MulCancel(p - 1, q, b);
    } else {
      assert p <= 0 <= q;
    }
  }

  /** If x * b <= a <= c < y * b + b then x <= y. */
  lemma BelowNextMultiple(x: int, a: int, c: int, y: int, b: int)
    requires b > 0 && x * b <= a <= c < y * b + b
    ensures x <= y
  {
    assert (y + 1) * b == y * b + b;
    MulCancel(x, y + 1, b);
  }

  /** Cancelling a positive factor on both sides of a strict inequality. */
  lemma MulCancel(x: int, y: int, b: int)
    requires b > 0 && x * b < y * b
    ensures x < y
  {
    assert (y - x) * b == y * b - x * b;
  }

  /** If n * lo <= a <= n * hi, the truncated quotient a / n lies within [lo, hi]. */
  lemma TruncDivBetween(a: int, n: int, lo: int, hi: int)
    requires n > 0 && n * lo <= a <= n * hi
    ensures lo <= TruncDiv(a, n) <= hi
  {
    var q := TruncDiv(a, n);
    assert (q + 1) * n == q * n + n;
    assert (q - 1) * n == q * n - n;
    assert lo * n == n * lo && hi * n == n * hi;
    MulCancel(lo, q + 1, n);
    MulCancel(q - 1, hi, n);
  }

  /** The whole milliseconds of a Duration, as Go computes `d / time.Millisecond`. */
  function Millis(d: Duration): (ms: int)
    ensures d >= 0 ==> ms >= 0 && ms * Millisecond <= d < ms * Millisecond + Millisecond
  {
    TruncDiv(d, Millisecond)
  }
}
