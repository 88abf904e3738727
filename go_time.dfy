/**
 * The part of Go's `time` package the resolvers use. An instant is an integer
 * count of nanoseconds. A `Duration` is a 64-bit count of nanoseconds.
 * `Time.Sub` saturates to the smallest or largest Duration when the true
 * difference does not fit. Go's `/` on integers truncates toward zero; it is
 * written out here as `QuoSecond` (a Duration divided by `time.Second`, the
 * only division the resolvers perform) because Dafny's `/` is Euclidean.
 */
module GoTime {
  /** An absolute instant, in nanoseconds from an arbitrary fixed origin. */
  type Instant = int

  const Second: int := 1_000_000_000
  const MinDuration: int := -0x8000_0000_0000_0000
  const MaxDuration: int := 0x7FFF_FFFF_FFFF_FFFF

  predicate IsDuration(d: int) { MinDuration <= d <= MaxDuration }

  /** `t.Sub(u)`: the nanoseconds from `u` to `t`, saturated to the int64 range. */
  function Sub(t: Instant, u: Instant): (d: int)
    ensures IsDuration(d)
    ensures IsDuration(t - u) ==> d == t - u
    ensures t - u > MaxDuration ==> d == MaxDuration
    ensures t - u < MinDuration ==> d == MinDuration
  {
    if t - u > MaxDuration then MaxDuration
    else if t - u < MinDuration then MinDuration
    else t - u
  }

  /** `time.Since(t)`, with the current instant `now` passed in. */
  function Since(now: Instant, t: Instant): (d: int)
    ensures IsDuration(d)
  {
    Sub(now, t)
  }

  function Abs(x: int): nat { if x < 0 then -x else x }

  /**
   * Go's `d / time.Second` on Durations: the remainder `d - q * Second` is
   * less than a second in magnitude and, when non-zero, has the sign of `d`.
   */
  function QuoSecond(d: int): (q: int)
    ensures Abs(d - q * Second) < Second
    ensures d - q * Second == 0 || (d - q * Second > 0 <==> d > 0)
  {
    if d >= 0 then d / Second else -((-d) / Second)
  }

  /** The two conditions on `QuoSecond` admit one quotient only. */
  lemma QuoSecondUnique(d: int, q: int)
    requires Abs(d - q * Second) < Second
    requires d - q * Second == 0 || (d - q * Second > 0 <==> d > 0)
    ensures q == QuoSecond(d)
  {
  }

  /** Truncation toward zero commutes with negation. */
  lemma QuoSecondNegate(d: int)
    ensures QuoSecond(-d) == -QuoSecond(d)
  {
  }

  /** A longer Duration never gives fewer whole seconds. */
  lemma QuoSecondMonotone(x: int, y: int)
    requires x <= y
    ensures QuoSecond(x) <= QuoSecond(y)
  {
  }
}
