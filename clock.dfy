/** Time as integer milliseconds on the local clock, and the day arithmetic that the
    server and the admin panel share: the length of a day and `Math.ceil` of a quotient. */
module Clock {

  /** `1000 * 60 * 60 * 24`. */
  const DayMillis: int := 86_400_000

  /** `Math.ceil(x / d)` for integers, `d` positive: the least `r` with `x <= r * d`. */
  function CeilDiv(x: int, d: int): (r: int)
    requires d > 0
    ensures (r - 1) * d < x <= r * d
  {
    -((-x) / d)
  }
}
