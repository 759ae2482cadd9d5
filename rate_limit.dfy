/**
 * The arithmetic of `rateLimitedPost`: before each upstream request the engine
 * sleeps until `Interval` milliseconds have passed since the previous request.
 */
module RateLimit {

  /** The minimum gap between the start times of two upstream requests, in milliseconds. */
  const Interval: int := 250

  function Max(a: int, b: int): int
  {
    if a < b then b else a
  }

  /**
   * The sleep before a request: the rest of the interval, never negative, when
   * the clock reads `now` and the previous request started at `last`.
   */
  function Wait(now: int, last: int): (w: int)
    ensures 0 <= w
    ensures last <= now ==> w <= Interval
    ensures w == 0 <==> now - last >= Interval
    ensures now + w == Max(now, last + Interval)
  {
    Max(0, Interval - (now - last))
  }
}
