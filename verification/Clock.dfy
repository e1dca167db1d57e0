/** Monotonic clock readings, in nanoseconds, and the durations between them. */
module Clock {
  const SECOND := 1_000_000_000
  const MILLISECOND := 1_000_000
  const MICROSECOND := 1_000

  /** A duration that does not go below zero when readings arrive out of order. */
  function Elapsed(now: int, since: int): nat { if now < since then 0 else now - since }
}
