/** Times and durations in nanoseconds; times count from the Unix epoch. */
module Clock {
  type Time = int

  const SECOND := 1_000_000_000
  const HOUR := 3600 * SECOND
  const DAY := 24 * HOUR
}
