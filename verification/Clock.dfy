/** Units of time. */
module Clock {
  /** time.Second, in nanoseconds. */
  const SECOND := 1_000_000_000
}
