/** Points in time and durations are nanoseconds. */
module Times {
  const SECOND := 1_000_000_000
  const HOUR := 3600 * SECOND

  function Earlier(a: int, b: int): int {
    if b < a then b else a
  }
}
