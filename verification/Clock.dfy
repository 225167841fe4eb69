/** Moments are microseconds and days are day numbers (1 is 0001-01-01); moment `d * DAY` starts day `d`. */
module Clock {
  const DAY := 86_400_000_000
  const DATE_MIN := 1
  const DATE_MAX := 3_652_059

  function DayOf(m: int): int {
    m / DAY
  }
}
