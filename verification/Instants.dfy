/**
  Instants, wall clocks and time zones.

  An instant is the number of nanoseconds since 0001-01-01T00:00:00Z, Go's zero
  time, so `IsZero` is `t == 0` and the first day is a Monday. A zone is the
  offset it has at each instant; nothing else about the tz database is assumed.
 */
module Instants {
  datatype Option<+T> = None | Some(value: T)

  const SECOND: int := 1_000_000_000
  const MINUTE: int := 60_000_000_000
  const HOUR: int := 3_600_000_000_000
  const DAY: int := 86_400_000_000_000
  const WEEK: int := 604_800_000_000_000

  datatype Zone = Zone(offset: int -> int) {
    /** The wall clock reading at instant `t`. */
    function Wall(t: int): int { t + offset(t) }

    /** Go's time.Date: guess with the offset in force at the reading taken as UTC,
        then use the offset in force at the guess. */
    function FromWall(w: int): int { w - offset(w - offset(w)) }

    /** No two offsets of the zone ever differ by `limit` or more. */
    ghost predicate SpreadBelow(limit: int) {
      forall t, u :: offset(t) - offset(u) < limit
    }

    /** One offset, of less than a day, is in force throughout [lo, hi]. */
    ghost predicate SteadyAt(o: int, lo: int, hi: int) {
      -DAY < o < DAY && forall t :: lo <= t <= hi ==> offset(t) == o
    }
  }

  /** Go's integer division, which truncates toward zero. */
  function TruncDiv(a: int, b: int): (q: int)
    requires b > 0
    ensures a >= 0 ==> q * b <= a < (q + 1) * b
    ensures a < 0 ==> (q - 1) * b < a <= q * b
  {
    if a >= 0 then a / b else -((-a) / b)
  }
}
