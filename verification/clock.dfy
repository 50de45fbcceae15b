/**
 * Timestamps are `system_clock` tick counts (nanoseconds since the epoch). Ages
 * are `duration_cast<hours>(now - t)`, which truncates toward zero; every query
 * takes the current time as the parameter `now`.
 */
module Clock {

  const TicksPerHour: int := 3_600_000_000_000

  /** C++ integer division: the quotient truncated toward zero. */
  function TruncDiv(a: int, b: int): int
    requires b > 0
  {
    if a >= 0 then a / b else -((-a) / b)
  }

  /** Whole hours from `t` to `now`, truncated toward zero (a future `t` within an hour is 0 hours old). */
  function HoursSince(now: int, t: int): (h: int)
    ensures now >= t ==> h >= 0 && h * TicksPerHour <= now - t < (h + 1) * TicksPerHour
    ensures now < t ==> h <= 0 && (h - 1) * TicksPerHour < now - t <= h * TicksPerHour
  {
    TruncDiv(now - t, TicksPerHour)
  }

  /** `diff <= days * 24`, the window test shared by every "last n days" query. */
  predicate WithinDays(now: int, t: int, days: int) {
    HoursSince(now, t) <= days * 24
  }

  /** The "today" window: at most 24 whole hours old. */
  predicate WithinDay(now: int, t: int) {
    HoursSince(now, t) <= 24
  }

  /** Widening the window never drops a timestamp. */
  lemma WithinDaysMonotone(now: int, t: int, d1: int, d2: int)
    requires d1 <= d2 && WithinDays(now, t, d1)
    ensures WithinDays(now, t, d2)
  {
  }
}
