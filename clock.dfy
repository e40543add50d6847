/**
 * `LocalDateTime` and `LocalDate` on one time-line: a date-time is a count of
 * nanoseconds since 1970-01-01T00:00, a date a count of days since
 * 1970-01-01. Both may be negative.
 */
module Clock {

  type Time = int
  type Date = int

  const NanosPerDay: int := 86_400_000_000_000

  /** `a.isBefore(b)`: strictly earlier. */
  predicate IsBefore(a: Time, b: Time) { a < b }

  /** `date.atStartOfDay()`. */
  function StartOfDay(d: Date): Time { d * 86_400_000_000_000 }

  /** `date.plusDays(1).atStartOfDay().minusNanos(1)`: the last nanosecond of the day. */
  function EndOfDay(d: Date): Time { StartOfDay(d + 1) - 1 }

  /** `t.toLocalDate()`: the calendar date `t` falls on. */
  function DateOf(t: Time): Date { t / NanosPerDay }

  /** The inclusive range [StartOfDay(d), EndOfDay(d)] holds exactly the
      instants whose calendar date is `d`, the last nanosecond before midnight
      included. */
  lemma WithinDayIffOnDate(t: Time, d: Date)
    ensures StartOfDay(d) <= t <= EndOfDay(d) <==> DateOf(t) == d
  {
    var q, m := t / NanosPerDay, t % NanosPerDay;
    assert t == q * 86_400_000_000_000 + m && 0 <= m < NanosPerDay;
    if q < d {
      assert q * 86_400_000_000_000 <= (d - 1) * 86_400_000_000_000;
    } else if q > d {
      assert q * 86_400_000_000_000 >= (d + 1) * 86_400_000_000_000;
    }
  }

  /** `WithinDayIffOnDate` for every instant at once. */
  lemma DayRange(d: Date)
    ensures forall t: Time :: StartOfDay(d) <= t <= EndOfDay(d) <==> DateOf(t) == d
  {
    forall t: Time
      ensures StartOfDay(d) <= t <= EndOfDay(d) <==> DateOf(t) == d
    {
      WithinDayIffOnDate(t, d);
    }
  }
}
