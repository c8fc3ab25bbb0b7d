/** JavaScript `Date` values reduced to what the pages compute with: a
    millisecond count on the local clock (time zone offset folded in), or
    the invalid date, whose time value is `NaN`. */
module Dates {

  const DayMs: int := 1000 * 60 * 60 * 24

  datatype Date = Invalid | Time(ms: int)

  /** The local calendar day that holds the instant `ms`. */
  function DayOf(ms: int): int {
    ms / DayMs
  }

  /** `d.setHours(0, 0, 0, 0)`: midnight at the start of the same day. */
  function StartOfDay(d: Date): (r: Date)
    ensures d.Invalid? <==> r.Invalid?
    ensures r.Time? ==> r.ms <= d.ms < r.ms + DayMs && DayOf(r.ms) == DayOf(d.ms)
  {
    match d
    case Invalid => Invalid
    case Time(ms) => Time(DayOf(ms) * DayMs)
  }

  /** `d.setHours(23, 59, 59, 999)`: the last millisecond of the same day. */
  function EndOfDay(d: Date): (r: Date)
    ensures d.Invalid? <==> r.Invalid?
    ensures r.Time? ==> r.ms - DayMs < d.ms <= r.ms && DayOf(r.ms) == DayOf(d.ms)
  {
    match d
    case Invalid => Invalid
    case Time(ms) => Time(DayOf(ms) * DayMs + DayMs - 1)
  }

  /** `a < b`; any comparison with an invalid date is false. */
  predicate Before(a: Date, b: Date) {
    a.Time? && b.Time? && a.ms < b.ms
  }

  /** `a >= b`; any comparison with an invalid date is false. */
  predicate NotBefore(a: Date, b: Date) {
    a.Time? && b.Time? && a.ms >= b.ms
  }

  /** The end of a day lies before `now` exactly when the day is an earlier
      calendar day than today: a deadline on today's date has not passed. */
  lemma EndOfDayBeforeIffEarlierDay(t: int, now: int)
    ensures Before(EndOfDay(Time(t)), Time(now)) <==> DayOf(t) < DayOf(now)
  {
    var e := DayOf(t) * DayMs + DayMs - 1;
    if DayOf(t) < DayOf(now) {
      assert (DayOf(t) + 1) * DayMs <= DayOf(now) * DayMs;
    } else {
      assert DayOf(now) * DayMs <= DayOf(t) * DayMs;
    }
  }

  /** `Math.ceil(ms / DayMs)` */
  function CeilDays(ms: int): int {
    if ms % DayMs == 0 then ms / DayMs else ms / DayMs + 1
  }
}
