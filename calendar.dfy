/** Dates as calendar components. A `Moment` carries the calendar day as
    an ordinal (standing for the year/month/day triple) and the clock
    time; `Instant` is the moment in seconds, ignoring time zones and
    daylight saving. */
module Calendar {

  const SecondsPerDay: int := 86400

  datatype Moment = Moment(day: int, hour: int, minute: int, second: int)

  /** The clock components are in their usual ranges. */
  predicate ValidClock(m: Moment) {
    0 <= m.hour < 24 && 0 <= m.minute < 60 && 0 <= m.second < 60
  }

  function Instant(m: Moment): int {
    m.day * SecondsPerDay + m.hour * 3600 + m.minute * 60 + m.second
  }

  /** Swift's `calendar.date(bySettingHour:minute:second: 0, of:)` applied
      to the day of `date` with the hour and minute of `time`. */
  function JoinDateTime(date: Moment, time: Moment): (m: Moment)
    ensures ValidClock(time) ==> ValidClock(m)
    ensures ValidClock(time) ==> date.day * SecondsPerDay <= Instant(m) < (date.day + 1) * SecondsPerDay
    ensures Instant(m) % 60 == 0
  {
    Moment(date.day, time.hour, time.minute, 0)
  }

  /** The joined moment depends on exactly the date's day and the time's
      hour and minute: the date's clock and the time's day and seconds are
      discarded. */
  lemma JoinDependsOnDayHourMinute(d1: Moment, t1: Moment, d2: Moment, t2: Moment)
    ensures JoinDateTime(d1, t1) == JoinDateTime(d2, t2)
        <==> d1.day == d2.day && t1.hour == t2.hour && t1.minute == t2.minute
  {
  }
}
