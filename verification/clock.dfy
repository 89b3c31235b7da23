/** The part of Go's time.Time that the appointment validator reads: whether
    the instant is the zero value, and its weekday, hour and minute. Calendar
    arithmetic and time zones are not modelled; these are taken as given. */
module Clock {

  /** time.Weekday numbering: Sunday = 0, Monday = 1, ..., Saturday = 6. */
  type Day = d: int | 0 <= d < 7
  type HourOfDay = h: int | 0 <= h < 24
  type MinuteOfHour = m: int | 0 <= m < 60

  const Sunday: Day := 0
  const Monday: Day := 1
  const Tuesday: Day := 2
  const Wednesday: Day := 3
  const Thursday: Day := 4
  const Friday: Day := 5
  const Saturday: Day := 6

  /** Zero is the zero time.Time (what an absent JSON field decodes to);
      At is any other instant, seen through its weekday, hour and minute. */
  datatype Time = Zero | At(day: Day, hour: HourOfDay, minute: MinuteOfHour) {

    predicate IsZero() {
      Zero?
    }

    /** The zero instant is January 1 of year 1, 00:00 UTC: a Monday at
        midnight, which is what the accessors below report for it. */
    function Weekday(): Day {
      if Zero? then Monday else day
    }

    function Hour(): HourOfDay {
      if Zero? then 0 else hour
    }

    function Minute(): MinuteOfHour {
      if Zero? then 0 else minute
    }
  }
}
