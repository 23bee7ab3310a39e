/** Calendar days and instants. A day is a day number and an instant a count
    of whole seconds on one time line, day 0 starting at instant 0; "today"
    and "now" are always passed in. */
module Calendar {

  type Day = int
  type Time = int

  const SecondsPerDay: int := 86400

  /** `DATE(t)`: the calendar day an instant falls on. */
  function DayOf(t: Time): (d: Day)
    ensures d * SecondsPerDay <= t < (d + 1) * SecondsPerDay
  {
    t / SecondsPerDay
  }

  /** An inclusive range of days, as `start..end` in a query. */
  datatype Period = Period(startDate: Day, endDate: Day)

  predicate Contains(p: Period, d: Day) {
    p.startDate <= d <= p.endDate
  }

  const LastWeekDays: int := 7

  /** `7.days.ago.to_date .. 1.day.ago.to_date`: the whole days of the
      trailing week, today excluded. */
  function TrailingWeek(today: Day): (p: Period)
    ensures p.endDate == today - 1
    ensures p.endDate - p.startDate + 1 == LastWeekDays
    ensures forall d :: Contains(p, d) <==> today - LastWeekDays <= d < today
  {
    Period(today - LastWeekDays, today - 1)
  }
}
