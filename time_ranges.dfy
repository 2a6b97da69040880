/**
 * The time-range resolver: the `TimeRange` selector, the current and previous
 * query intervals it maps to, and the bucket (hour or day) rows are grouped by.
 * Intervals are kept as (amount, unit) values instead of SQL text.
 */
module TimeRanges {
  import opened Common

  datatype TimeRange =
    | HOUR_1 | HOUR_3 | HOUR_6 | HOUR_12 | DAY_1 | DAY_3
    | WEEK_1 | WEEK_2 | MONTH_1 | MONTH_3 | MONTH_6 | YEAR_1 | ALL_TIME

  datatype Unit = Hour | Day

  /** `INTERVAL <amount> <unit>` */
  datatype Interval = Interval(amount: nat, unit: Unit)

  /** The bucket that rows are grouped by: the hour or the calendar day. */
  datatype Bucket = Hourly | Daily

  function Hours(i: Interval): nat {
    match i.unit
    case Hour => i.amount
    case Day => 24 * i.amount
  }

  /**
   * The length each selector names, in hours (months are 30 days, a year is
   * 365 days, as the interval table counts them); ALL_TIME names none.
   */
  function NominalHours(t: TimeRange): Option<nat> {
    match t
    case HOUR_1 => Some(1)
    case HOUR_3 => Some(3)
    case HOUR_6 => Some(6)
    case HOUR_12 => Some(12)
    case DAY_1 => Some(24)
    case DAY_3 => Some(72)
    case WEEK_1 => Some(168)
    case WEEK_2 => Some(336)
    case MONTH_1 => Some(720)
    case MONTH_3 => Some(2160)
    case MONTH_6 => Some(4320)
    case YEAR_1 => Some(8760)
    case ALL_TIME => None
  }

  /** The selectors that have their own entry in the interval tables. */
  predicate Mapped(t: TimeRange) {
    t !in {HOUR_6, DAY_3, ALL_TIME}
  }

  /**
   * `timeRangeToInterval`: how far back the current window reaches. A mapped
   * selector reaches back exactly its nominal length; the others fall back
   * to the WEEK_1 entry, 7 days. Ranges up to a day are counted in hours,
   * longer ones in days.
   */
  function CurrentInterval(t: TimeRange): (r: Interval)
    ensures r.amount > 0
    ensures Mapped(t) ==> Some(Hours(r)) == NominalHours(t)
    ensures !Mapped(t) ==> r == Interval(7, Day)
    ensures Mapped(t) ==> (r.unit == Hour <==> NominalHours(t).value <= 24)
  {
    match t
    case HOUR_1 => Interval(1, Hour)
    case HOUR_3 => Interval(3, Hour)
    case HOUR_12 => Interval(12, Hour)
    case DAY_1 => Interval(24, Hour)
    case WEEK_1 => Interval(7, Day)
    case WEEK_2 => Interval(14, Day)
    case MONTH_1 => Interval(30, Day)
    case MONTH_3 => Interval(90, Day)
    case MONTH_6 => Interval(180, Day)
    case YEAR_1 => Interval(365, Day)
    case _ => Interval(7, Day)
  }

  /**
   * `getPreviousInterval`: how far back the previous window reaches. It is
   * always twice the current interval in the same unit, so the previous
   * window [now - 2L, now - L) has the current window's length L and ends
   * where the current one starts; the fallback is 14 days.
   */
  function PreviousInterval(t: TimeRange): (r: Interval)
    ensures r.unit == CurrentInterval(t).unit
    ensures r.amount == 2 * CurrentInterval(t).amount
    ensures Hours(r) - Hours(CurrentInterval(t)) == Hours(CurrentInterval(t))
    ensures !Mapped(t) ==> r == Interval(14, Day)
  {
    match t
    case HOUR_1 => Interval(2, Hour)
    case HOUR_3 => Interval(6, Hour)
    case HOUR_12 => Interval(24, Hour)
    case DAY_1 => Interval(48, Hour)
    case WEEK_1 => Interval(14, Day)
    case WEEK_2 => Interval(28, Day)
    case MONTH_1 => Interval(60, Day)
    case MONTH_3 => Interval(180, Day)
    case MONTH_6 => Interval(360, Day)
    case YEAR_1 => Interval(730, Day)
    case _ => Interval(14, Day)
  }

  /**
   * `getGroupByClause`: hourly buckets exactly for the selectors that name
   * at most a day. HOUR_6 is among them although its windows are the
   * 7-day fallback.
   */
  function GroupBy(t: TimeRange): (b: Bucket)
    ensures b == Hourly <==> t != ALL_TIME && NominalHours(t).value <= 24
    ensures Mapped(t) ==> (b == Hourly <==> CurrentInterval(t).unit == Hour)
  {
    if t == HOUR_1 || t == HOUR_3 || t == HOUR_6 || t == HOUR_12 || t == DAY_1 then
      Hourly
    else
      Daily
  }

  /** A window of the query as offsets back from now, in hours: [from, to). */
  datatype Window = Window(fromHoursAgo: nat, toHoursAgo: nat)

  /** The current window [now - L, now) and the previous one [now - 2L, now - L). */
  function Windows(t: TimeRange): (w: (Window, Window))
    ensures w.0.fromHoursAgo - w.0.toHoursAgo == w.1.fromHoursAgo - w.1.toHoursAgo > 0
    ensures w.1.toHoursAgo == w.0.fromHoursAgo
    ensures w.0.toHoursAgo == 0
  {
    (Window(Hours(CurrentInterval(t)), 0),
     Window(Hours(PreviousInterval(t)), Hours(CurrentInterval(t))))
  }

  /** The selector the services fall back to when none is given. */
  const DefaultRange: TimeRange := WEEK_1

  /** The unmapped selectors behave exactly like WEEK_1 except for bucketing. */
  lemma FallbackIsWeek(t: TimeRange)
    requires !Mapped(t)
    ensures CurrentInterval(t) == CurrentInterval(DefaultRange)
    ensures PreviousInterval(t) == PreviousInterval(DefaultRange)
    ensures GroupBy(t) == (if t == HOUR_6 then Hourly else GroupBy(DefaultRange))
  {
  }
}
