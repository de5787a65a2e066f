/** The next time a cron expression fires, in UTC minutes. */
module CronNext {
  import opened TextLines
  import opened CronFields
  import opened Calendar

  const MAX_ITERATIONS := 366 * 24 * 60

  predicate DayMatches(f: Fields, day: int) {
    var d := DateOf(day);
    var dom, dow := d.day in f.dayOfMonth, WeekDay(day) in f.dayOfWeek;
    d.month in f.month && if f.domRestricted && f.dowRestricted then dom || dow else dom && dow
  }

  /** Whether minute `t` of the epoch matches. */
  predicate CronMatches(f: Fields, t: int) {
    t % 60 in f.minute && (t / 60) % 24 in f.hour && DayMatches(f, t / 1440)
  }

  /** The first minute strictly after a time in milliseconds. */
  function MinuteAfter(fromMs: int): int {
    fromMs / 60000 + 1
  }

  lemma MinuteAfterIsNext(fromMs: int, t: int)
    ensures t >= MinuteAfter(fromMs) <==> t * 60000 > fromMs
  {
  }

  /** The least matching minute after `fromMs` within the next 366 days. */
  ghost predicate IsNext(f: Fields, fromMs: int, r: Option<int>) {
    var first := MinuteAfter(fromMs);
    match r
    case Some(t) =>
      && first <= t < first + MAX_ITERATIONS
      && CronMatches(f, t) && forall u :: first <= u < t ==> !CronMatches(f, u)
    case None => forall u :: first <= u < first + MAX_ITERATIONS ==> !CronMatches(f, u)
  }

  // ---- On the calendar -----------------------------------------------------

  predicate IsTime(d: Date, hour: int, minute: int) {
    Valid(d) && 0 <= hour < 24 && 0 <= minute < 60
  }

  /** The minute of the epoch at a date and a time of day. */
  function At(d: Date, hour: int, minute: int): int
    requires IsTime(d, hour, minute)
  {
    DayOf(d) * 1440 + hour * 60 + minute
  }

  /** Minute, hour and month are in their fields; of the day of month and the weekday one
      is enough if both are restricted, and otherwise both are needed. */
  predicate Fires(f: Fields, d: Date, hour: int, minute: int)
    requires IsTime(d, hour, minute)
  {
    && minute in f.minute && hour in f.hour && d.month in f.month
    && (d.day in f.dayOfMonth || WeekDay(DayOf(d)) in f.dayOfWeek)
    && (!f.domRestricted || !f.dowRestricted ==> d.day in f.dayOfMonth && WeekDay(DayOf(d)) in f.dayOfWeek)
  }

  /** Every minute has its date and time. */
  lemma TimeAt(t: int)
    ensures IsTime(DateOf(t / 1440), (t / 60) % 24, t % 60) && At(DateOf(t / 1440), (t / 60) % 24, t % 60) == t
  {
    hide DateOf, DayOf;
    DayRoundTrip(t / 1440);
    assert t / 1440 == (t / 60) / 24;
  }

  /** Which minutes match, told on dates and times. */
  lemma CalendarMatch(f: Fields, d: Date, hour: int, minute: int)
    requires IsTime(d, hour, minute)
    ensures CronMatches(f, At(d, hour, minute)) <==> Fires(f, d, hour, minute)
  {
    hide DateOf, DayOf, WeekDay, MonthLength, Fires, CronMatches;
    TimeOfDay(DayOf(d), hour, minute);
    DateRoundTrip(d);
    MatchesAt(f, At(d, hour, minute), d, hour, minute);
  }

  lemma MatchesAt(f: Fields, t: int, d: Date, hour: int, minute: int)
    requires IsTime(d, hour, minute) && DateOf(DayOf(d)) == d
    requires t % 60 == minute && (t / 60) % 24 == hour && t / 1440 == DayOf(d)
    ensures CronMatches(f, t) <==> Fires(f, d, hour, minute)
  {
    hide DateOf, DayOf, WeekDay, MonthLength;
  }

  /** Within the 366 days after a time in milliseconds. */
  predicate InWindow(fromMs: int, t: int) {
    fromMs < t * 60000 <= fromMs + 366 * 24 * 60 * 60000
  }

  /** The least time of the calendar in the window at which the fields fire. */
  ghost predicate FirstTime(f: Fields, fromMs: int, r: Option<int>) {
    match r
    case Some(t) =>
      && InWindow(fromMs, t)
      && (exists d, hour, minute :: IsTime(d, hour, minute) && At(d, hour, minute) == t && Fires(f, d, hour, minute))
      && (forall d, hour, minute | IsTime(d, hour, minute) && InWindow(fromMs, At(d, hour, minute)) ::
            At(d, hour, minute) < t ==> !Fires(f, d, hour, minute))
    case None =>
      forall d, hour, minute | IsTime(d, hour, minute) && InWindow(fromMs, At(d, hour, minute)) ::
        !Fires(f, d, hour, minute)
  }

  lemma WindowIs(fromMs: int, t: int)
    ensures InWindow(fromMs, t) <==> MinuteAfter(fromMs) <= t < MinuteAfter(fromMs) + MAX_ITERATIONS
  {
  }

  /** What the scan returns, told on dates and times. */
  lemma NextIsFirstTime(f: Fields, fromMs: int, r: Option<int>)
    requires IsNext(f, fromMs, r)
    ensures FirstTime(f, fromMs, r)
  {
    hide CronMatches, Fires, At, InWindow, MinuteAfter, IsTime;
    forall d, hour, minute | IsTime(d, hour, minute)
      ensures CronMatches(f, At(d, hour, minute)) <==> Fires(f, d, hour, minute)
      ensures var t := At(d, hour, minute);
              InWindow(fromMs, t) <==> MinuteAfter(fromMs) <= t < MinuteAfter(fromMs) + MAX_ITERATIONS
    {
      CalendarMatch(f, d, hour, minute);
      WindowIs(fromMs, At(d, hour, minute));
    }
    if r.Some? {
      TimeAt(r.value);
      WindowIs(fromMs, r.value);
    }
  }

  /** The minute-by-minute scan. A result is the least match strictly after the
      start; none means no match in the next 366 days, or no valid expression. */
  method NextCronTime(expr: string, fromMs: int) returns (r: Option<int>)
    ensures ParseExpression(expr).None? ==> r == None
    ensures ParseExpression(expr).Some? ==> IsNext(ParseExpression(expr).value, fromMs, r)
    ensures ParseExpression(expr).Some? ==> FirstTime(ParseExpression(expr).value, fromMs, r)
  {
    hide ParseExpression, CronMatches, FirstTime;
    var fields := ParseCronExpression(expr);
    if fields.None? {
      return None;
    }
    var candidate := MinuteAfter(fromMs);
    for iteration := 0 to MAX_ITERATIONS
      invariant candidate == MinuteAfter(fromMs) + iteration
      invariant forall u :: MinuteAfter(fromMs) <= u < candidate ==> !CronMatches(fields.value, u)
    {
      if CronMatches(fields.value, candidate) {
        NextIsFirstTime(fields.value, fromMs, Some(candidate));
        return Some(candidate);
      }
      candidate := candidate + 1;
    }
    NextIsFirstTime(fields.value, fromMs, None);
    return None;
  }

  /** The day rule leaves some day of every year: both day fields are restricted,
      so a weekday is enough, or an allowed month has an allowed day every year. */
  ghost predicate EveryYear(f: Fields) {
    || (f.domRestricted && f.dowRestricted)
    || exists m, d :: m in f.month && d in f.dayOfMonth && 1 <= m <= 12 && d <= MonthLength(m, false)
  }

  lemma TimeOfDay(day: int, hour: int, minute: int)
    requires 0 <= hour < 24 && 0 <= minute < 60
    ensures var t := day * 1440 + hour * 60 + minute;
            t % 60 == minute && (t / 60) % 24 == hour && t / 1440 == day
  {
    var t := day * 1440 + hour * 60 + minute;
    assert t == (day * 24 + hour) * 60 + minute;
    assert t / 60 == day * 24 + hour;
  }

  /** Some day of any 366 in a row matches. */
  lemma DayWithinYear(f: Fields, first: int) returns (day: int)
    requires WellFormed(f) && EveryYear(f)
    ensures first <= day < first + 366 && DayMatches(f, day)
  {
    hide DateOf, MonthLength;
    if f.domRestricted && !f.dowRestricted {
      var m, d :| m in f.month && d in f.dayOfMonth && 1 <= m <= 12 && d <= MonthLength(m, false);
      day := DateWithinYear(first, m, d);
    } else {
      var m := AnyOf(f.month, 1, 12);
      var w := AnyOf(f.dayOfWeek, 0, 6);
      day := WeekDayWithinYear(first, m, w);
      LongestMonth(DateOf(day).month, Leap(DateOf(day).year));
    }
  }

  lemma LongestMonth(m: int, leap: bool)
    requires 1 <= m <= 12
    ensures 28 <= MonthLength(m, leap) <= 31
  {
  }

  /** The scan always finds a time, from any start, leap years included. */
  lemma FiresFromAnywhere(f: Fields, first: int) returns (t: int)
    requires WellFormed(f) && EveryYear(f)
    ensures first <= t < first + MAX_ITERATIONS && CronMatches(f, t)
  {
    hide DayMatches, EveryYear;
    var minute := AnyOf(f.minute, 0, 59);
    var hour := AnyOf(f.hour, 0, 23);
    var tod := hour * 60 + minute;
    var day0 := (first - tod + 1439) / 1440;
    var day := DayWithinYear(f, day0);
    t := day * 1440 + hour * 60 + minute;
    TimeOfDay(day, hour, minute);
  }

  /** When the condition fails, nothing matches in the 366 days from 1 January 2021. */
  lemma NeverFiresIn2021(f: Fields, t: int)
    requires WellFormed(f) && !EveryYear(f)
    requires DayFromYear(2021) * 1440 <= t < DayFromYear(2021) * 1440 + MAX_ITERATIONS
    ensures !CronMatches(f, t)
  {
    hide DateOf, WeekDay;
    var day := t / 1440;
    NoLeapDayIn2021(day);
    var m := AnyOf(f.month, 1, 12);
    LongestMonth(m, false);
    assert !f.domRestricted ==> 1 in f.dayOfMonth;
  }

  /** The scan finds a time from every start exactly when the fields leave a day in
      every year. */
  lemma AlwaysFiresIff(f: Fields)
    requires WellFormed(f)
    ensures EveryYear(f) <==> forall fromMs, r :: IsNext(f, fromMs, r) ==> r.Some?
  {
    hide EveryYear, CronMatches, WellFormed;
    if EveryYear(f) {
      forall fromMs, r | IsNext(f, fromMs, r)
        ensures r.Some?
      {
        var t := FiresFromAnywhere(f, MinuteAfter(fromMs));
      }
    } else {
      var first := DayFromYear(2021) * 1440;
      var fromMs := (first - 1) * 60000;
      assert MinuteAfter(fromMs) == first;
      forall u | first <= u < first + MAX_ITERATIONS
        ensures !CronMatches(f, u)
      {
        NeverFiresIn2021(f, u);
      }
      assert IsNext(f, fromMs, None);
    }
  }

  /** An allowed day of month of at most 28 is enough. */
  lemma SmallDayAlwaysFires(f: Fields, d: int, fromMs: int, r: Option<int>)
    requires WellFormed(f) && d in f.dayOfMonth && d <= 28 && IsNext(f, fromMs, r)
    ensures r.Some?
  {
    var m := AnyOf(f.month, 1, 12);
    LongestMonth(m, false);
    var t := FiresFromAnywhere(f, MinuteAfter(fromMs));
  }
}
