/** The calendar of ECMAScript dates: days counted from 1970-01-01, as in the
    section "Time Values and Time Range" of ECMA-262 and the two after it. */
module Calendar {

  /** The number of the first day of a year. */
  function DayFromYear(y: int): int {
    365 * (y - 1970) + (y - 1969) / 4 - (y - 1901) / 100 + (y - 1601) / 400
  }

  predicate Leap(y: int) {
    y % 4 == 0 && (y % 100 != 0 || y % 400 == 0)
  }

  function YearLength(y: int): int {
    if Leap(y) then 366 else 365
  }

  lemma YearSteps(y: int)
    ensures DayFromYear(y + 1) == DayFromYear(y) + YearLength(y)
  {
    DivSteps(y - 1969, 4);
    DivSteps(y - 1901, 100);
    DivSteps(y - 1601, 400);
    assert (y - 1968) % 4 == y % 4;
    assert (y - 1900) % 100 == y % 100;
    assert (y - 1600) % 400 == y % 400;
  }

  lemma DivSteps(a: int, m: int)
    requires m == 4 || m == 100 || m == 400
    ensures (a + 1) / m == a / m + if (a + 1) % m == 0 then 1 else 0
  {
  }

  /** The year a day falls in, searched upwards from one that has begun by then. */
  function YearFrom(y: int, day: int): (r: int)
    requires DayFromYear(y) <= day
    ensures DayFromYear(r) <= day < DayFromYear(r + 1)
    decreases day - DayFromYear(y)
  {
    YearSteps(y);
    if day < DayFromYear(y + 1) then y else YearFrom(y + 1, day)
  }

  lemma EarlyYear(day: int)
    ensures DayFromYear(1970 + day / 365 - 1) <= day || day >= 0
  {
  }

  function YearOf(day: int): (r: int)
    ensures DayFromYear(r) <= day < DayFromYear(r + 1)
  {
    EarlyYear(day);
    YearFrom(if day >= 0 then 1970 else 1970 + day / 365 - 1, day)
  }

  lemma {:induction false} YearsOrdered(y: int, z: int)
    requires y <= z
    ensures DayFromYear(z) >= DayFromYear(y) + 365 * (z - y)
    decreases z - y
  {
    if y < z {
      YearsOrdered(y, z - 1);
      YearSteps(z - 1);
    }
  }

  lemma YearOfIs(day: int, y: int)
    requires DayFromYear(y) <= day < DayFromYear(y + 1)
    ensures YearOf(day) == y
  {
    hide DayFromYear;
    var r := YearOf(day);
    if r < y {
      YearsOrdered(r + 1, y);
    } else if r > y {
      YearsOrdered(y + 1, r);
    }
  }

  /** How many days of the year come before a month (13 is the next year). */
  function MonthStart(m: int, leap: bool): int
    requires 1 <= m <= 13
  {
    var l := if leap && m > 2 then 1 else 0;
    l + [0, 31, 59, 90, 120, 151, 181, 212, 243, 273, 304, 334, 365][m - 1]
  }

  function MonthLength(m: int, leap: bool): int
    requires 1 <= m <= 12
  {
    MonthStart(m + 1, leap) - MonthStart(m, leap)
  }

  function MonthFrom(m: int, n: int, leap: bool): (r: int)
    requires 1 <= m <= 12 && MonthStart(m, leap) <= n < MonthStart(13, leap)
    ensures 1 <= r <= 12 && MonthStart(r, leap) <= n < MonthStart(r + 1, leap)
    decreases 12 - m
  {
    if n < MonthStart(m + 1, leap) then m else MonthFrom(m + 1, n, leap)
  }

  datatype Date = Date(year: int, month: int, day: int)

  function DateOf(day: int): (d: Date)
    ensures 1 <= d.month <= 12 && 1 <= d.day <= MonthLength(d.month, Leap(d.year)) && d.year == YearOf(day)
  {
    var y := YearOf(day);
    YearSteps(y);
    var n := day - DayFromYear(y);
    var m := MonthFrom(1, n, Leap(y));
    Date(y, m, n - MonthStart(m, Leap(y)) + 1)
  }

  /** The number of the day with a date. */
  function DayOf(d: Date): int
    requires 1 <= d.month <= 12
  {
    DayFromYear(d.year) + MonthStart(d.month, Leap(d.year)) + d.day - 1
  }

  predicate Valid(d: Date) {
    1 <= d.month <= 12 && 1 <= d.day <= MonthLength(d.month, Leap(d.year))
  }

  lemma MonthsOrdered(m: int, k: int, leap: bool)
    requires 1 <= m < k <= 13
    ensures MonthStart(m, leap) + 28 <= MonthStart(k, leap)
  {
  }

  /** Dates and day numbers correspond one to one. */
  lemma DateRoundTrip(d: Date)
    requires Valid(d)
    ensures DateOf(DayOf(d)) == d
    ensures DayFromYear(d.year) <= DayOf(d) < DayFromYear(d.year + 1)
  {
    hide DayFromYear, YearOf, Leap;
    YearSteps(d.year);
    var leap := Leap(d.year);
    if d.month < 12 {
      MonthsOrdered(d.month + 1, 13, leap);
    }
    YearOfIs(DayOf(d), d.year);
    var r := DateOf(DayOf(d)).month;
    if r < d.month && r + 1 < d.month {
      MonthsOrdered(r + 1, d.month, leap);
    } else if d.month < r && d.month + 1 < r {
      MonthsOrdered(d.month + 1, r, leap);
    }
  }

  lemma DayRoundTrip(day: int)
    ensures DayOf(DateOf(day)) == day
  {
  }

  lemma LeapIs(y: int)
    ensures Leap(y) <==> y % 400 == 0 || (y % 4 == 0 && y % 100 != 0)
  {
    assert y % 400 == 0 ==> y == 4 * (100 * (y / 400));
  }

  lemma MonthSteps(y: int, m: int, leap: bool)
    requires 1 <= m <= 12 && leap == Leap(y)
    ensures var next := if m == 12 then Date(y + 1, 1, 1) else Date(y, m + 1, 1);
            DayOf(next) - DayOf(Date(y, m, 1))
            == if m in {4, 6, 9, 11} then 30 else if m != 2 then 31 else if leap then 29 else 28
  {
    hide DayFromYear, Leap;
    YearSteps(y);
  }

  /** The rules of the Gregorian calendar: which months have how many days, in which
      years February has 29; and the days of a month follow one another. */
  lemma GregorianRules(y: int, m: int, d: int)
    requires 1 <= m <= 12
    ensures var next := if m == 12 then Date(y + 1, 1, 1) else Date(y, m + 1, 1);
            DayOf(next) - DayOf(Date(y, m, 1))
            == if m in {4, 6, 9, 11} then 30
               else if m != 2 then 31
               else if y % 400 == 0 || (y % 4 == 0 && y % 100 != 0) then 29
               else 28
    ensures DayOf(Date(y, m, d)) == DayOf(Date(y, m, 1)) + d - 1
  {
    hide DayFromYear, Leap, MonthStart;
    LeapIs(y);
    MonthSteps(y, m, Leap(y));
  }

  /** Sunday is 0; day 0 was a Thursday. */
  function WeekDay(day: int): int {
    (day + 4) % 7
  }

  lemma EpochDate()
    ensures DayOf(Date(1970, 1, 1)) == 0
  {
  }

  lemma WeekDaysGoRound(day: int)
    ensures 0 <= WeekDay(day) < 7
    ensures WeekDay(day + 1) == (if WeekDay(day) == 6 then 0 else WeekDay(day) + 1)
  {
  }

  /** The epoch is Thursday, 1 January 1970, and the weekdays go round from it. */
  lemma EpochIsThursday(day: int)
    ensures DateOf(0) == Date(1970, 1, 1) && WeekDay(0) == 4
    ensures WeekDay(day + 1) == (if WeekDay(day) == 6 then 0 else WeekDay(day) + 1)
  {
    hide DateOf, DayOf, DayFromYear, YearOf;
    EpochDate();
    DateRoundTrip(Date(1970, 1, 1));
    WeekDaysGoRound(day);
  }

  lemma SomeWeekDay(from: int, w: int) returns (day: int)
    requires 0 <= w < 7
    ensures from <= day < from + 7 && WeekDay(day) == w
  {
    day := from + (w - from - 4) % 7;
  }

  // ---- What every stretch of 366 days contains -----------------------------

  lemma YearEnds(first: int)
    ensures DayFromYear(YearOf(first) + 1) <= first + 366
    ensures first < DayFromYear(YearOf(first) + 1)
  {
    hide DayFromYear;
    YearSteps(YearOf(first));
  }

  /** The same date a year later is 365 or 366 days away. */
  lemma SameDateNextYear(y: int, m: int, d: int)
    requires 1 <= m <= 12
    ensures 365 <= DayOf(Date(y + 1, m, d)) - DayOf(Date(y, m, d)) <= 366
  {
    hide DayFromYear;
    YearSteps(y);
    assert Leap(y) ==> !Leap(y + 1);
  }

  lemma LeapMonthNoShorter(m: int, leap: bool)
    requires 1 <= m <= 12
    ensures MonthLength(m, false) <= MonthLength(m, leap)
  {
  }

  /** A date that exists every year falls into any 366 days in a row. */
  lemma DateWithinYear(first: int, m: int, d: int) returns (day: int)
    requires 1 <= m <= 12 && 1 <= d <= MonthLength(m, false)
    ensures first <= day < first + 366 && DateOf(day).month == m && DateOf(day).day == d
  {
    hide DateOf, YearOf, Leap, DayOf;
    var y := YearOf(first);
    YearEnds(first);
    SameDateNextYear(y, m, d);
    LeapMonthNoShorter(m, Leap(y));
    LeapMonthNoShorter(m, Leap(y + 1));
    DateRoundTrip(Date(y, m, d));
    DateRoundTrip(Date(y + 1, m, d));
    day := DayOf(Date(y, m, d));
    if day < first {
      day := DayOf(Date(y + 1, m, d));
    }
  }

  lemma InMonth(y: int, m: int, day: int)
    requires 1 <= m <= 12
    requires DayOf(Date(y, m, 1)) <= day < DayOf(Date(y, m, 1)) + MonthLength(m, Leap(y))
    ensures DateOf(day).month == m
  {
    var d := Date(y, m, day - DayOf(Date(y, m, 1)) + 1);
    DateRoundTrip(d);
    assert DayOf(d) == day;
  }

  /** Every weekday falls into any seven days of one month. */
  lemma WeekDayInMonth(y: int, m: int, from: int, w: int) returns (day: int)
    requires 1 <= m <= 12 && 0 <= w < 7
    requires DayOf(Date(y, m, 1)) <= from && from + 7 <= DayOf(Date(y, m, 1)) + MonthLength(m, Leap(y))
    ensures from <= day < from + 7 && DateOf(day).month == m && WeekDay(day) == w
  {
    hide DateOf, DayOf, MonthLength, WeekDay;
    day := SomeWeekDay(from, w);
    InMonth(y, m, day);
  }

  lemma MonthsLongEnough(m: int, leap: bool)
    requires 1 <= m <= 12
    ensures MonthLength(m, leap) >= 28
  {
    MonthsOrdered(m, m + 1, leap);
  }

  /** Every weekday of every month falls into any 366 days in a row. */
  lemma WeekDayWithinYear(first: int, m: int, w: int) returns (day: int)
    requires 1 <= m <= 12 && 0 <= w < 7
    ensures first <= day < first + 366 && DateOf(day).month == m && WeekDay(day) == w
  {
    hide DateOf, YearOf, DayOf, MonthLength, WeekDay, DayFromYear;
    var y := YearOf(first);
    YearEnds(first);
    SameDateNextYear(y, m, 1);
    MonthsLongEnough(m, Leap(y));
    MonthsLongEnough(m, Leap(y + 1));
    MonthEnds(y, m);
    DateRoundTrip(Date(y, m, 1));
    DateRoundTrip(Date(y + 1, m, 1));
    var a, b, n := DayOf(Date(y, m, 1)), DayOf(Date(y + 1, m, 1)), MonthLength(m, Leap(y));
    if first <= a + n - 7 {
      day := WeekDayInMonth(y, m, if a < first then first else a, w);
    } else {
      day := WeekDayInMonth(y + 1, m, b, w);
    }
  }

  lemma MonthEnds(y: int, m: int)
    requires 1 <= m <= 12
    ensures DayOf(Date(y, m, 1)) + MonthLength(m, Leap(y)) <= DayFromYear(y + 1)
  {
    YearSteps(y);
    if m < 12 {
      MonthsOrdered(m + 1, 13, Leap(y));
    }
  }

  /** No 29 February falls into the 366 days from the start of 2021. */
  lemma NoLeapDayIn2021(day: int)
    requires DayFromYear(2021) <= day < DayFromYear(2021) + 366
    ensures !Leap(DateOf(day).year)
  {
    if day < DayFromYear(2022) {
      YearOfIs(day, 2021);
    } else {
      YearOfIs(day, 2022);
    }
  }
}
