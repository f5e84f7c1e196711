/** What day numbers and clock readings count: the closed form of the Gregorian calendar. */
module Chronology {
  import opened Calendar
  import opened TimeBuckets

  lemma {:induction false} YearsClosed(year: int)
    ensures DaysBeforeYear(year) == 365 * (year - 1970) + (year - 1) / 4 - (year - 1) / 100 + (year - 1) / 400 - 477
    decreases if 1970 <= year then year - 1970 else 1970 - year
  {
    if 1970 < year {
      YearsClosed(year - 1);
      LeapDays(year - 1);
    } else if year < 1970 {
      YearsClosed(year + 1);
      LeapDays(year);
    }
  }

  /** A year brings a leap day exactly if the three quotients say so. */
  lemma LeapDays(year: int)
    ensures YearLength(year) ==
      365 + (year / 4 - (year - 1) / 4) - (year / 100 - (year - 1) / 100) + (year / 400 - (year - 1) / 400)
  {
    QuotientStep(year, 4);
    QuotientStep(year, 100);
    QuotientStep(year, 400);
  }

  lemma QuotientStep(n: int, d: int)
    requires d > 1
    ensures n / d - (n - 1) / d == if n % d == 0 then 1 else 0
  {
    if n % d == 0 {
      assert n - 1 == d * (n / d - 1) + (d - 1);
      QuotientIs(n - 1, d, n / d - 1, d - 1);
    } else {
      QuotientIs(n - 1, d, n / d, n % d - 1);
    }
  }

  lemma QuotientIs(n: int, d: int, q: int, r: int)
    requires 0 <= r < d && n == d * q + r
    ensures n / d == q
  {
    var more := n / d - q;
    assert n == d * (n / d) + n % d;
    assert d * more == r - n % d;
    if more > 0 {
      AtLeastOnce(d, more);
    } else if more < 0 {
      AtLeastOnce(d, -more);
    }
  }

  lemma AtLeastOnce(d: int, k: int)
    requires d > 0 && k > 0
    ensures d * k >= d
  {
  }

  lemma MonthsClosed(year: int, month: int)
    requires 0 <= month < 12
    ensures DaysBeforeMonth(year, month) ==
      (153 * ((month + 10) % 12) + 2) / 5 + (if month < 2 then -306 else 31 + MonthLength(year, 1))
  {
    assert DaysBeforeMonth(year, 0) == 0;
    assert DaysBeforeMonth(year, 1) == 31;
    assert DaysBeforeMonth(year, 2) == 31 + MonthLength(year, 1);
    assert DaysBeforeMonth(year, 3) == DaysBeforeMonth(year, 2) + 31;
    assert DaysBeforeMonth(year, 4) == DaysBeforeMonth(year, 3) + 30;
    assert DaysBeforeMonth(year, 5) == DaysBeforeMonth(year, 4) + 31;
    assert DaysBeforeMonth(year, 6) == DaysBeforeMonth(year, 5) + 30;
    assert DaysBeforeMonth(year, 7) == DaysBeforeMonth(year, 6) + 31;
    assert DaysBeforeMonth(year, 8) == DaysBeforeMonth(year, 7) + 31;
    assert DaysBeforeMonth(year, 9) == DaysBeforeMonth(year, 8) + 30;
    assert DaysBeforeMonth(year, 10) == DaysBeforeMonth(year, 9) + 31;
    assert DaysBeforeMonth(year, 11) == DaysBeforeMonth(year, 10) + 30;
  }

  /** The day number of a date in closed form, with years that begin in March. */
  lemma DayNumberIs(date: Date)
    requires date.Valid()
    ensures
      var y := if date.month < 2 then date.year - 1 else date.year;
      DayNumber(date) ==
        365 * y + y / 4 - y / 100 + y / 400 + (153 * ((date.month + 10) % 12) + 2) / 5 + date.day - 719469
  {
    hide DaysBeforeYear, DaysBeforeMonth, YearLength;
    YearsClosed(date.year);
    MonthsClosed(date.year, date.month);
    LeapDays(date.year);
    FebruaryLength(date.year);
  }

  lemma FebruaryLength(year: int)
    ensures MonthLength(year, 1) == YearLength(year) - 337
  {
  }

  /** A civil date and a time of day come back from `localtime` as they went into `mktime`. */
  lemma LocalTimeRoundTrip(date: Date, hour: int, minute: int, second: int, tz: int, wday: int)
    requires date.Valid() && 0 <= hour < 24 && 0 <= minute < 60 && 0 <= second < 60
    ensures
      var tm := LocalTime(MkTime(Tm(second, minute, hour, date.day, date.month, date.year - 1900, wday), tz), tz);
      && tm.(wday := wday) == Tm(second, minute, hour, date.day, date.month, date.year - 1900, wday)
      && 0 <= tm.wday < 7
  {
    hide DayNumber, DateOf;
    var clock := 3600 * hour + 60 * minute + second;
    var time := MkTime(Tm(second, minute, hour, date.day, date.month, date.year - 1900, wday), tz);
    NormalisedDayOfDate(date);
    DateRoundTrip(date);
    assert time + tz == DAY * DayNumber(date) + clock;
    QuotientIs(time + tz, DAY, DayNumber(date), clock);
    QuotientIs(clock, 60, 60 * hour + minute, second);
    QuotientIs(60 * hour + minute, 60, hour, minute);
    QuotientIs(clock, 3600, hour, 60 * minute + second);
  }

  /** 1970-01-05 was a Monday, and a week begins with every Monday and on no other day. */
  lemma WeeksBeginOnMonday(day: int, tz: int)
    ensures LocalTime(Midnight(day, tz), tz).wday == 1 <==> WeekOf(day) != WeekOf(day - 1)
    ensures DayNumber(Date(1970, 0, 5)) == 4 && LocalTime(Midnight(4, tz), tz).wday == 1
  {
    hide DateOf;
    assert Midnight(day, tz) + tz == DAY * day;
    QuotientIs(DAY * day, DAY, day, 0);
    QuotientIs(DAY * 4, DAY, 4, 0);
  }
}
