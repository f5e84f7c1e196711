/** Civil dates and the two C library conversions the time buckets rely on.
    Days are counted from 1970-01-01 in the proleptic Gregorian calendar, months from 0
    and `tm_year` from 1900, as in section 7.27.1 of ISO/IEC 9899:2011. The clock has a
    fixed offset `tz` (seconds east of UTC). */
module Calendar {

  const DAY := 24 * 60 * 60

  predicate IsLeap(year: int) {
    year % 4 == 0 && (year % 100 != 0 || year % 400 == 0)
  }

  function YearLength(year: int): int {
    if IsLeap(year) then 366 else 365
  }

  /** The day number of January 1st. */
  function DaysBeforeYear(year: int): int
    decreases if 1970 <= year then year - 1970 else 1970 - year
  {
    if year == 1970 then 0
    else if 1970 < year then DaysBeforeYear(year - 1) + YearLength(year - 1)
    else DaysBeforeYear(year + 1) - YearLength(year)
  }

  function MonthLength(year: int, month: int): int {
    if month == 1 then (if IsLeap(year) then 29 else 28)
    else if month == 3 || month == 5 || month == 8 || month == 10 then 30
    else 31
  }

  function DaysBeforeMonth(year: int, month: int): int
    requires 0 <= month <= 12
  {
    if month == 0 then 0 else DaysBeforeMonth(year, month - 1) + MonthLength(year, month - 1)
  }

  datatype Date = Date(year: int, month: int, day: int) {
    predicate Valid() {
      0 <= month < 12 && 1 <= day <= MonthLength(year, month)
    }

    /** Months since year 0, so that "the previous month" is one less, also in January. */
    function MonthIndex(): int {
      12 * year + month
    }
  }

  function DayNumber(date: Date): int
    requires 0 <= date.month <= 12
  {
    DaysBeforeYear(date.year) + DaysBeforeMonth(date.year, date.month) + date.day - 1
  }

  lemma YearStep(year: int)
    ensures DaysBeforeYear(year + 1) == DaysBeforeYear(year) + YearLength(year)
  {
  }

  lemma {:induction false} YearsMonotone(y1: int, y2: int)
    requires y1 <= y2
    ensures DaysBeforeYear(y1) + 365 * (y2 - y1) <= DaysBeforeYear(y2)
    decreases y2 - y1
  {
    if y1 < y2 {
      YearsMonotone(y1, y2 - 1);
      YearStep(y2 - 1);
    }
  }

  lemma {:induction false} MonthsMonotone(year: int, m1: int, m2: int)
    requires 0 <= m1 <= m2 <= 12
    ensures DaysBeforeMonth(year, m1) + 28 * (m2 - m1) <= DaysBeforeMonth(year, m2)
    decreases m2 - m1
  {
    if m1 < m2 {
      MonthsMonotone(year, m1, m2 - 1);
    }
  }

  lemma TwelveMonths(year: int)
    ensures DaysBeforeMonth(year, 12) == YearLength(year)
  {
    assert DaysBeforeMonth(year, 1) == 31;
    assert DaysBeforeMonth(year, 2) == 31 + MonthLength(year, 1);
    assert DaysBeforeMonth(year, 4) == DaysBeforeMonth(year, 2) + 61;
    assert DaysBeforeMonth(year, 6) == DaysBeforeMonth(year, 4) + 61;
    assert DaysBeforeMonth(year, 8) == DaysBeforeMonth(year, 6) + 62;
    assert DaysBeforeMonth(year, 10) == DaysBeforeMonth(year, 8) + 61;
    assert DaysBeforeMonth(year, 12) == DaysBeforeMonth(year, 10) + 61;
  }

  /** The year that contains a day, found by stepping from a first guess. */
  function YearFrom(guess: int, day: int): (year: int)
    ensures DaysBeforeYear(year) <= day < DaysBeforeYear(year + 1)
    decreases if day < DaysBeforeYear(guess) then DaysBeforeYear(guess) - day
              else if DaysBeforeYear(guess + 1) <= day then day - DaysBeforeYear(guess + 1) + 1
              else 0
  {
    YearStep(guess - 1);
    YearStep(guess);
    YearStep(guess + 1);
    if day < DaysBeforeYear(guess) then YearFrom(guess - 1, day)
    else if DaysBeforeYear(guess + 1) <= day then YearFrom(guess + 1, day)
    else guess
  }

  function MonthFrom(year: int, guess: int, dayOfYear: int): (month: int)
    requires 0 <= guess < 12
    requires DaysBeforeMonth(year, guess) <= dayOfYear < DaysBeforeMonth(year, 12)
    ensures 0 <= month < 12
    ensures DaysBeforeMonth(year, month) <= dayOfYear < DaysBeforeMonth(year, month + 1)
    decreases 12 - guess
  {
    if dayOfYear < DaysBeforeMonth(year, guess + 1) then guess
    else MonthFrom(year, guess + 1, dayOfYear)
  }

  /** The civil date of a day number: the inverse of DayNumber. */
  function DateOf(day: int): (date: Date)
    ensures date.Valid() && DayNumber(date) == day
  {
    var year := YearFrom(1970, day);
    YearStep(year);
    TwelveMonths(year);
    var rest := day - DaysBeforeYear(year);
    var month := MonthFrom(year, 0, rest);
    Date(year, month, rest - DaysBeforeMonth(year, month) + 1)
  }

  /** Dates of earlier months have smaller day numbers. */
  lemma MonthOrder(d1: Date, d2: Date)
    requires d1.Valid() && d2.Valid()
    requires d1.MonthIndex() < d2.MonthIndex()
    ensures DayNumber(d1) < DayNumber(d2.(day := 1)) <= DayNumber(d2)
    ensures DayNumber(d1) < DayNumber(Date(d2.year, 0, 1)) || d1.year == d2.year
  {
    MonthsMonotone(d1.year, d1.month + 1, 12);
    TwelveMonths(d1.year);
    YearStep(d1.year);
    MonthsMonotone(d2.year, 0, d2.month);
    if d1.year < d2.year {
      YearsMonotone(d1.year + 1, d2.year);
    } else {
      MonthsMonotone(d2.year, d1.month + 1, d2.month);
    }
  }

  /** A date is earlier, by year, month and day, exactly when its day number is smaller. */
  lemma DateOrder(d1: Date, d2: Date)
    requires d1.Valid() && d2.Valid()
    ensures DayNumber(d1) < DayNumber(d2) <==>
      if d1.year != d2.year then d1.year < d2.year
      else if d1.month != d2.month then d1.month < d2.month
      else d1.day < d2.day
  {
    if d1.MonthIndex() < d2.MonthIndex() {
      MonthOrder(d1, d2);
    } else if d2.MonthIndex() < d1.MonthIndex() {
      MonthOrder(d2, d1);
    }
  }

  /** A valid date is determined by its day number. */
  lemma DateRoundTrip(date: Date)
    requires date.Valid()
    ensures DateOf(DayNumber(date)) == date
  {
    SameDaySameDate(DateOf(DayNumber(date)), date);
  }

  lemma SameDaySameDate(d1: Date, d2: Date)
    requires d1.Valid() && d2.Valid() && DayNumber(d1) == DayNumber(d2)
    ensures d1 == d2
  {
    if d1.MonthIndex() < d2.MonthIndex() {
      MonthOrder(d1, d2);
    } else if d2.MonthIndex() < d1.MonthIndex() {
      MonthOrder(d2, d1);
    } else {
      assert d1.year == d2.year && d1.month == d2.month;
    }
  }

  // ----- the C library's broken-down time --------------------------------------------

  datatype Tm = Tm(sec: int, min: int, hour: int, mday: int, mon: int, year: int, wday: int)

  function LocalDay(time: int, tz: int): int {
    (time + tz) / DAY
  }

  /** Midnight of `day`, in seconds since the epoch. */
  function Midnight(day: int, tz: int): int {
    DAY * day - tz
  }

  lemma BeforeMidnight(time: int, day: int, tz: int)
    ensures time < Midnight(day, tz) <==> LocalDay(time, tz) < day
  {
  }

  lemma LocalDayMonotone(earlier: int, later: int, tz: int)
    requires earlier <= later
    ensures LocalDay(earlier, tz) <= LocalDay(later, tz)
  {
  }

  /** The fields for a second of a day; 1970-01-01 was a Thursday. */
  function BrokenDown(day: int, date: Date, second: int): Tm {
    Tm(second % 60, second / 60 % 60, second / 3600, date.day, date.month, date.year - 1900, (day + 4) % 7)
  }

  /** `localtime`. */
  function LocalTime(time: int, tz: int): Tm {
    var day := LocalDay(time, tz);
    BrokenDown(day, DateOf(day), (time + tz) % DAY)
  }

  /** The first day of a month given by a possibly out-of-range month number. */
  function FirstOfMonth(year: int, mon: int): (first: Date)
    ensures first.Valid() && first.day == 1 && first.MonthIndex() == 12 * year + mon
    decreases if mon < 0 then 12 - mon else mon
  {
    if mon < 0 then FirstOfMonth(year - 1, mon + 12)
    else if 12 <= mon then FirstOfMonth(year + 1, mon - 12)
    else Date(year, mon, 1)
  }

  /** The day number of possibly out-of-range fields: section 7.27.2.3 of ISO/IEC 9899:2011. */
  function NormalisedDay(year: int, mon: int, mday: int): int {
    DayNumber(FirstOfMonth(year, mon)) + mday - 1
  }

  /** The value that `mktime` returns. */
  function MkTime(tm: Tm, tz: int): int {
    DAY * NormalisedDay(tm.year + 1900, tm.mon, tm.mday) + 3600 * tm.hour + 60 * tm.min + tm.sec - tz
  }

  /** What `mktime` leaves in its argument: the same moment, with every field in range. */
  function Normalised(tm: Tm, tz: int): Tm {
    LocalTime(MkTime(tm, tz), tz)
  }

  lemma ClockRoundTrip(second: int)
    requires 0 <= second
    ensures second == 3600 * (second / 3600) + 60 * (second / 60 % 60) + second % 60
  {
    assert second / 60 / 60 == second / 3600;
  }

  lemma NormalisedDayOfDate(date: Date)
    requires date.Valid()
    ensures NormalisedDay(date.year, date.month, date.day) == DayNumber(date)
  {
  }

  /** `mktime` undoes `localtime`, so normalising a time that came from the clock changes nothing. */
  lemma MkTimeRoundTrip(time: int, tz: int)
    ensures MkTime(LocalTime(time, tz), tz) == time
    ensures Normalised(LocalTime(time, tz), tz) == LocalTime(time, tz)
  {
    ClockRoundTrip((time + tz) % DAY);
    NormalisedDayOfDate(DateOf(LocalDay(time, tz)));
  }
}
