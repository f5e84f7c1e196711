/** The ten buckets into which the transfer history is split (`DatabaseUtils`). */
module TimeBuckets {
  import opened Calendar
  import opened Options

  datatype TimeSpec =
    | IN_THE_FUTURE | TODAY | YESTERDAY | THIS_WEEK | LAST_WEEK
    | THIS_MONTH | LAST_MONTH | THIS_YEAR | LAST_YEAR | BEFORE_LAST_YEAR
  {
    /** The position of the bucket in the enumeration, and of its group on the screen. */
    function Index(): nat {
      match this
      case IN_THE_FUTURE => 0
      case TODAY => 1
      case YESTERDAY => 2
      case THIS_WEEK => 3
      case LAST_WEEK => 4
      case THIS_MONTH => 5
      case LAST_MONTH => 6
      case THIS_YEAR => 7
      case LAST_YEAR => 8
      case BEFORE_LAST_YEAR => 9
    }
  }

  const TIME_SPECS: seq<TimeSpec> :=
    [IN_THE_FUTURE, TODAY, YESTERDAY, THIS_WEEK, LAST_WEEK,
     THIS_MONTH, LAST_MONTH, THIS_YEAR, LAST_YEAR, BEFORE_LAST_YEAR]

  /** What a printed condition means: `field >= from` and `field < until`, each if present. */
  datatype Condition = Condition(from: Option<int>, until: Option<int>) {
    predicate Holds(timestamp: int) {
      && (from.Some? ==> from.value <= timestamp)
      && (until.Some? ==> timestamp < until.value)
    }
  }

  function Min(a: int, b: int): int {
    if b < a then b else a
  }

  // ----- what the buckets are for ------------------------------------------------------

  /** Weeks run from Monday to Sunday; day -3 was Monday 1969-12-29. */
  function WeekOf(day: int): int {
    (day + 3) / 7
  }

  /** The bucket a reader of a calendar would put `day`, whose date is `d`, into. */
  function CalendarBucket(today: int, t: Date, day: int, d: Date): TimeSpec {
    if today < day then IN_THE_FUTURE
    else if day == today then TODAY
    else if day == today - 1 then YESTERDAY
    else if WeekOf(day) == WeekOf(today) then THIS_WEEK
    else if WeekOf(day) == WeekOf(today) - 1 then LAST_WEEK
    else if d.MonthIndex() == t.MonthIndex() then THIS_MONTH
    else if d.MonthIndex() == t.MonthIndex() - 1 then LAST_MONTH
    else if d.year == t.year then THIS_YEAR
    else if d.year == t.year - 1 then LAST_YEAR
    else BEFORE_LAST_YEAR
  }

  function BucketOfDay(today: int, day: int): TimeSpec {
    CalendarBucket(today, DateOf(today), day, DateOf(day))
  }

  function BucketOf(current: int, timestamp: int, tz: int): TimeSpec {
    BucketOfDay(LocalDay(current, tz), LocalDay(timestamp, tz))
  }

  // ----- the day boundaries ------------------------------------------------------------

  /** The first day of the month before the one `date` lies in. */
  function LastMonth(date: Date): Date {
    if date.month == 0 then Date(date.year - 1, 11, 1) else Date(date.year, date.month - 1, 1)
  }

  /** The days at which the buckets change, newest first. */
  datatype Boundaries = Boundaries(today: int, monday: int, month: int, lastMonth: int, year: int, lastYear: int) {
    predicate Ordered() {
      && today - 7 < monday <= today
      && month <= today
      && lastMonth + 28 <= month
      && year <= month
      && lastYear <= lastMonth
      && lastYear < year
    }

    function Bucket(day: int): TimeSpec {
      if today < day then IN_THE_FUTURE
      else if today <= day then TODAY
      else if today - 1 <= day then YESTERDAY
      else if monday <= day then THIS_WEEK
      else if monday - 7 <= day then LAST_WEEK
      else if month <= day then THIS_MONTH
      else if lastMonth <= day then LAST_MONTH
      else if year <= day then THIS_YEAR
      else if lastYear <= day then LAST_YEAR
      else BEFORE_LAST_YEAR
    }
  }

  function BoundariesAt(today: int, date: Date): Boundaries
    requires date.Valid()
  {
    Boundaries(
      today,
      today - (today + 3) % 7,
      DayNumber(date.(day := 1)),
      DayNumber(LastMonth(date)),
      DayNumber(Date(date.year, 0, 1)),
      DayNumber(Date(date.year - 1, 0, 1)))
  }

  function BoundariesOf(today: int): Boundaries {
    BoundariesAt(today, DateOf(today))
  }

  /** A day lies in or after a month exactly when it is not before the month's first day. */
  lemma MonthBoundary(first: Date, day: int)
    requires first.Valid() && first.day == 1
    ensures DayNumber(first) <= day <==> first.MonthIndex() <= DateOf(day).MonthIndex()
  {
    var d := DateOf(day);
    if d.MonthIndex() < first.MonthIndex() {
      MonthOrder(d, first);
    } else if first.MonthIndex() < d.MonthIndex() {
      MonthOrder(first, d);
    } else {
      assert d.year == first.year && d.month == first.month;
    }
  }

  lemma YearBoundary(year: int, day: int)
    ensures DayNumber(Date(year, 0, 1)) <= day <==> year <= DateOf(day).year
  {
    MonthBoundary(Date(year, 0, 1), day);
  }

  /** Two month starts are ordered like their months, and adjacent ones at least 28 days apart. */
  lemma MonthStartOrder(first: Date, second: Date)
    requires first.Valid() && second.Valid() && first.day == second.day == 1
    requires first.MonthIndex() <= second.MonthIndex()
    ensures DayNumber(first) <= DayNumber(second)
    ensures first.MonthIndex() < second.MonthIndex() ==> DayNumber(first) + 28 <= DayNumber(second)
  {
    if first.MonthIndex() < second.MonthIndex() {
      MonthOrder(first.(day := 28), second);
    } else {
      assert first == second;
    }
  }

  lemma BoundariesAreOrdered(today: int)
    ensures BoundariesOf(today).Ordered()
  {
    var date := DateOf(today);
    MonthBoundary(date.(day := 1), today);
    MonthStartOrder(LastMonth(date), date.(day := 1));
    MonthStartOrder(Date(date.year, 0, 1), date.(day := 1));
    MonthStartOrder(Date(date.year - 1, 0, 1), LastMonth(date));
    MonthStartOrder(Date(date.year - 1, 0, 1), Date(date.year, 0, 1));
  }

  lemma WeekBoundary(today: int, day: int)
    ensures WeekOf(day) == WeekOf(today) <==> 0 <= day - (today - (today + 3) % 7) < 7
    ensures WeekOf(day) == WeekOf(today) - 1 <==> -7 <= day - (today - (today + 3) % 7) < 0
  {
  }

  /** `b` separates the months, years and weeks around `today` as the calendar does, as far
      as `day` is concerned. */
  predicate Separates(b: Boundaries, today: int, t: Date, day: int, d: Date) {
    && b.today == today
    && (day < today ==> d.MonthIndex() <= t.MonthIndex())
    && b.monday == today - (today + 3) % 7
    && (b.month <= day <==> t.MonthIndex() <= d.MonthIndex())
    && (b.lastMonth <= day <==> t.MonthIndex() - 1 <= d.MonthIndex())
    && (b.year <= day <==> t.year <= d.year)
    && (b.lastYear <= day <==> t.year - 1 <= d.year)
    && t.Valid() && d.Valid()
  }

  lemma CalendarBucketByBoundaries(b: Boundaries, today: int, t: Date, day: int, d: Date)
    requires Separates(b, today, t, day, d)
    ensures CalendarBucket(today, t, day, d) == b.Bucket(day)
  {
    WeekBoundary(today, day);
  }

  lemma BoundariesSeparate(today: int, day: int)
    ensures Separates(BoundariesOf(today), today, DateOf(today), day, DateOf(day))
  {
    hide DaysBeforeYear, DaysBeforeMonth;
    var t, d := DateOf(today), DateOf(day);
    assert day < today ==> d.MonthIndex() <= t.MonthIndex() by {
      if t.MonthIndex() < d.MonthIndex() {
        MonthOrder(t, d);
      }
    }
    MonthBoundary(t.(day := 1), day);
    MonthBoundary(LastMonth(t), day);
    YearBoundary(t.year, day);
    YearBoundary(t.year - 1, day);
  }

  /** The bucket of a day, by comparing the day with the boundaries alone. */
  lemma BucketByBoundaries(today: int, day: int)
    ensures BucketOfDay(today, day) == BoundariesOf(today).Bucket(day)
  {
    BoundariesSeparate(today, day);
    CalendarBucketByBoundaries(BoundariesOf(today), today, DateOf(today), day, DateOf(day));
  }

  lemma BoundariesMonotone(b: Boundaries, earlier: int, later: int)
    requires earlier <= later
    ensures b.Bucket(later).Index() <= b.Bucket(earlier).Index()
  {
  }

  lemma LaterDaysInEarlierGroups(today: int, earlier: int, later: int)
    requires earlier <= later
    ensures BucketOfDay(today, later).Index() <= BucketOfDay(today, earlier).Index()
  {
    BucketByBoundaries(today, earlier);
    BucketByBoundaries(today, later);
    BoundariesMonotone(BoundariesOf(today), earlier, later);
  }

  /** Older timestamps never move to an earlier group. */
  lemma BucketsMonotone(current: int, earlier: int, later: int, tz: int)
    requires earlier <= later
    ensures BucketOf(current, later, tz).Index() <= BucketOf(current, earlier, tz).Index()
  {
    LocalDayMonotone(earlier, later, tz);
    LaterDaysInEarlierGroups(LocalDay(current, tz), LocalDay(earlier, tz), LocalDay(later, tz));
  }

  // ----- the source's computation ------------------------------------------------------

  function SetMidnight(tm: Tm): Tm {
    tm.(hour := 0, min := 0, sec := 0)
  }

  /** Moves `mday` back to Monday, possibly below 1. */
  function GetWeekStart(tm: Tm): Tm {
    var wday := if tm.wday == 0 then 7 else tm.wday;
    tm.(wday := wday, mday := tm.mday - (wday - 1))
  }

  function GetMonthStart(tm: Tm): Tm {
    tm.(mday := 1)
  }

  function GetYearStart(tm: Tm): Tm {
    GetMonthStart(tm).(mon := 0)
  }

  lemma MidnightFields(current: int, tz: int)
    ensures SetMidnight(LocalTime(current, tz)) == BrokenDown(LocalDay(current, tz), DateOf(LocalDay(current, tz)), 0)
  {
  }

  lemma LocalMidnight(day: int, tz: int)
    ensures LocalDay(Midnight(day, tz), tz) == day && (Midnight(day, tz) + tz) % DAY == 0
  {
  }

  lemma MkTimeOfMidnight(tm: Tm, day: int, tz: int)
    requires tm.hour == tm.min == tm.sec == 0
    requires NormalisedDay(tm.year + 1900, tm.mon, tm.mday) == day
    ensures MkTime(tm, tz) == Midnight(day, tz)
    ensures Normalised(tm, tz) == BrokenDown(day, DateOf(day), 0)
  {
    LocalMidnight(day, tz);
  }

  /** Moving `mday` to Monday, possibly out of the month, moves the day to Monday. */
  lemma WeekStartDay(day: int, date: Date, tz: int)
    requires date.Valid() && DayNumber(date) == day
    ensures MkTime(GetWeekStart(BrokenDown(day, date, 0)), tz) == Midnight(day - (day + 3) % 7, tz)
  {
    hide DayNumber, FirstOfMonth, Normalised, MkTime, DateOf;
    NormalisedDayOfDate(date);
    var tm := GetWeekStart(BrokenDown(day, date, 0));
    assert tm.mday == date.day - (day + 3) % 7;
    MkTimeOfMidnight(tm, day - (day + 3) % 7, tz);
  }

  lemma DateTime(tm: Tm, date: Date, tz: int)
    requires date.Valid()
    requires tm == Tm(0, 0, 0, date.day, date.month, date.year - 1900, tm.wday)
    ensures MkTime(tm, tz) == Midnight(DayNumber(date), tz)
  {
    NormalisedDayOfDate(date);
    MkTimeOfMidnight(tm, DayNumber(date), tz);
  }

  /** `mktime` as the library has it: it also normalises its argument, here the midnight of a date. */
  method MkTimeInPlace(tm: Tm, tz: int, ghost date: Date) returns (time: int, normalised: Tm)
    requires date.Valid()
    requires tm == Tm(0, 0, 0, date.day, date.month, date.year - 1900, tm.wday)
    ensures time == MkTime(tm, tz) == Midnight(DayNumber(date), tz)
    ensures normalised == BrokenDown(DayNumber(date), date, 0)
  {
    NormalisedDayOfDate(date);
    DateRoundTrip(date);
    MkTimeOfMidnight(tm, DayNumber(date), tz);
    time, normalised := MkTime(tm, tz), Normalised(tm, tz);
  }

  method WeekStartTime(tm: Tm, tz: int, ghost day: int, ghost date: Date) returns (time: int)
    requires date.Valid() && DayNumber(date) == day
    requires tm == BrokenDown(day, date, 0)
    ensures time == Midnight(day - (day + 3) % 7, tz)
  {
    WeekStartDay(day, date, tz);
    time := MkTime(GetWeekStart(tm), tz);
  }

  /** `tm_mon - 1` is the previous month, also when that is month -1. */
  lemma LastMonthDay(tm: Tm, first: Date, tz: int)
    requires first.Valid() && first.day == 1
    requires tm == Tm(0, 0, 0, 1, first.month - 1, first.year - 1900, tm.wday)
    ensures MkTime(tm, tz) == Midnight(DayNumber(LastMonth(first)), tz)
  {
    assert FirstOfMonth(first.year, first.month - 1) == LastMonth(first);
    MkTimeOfMidnight(tm, DayNumber(LastMonth(first)), tz);
  }

  /** The condition of a bucket, in terms of the day boundaries. */
  function ConditionOf(b: Boundaries, spec: TimeSpec, tz: int): Condition {
    match spec
    case IN_THE_FUTURE => Condition(Some(Midnight(b.today + 1, tz)), None)
    case TODAY => Between(b.today, b.today + 1, tz)
    case YESTERDAY => Between(b.today - 1, b.today, tz)
    case THIS_WEEK => Between(b.monday, b.today - 1, tz)
    case LAST_WEEK => Between(b.monday - 7, Min(b.today - 1, b.monday), tz)
    case THIS_MONTH => Between(b.month, b.monday - 7, tz)
    case LAST_MONTH => Between(b.lastMonth, Min(b.month, b.monday - 7), tz)
    case THIS_YEAR => Between(b.year, b.lastMonth, tz)
    case LAST_YEAR => Between(b.lastYear, Min(b.year, b.lastMonth), tz)
    case BEFORE_LAST_YEAR => Condition(None, Some(Midnight(b.lastYear, tz)))
  }

  function Between(from: int, until: int, tz: int): Condition {
    Condition(Some(Midnight(from, tz)), Some(Midnight(until, tz)))
  }

  lemma HoldsByDay(b: Boundaries, spec: TimeSpec, timestamp: int, tz: int)
    requires b.Ordered()
    ensures ConditionOf(b, spec, tz).Holds(timestamp) <==> b.Bucket(LocalDay(timestamp, tz)) == spec
  {
    assert forall day {:trigger Midnight(day, tz)} ::
      timestamp < Midnight(day, tz) <==> LocalDay(timestamp, tz) < day by {
      forall day {
        BeforeMidnight(timestamp, day, tz);
      }
    }
  }

  /** A timestamp satisfies a bucket's condition exactly when a calendar puts it there: the
      ten conditions leave no gap and do not overlap. */
  lemma ConditionMeansBucket(spec: TimeSpec, current: int, timestamp: int, tz: int)
    ensures ConditionOf(BoundariesOf(LocalDay(current, tz)), spec, tz).Holds(timestamp)
       <==> BucketOf(current, timestamp, tz) == spec
  {
    var today := LocalDay(current, tz);
    BoundariesAreOrdered(today);
    HoldsByDay(BoundariesOf(today), spec, timestamp, tz);
    BucketByBoundaries(today, LocalDay(timestamp, tz));
  }

  /** `getSpecSQLCondition`: a timestamp satisfies the condition of a bucket exactly when a
      calendar puts it there, so every timestamp satisfies exactly one of the ten. */
  method GetSpecSQLCondition(spec: TimeSpec, current: int, now: int, tz: int) returns (condition: Condition)
    ensures forall timestamp ::
      condition.Holds(timestamp) <==> BucketOf(if current == 0 then now else current, timestamp, tz) == spec
    ensures condition == ConditionOf(BoundariesOf(LocalDay(if current == 0 then now else current, tz)), spec, tz)
  {
    var time := current;
    if time == 0 {
      time := now;
    }
    var currTime := SetMidnight(LocalTime(time, tz));
    MidnightFields(time, tz);
    condition := ConditionAtMidnight(spec, currTime, tz, LocalDay(time, tz), DateOf(LocalDay(time, tz)));
    forall timestamp
      ensures condition.Holds(timestamp) <==> BucketOf(time, timestamp, tz) == spec
    {
      ConditionMeansBucket(spec, time, timestamp, tz);
    }
  }

  method ConditionAtMidnight(spec: TimeSpec, midnight: Tm, tz: int, ghost day: int, ghost date: Date)
    returns (condition: Condition)
    requires date.Valid() && DayNumber(date) == day
    requires midnight == BrokenDown(day, date, 0)
    ensures condition == ConditionOf(BoundariesAt(day, date), spec, tz)
  {
    hide DayNumber, FirstOfMonth, NormalisedDay, Normalised, MkTime, LocalTime, LocalDay;
    var currTime := midnight;
    DateTime(currTime, date, tz);

    match spec {
      case IN_THE_FUTURE =>
        var today := MkTime(currTime, tz);
        condition := Condition(Some(today + DAY), None);
      case TODAY =>
        var greaterThan := MkTime(currTime, tz);
        condition := Condition(Some(greaterThan), Some(greaterThan + DAY));
      case YESTERDAY =>
        var lessThan := MkTime(currTime, tz);
        condition := Condition(Some(lessThan - DAY), Some(lessThan));
      case THIS_WEEK =>
        var today;
        today, currTime := MkTimeInPlace(currTime, tz, date);
        var weekStart := WeekStartTime(currTime, tz, day, date);
        condition := Condition(Some(weekStart), Some(today - DAY));
      case LAST_WEEK =>
        var today;
        today, currTime := MkTimeInPlace(currTime, tz, date);
        var weekStart := WeekStartTime(currTime, tz, day, date);
        // On Monday, yesterday is earlier than the start of the week.
        condition := Condition(Some(weekStart - 7 * DAY), Some(Min(today - DAY, weekStart)));
      case THIS_MONTH =>
        var weekStart := WeekStartTime(currTime, tz, day, date);
        var lastWeekStart := weekStart - 7 * DAY;
        DateTime(GetMonthStart(currTime), date.(day := 1), tz);
        var monthStart := MkTime(GetMonthStart(currTime), tz);
        condition := Condition(Some(monthStart), Some(lastWeekStart));
      case LAST_MONTH =>
        var weekStart := WeekStartTime(currTime, tz, day, date);
        var lastWeekStart := weekStart - 7 * DAY;
        var monthStart := GetMonthStart(currTime);
        var monthStartTime;
        monthStartTime, monthStart := MkTimeInPlace(monthStart, tz, date.(day := 1));
        monthStart := monthStart.(mon := monthStart.mon - 1);
        LastMonthDay(monthStart, date.(day := 1), tz);
        // The last week may lie in the previous month.
        condition := Condition(Some(MkTime(monthStart, tz)), Some(Min(monthStartTime, lastWeekStart)));
      case _ =>
        condition := YearCondition(spec, currTime, tz, day, date);
    }
  }

  /** The last three cases. */
  method YearCondition(spec: TimeSpec, midnight: Tm, tz: int, ghost day: int, ghost date: Date)
    returns (condition: Condition)
    requires spec in {THIS_YEAR, LAST_YEAR, BEFORE_LAST_YEAR}
    requires date.Valid() && DayNumber(date) == day
    requires midnight == BrokenDown(day, date, 0)
    ensures condition == ConditionOf(BoundariesAt(day, date), spec, tz)
  {
    hide DayNumber, FirstOfMonth, NormalisedDay, Normalised, MkTime, LocalTime, LocalDay;
    var currTime := midnight;

    match spec {
      case THIS_YEAR =>
        var monthStart := GetMonthStart(currTime);
        monthStart := monthStart.(mon := monthStart.mon - 1);
        LastMonthDay(monthStart, date.(day := 1), tz);
        var lastMonthStart := MkTime(monthStart, tz);
        DateTime(GetYearStart(currTime), Date(date.year, 0, 1), tz);
        condition := Condition(Some(MkTime(GetYearStart(currTime), tz)), Some(lastMonthStart));
      case LAST_YEAR =>
        var monthStart := GetMonthStart(currTime);
        monthStart := monthStart.(mon := monthStart.mon - 1);
        LastMonthDay(monthStart, date.(day := 1), tz);
        var lastMonthStart := MkTime(monthStart, tz);
        var yearStart := GetYearStart(currTime);
        var yearStartTime;
        yearStartTime, yearStart := MkTimeInPlace(yearStart, tz, Date(date.year, 0, 1));
        yearStart := yearStart.(year := yearStart.year - 1);
        DateTime(yearStart, Date(date.year - 1, 0, 1), tz);
        // In January, the previous month lies in the previous year.
        condition := Condition(Some(MkTime(yearStart, tz)), Some(Min(yearStartTime, lastMonthStart)));
      case BEFORE_LAST_YEAR =>
        var yearStart := GetYearStart(currTime);
        yearStart := yearStart.(year := yearStart.year - 1);
        DateTime(yearStart, Date(date.year - 1, 0, 1), tz);
        condition := Condition(None, Some(MkTime(yearStart, tz)));
    }
  }
}
