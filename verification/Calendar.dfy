/** Gregorian calendar arithmetic in UTC (section 21.4.1 of ECMA-262), on days and minutes
    counted from 1 January 1970. */
module Calendar {
  predicate IsLeap(y: int) {
    y % 4 == 0 && (y % 100 != 0 || y % 400 == 0)
  }

  function DaysInYear(y: int): int {
    if IsLeap(y) then 366 else 365
  }

  /** The day number of 1 January of year `y`. */
  function DayFromYear(y: int): int {
    365 * (y - 1970) + Fourths(y) - Centuries(y) + FourthCenturies(y)
  }

  function Fourths(y: int): int {
    (y - 1969) / 4
  }

  function Centuries(y: int): int {
    (y - 1901) / 100
  }

  function FourthCenturies(y: int): int {
    (y - 1601) / 400
  }

  lemma FourthsStep(y: int)
    ensures Fourths(y + 1) == Fourths(y) + if y % 4 == 0 then 1 else 0
  {
  }

  lemma CenturiesStep(y: int)
    ensures Centuries(y + 1) == Centuries(y) + if y % 100 == 0 then 1 else 0
  {
  }

  lemma FourthCenturiesStep(y: int)
    ensures FourthCenturies(y + 1) == FourthCenturies(y) + if y % 400 == 0 then 1 else 0
  {
  }

  lemma CenturyIsFourth(y: int)
    ensures y % 400 == 0 ==> y % 100 == 0
    ensures y % 100 == 0 ==> y % 4 == 0
  {
  }

  /** Consecutive years are as far apart as the year is long. */
  lemma YearLength(y: int)
    ensures DayFromYear(y + 1) == DayFromYear(y) + DaysInYear(y)
  {
    hide Fourths, Centuries, FourthCenturies;
    FourthsStep(y);
    CenturiesStep(y);
    FourthCenturiesStep(y);
    CenturyIsFourth(y);
  }

  lemma {:induction false} YearsIncrease(y: int, z: int)
    requires y <= z
    ensures DayFromYear(y) + 365 * (z - y) <= DayFromYear(z)
    decreases z - y
  {
    if y < z {
      YearLength(z - 1);
      YearsIncrease(y, z - 1);
    }
  }

  /** The year a day lies in, searched upwards from a year that does not start after the day. */
  function SearchYear(day: int, y: int): (r: int)
    requires DayFromYear(y) <= day
    ensures DayFromYear(r) <= day < DayFromYear(r + 1)
    decreases day - DayFromYear(y)
  {
    YearLength(y);
    if DayFromYear(y + 1) <= day then SearchYear(day, y + 1) else y
  }

  lemma EstimateIsEarly(day: int)
    ensures DayFromYear(if day >= 0 then 1970 + day / 366 else 1970 + day / 365 - 1) <= day
  {
  }

  function YearOf(day: int): (y: int)
    ensures DayFromYear(y) <= day < DayFromYear(y + 1)
  {
    EstimateIsEarly(day);
    SearchYear(day, if day >= 0 then 1970 + day / 366 else 1970 + day / 365 - 1)
  }

  /** Days of the year before the first of the month; month 13 is the end of the year. */
  function DaysBeforeMonth(month: int, leap: bool): int
    requires 1 <= month <= 13
  {
    var shift := if leap && month >= 3 then 1 else 0;
    shift + [0, 31, 59, 90, 120, 151, 181, 212, 243, 273, 304, 334, 365][month - 1]
  }

  function DaysInMonth(month: int, leap: bool): int
    requires 1 <= month <= 12
  {
    DaysBeforeMonth(month + 1, leap) - DaysBeforeMonth(month, leap)
  }

  function SearchMonth(dayInYear: int, leap: bool, month: int): (m: int)
    requires 1 <= month <= 12 && DaysBeforeMonth(month, leap) <= dayInYear < DaysBeforeMonth(13, leap)
    ensures 1 <= m <= 12 && DaysBeforeMonth(m, leap) <= dayInYear < DaysBeforeMonth(m + 1, leap)
    decreases 12 - month
  {
    if month == 12 || dayInYear < DaysBeforeMonth(month + 1, leap) then month
    else SearchMonth(dayInYear, leap, month + 1)
  }

  function DayInYear(day: int): (d: int)
    ensures 0 <= d < DaysBeforeMonth(13, IsLeap(YearOf(day)))
  {
    YearLength(YearOf(day));
    day - DayFromYear(YearOf(day))
  }

  /** `getUTCMonth() + 1` */
  function MonthOf(day: int): (m: int)
    ensures 1 <= m <= 12
  {
    SearchMonth(DayInYear(day), IsLeap(YearOf(day)), 1)
  }

  /** `getUTCDate()` */
  function DateOf(day: int): (d: int)
    ensures 1 <= d <= DaysInMonth(MonthOf(day), IsLeap(YearOf(day)))
  {
    DayInYear(day) - DaysBeforeMonth(MonthOf(day), IsLeap(YearOf(day))) + 1
  }

  /** `getUTCDay()`: 1 January 1970 was a Thursday. */
  function WeekDayOf(day: int): int {
    (day + 4) % 7
  }

  predicate IsDate(y: int, month: int, date: int) {
    1 <= month <= 12 && 1 <= date <= DaysInMonth(month, IsLeap(y))
  }

  function DayOfDate(y: int, month: int, date: int): int
    requires IsDate(y, month, date)
  {
    DayFromYear(y) + DaysBeforeMonth(month, IsLeap(y)) + date - 1
  }

  lemma YearUnique(day: int, y: int)
    requires DayFromYear(y) <= day < DayFromYear(y + 1)
    ensures YearOf(day) == y
  {
    hide DayFromYear;
    var z := YearOf(day);
    if y < z {
      YearsIncrease(y + 1, z);
    } else if z < y {
      YearsIncrease(z + 1, y);
    }
  }

  lemma MonthUnique(d: int, leap: bool, m: int, n: int)
    requires 1 <= m <= 12 && DaysBeforeMonth(m, leap) <= d < DaysBeforeMonth(m + 1, leap)
    requires 1 <= n <= 12 && DaysBeforeMonth(n, leap) <= d < DaysBeforeMonth(n + 1, leap)
    ensures m == n
  {
  }

  /** Year, month and date recover the date a day number was made from. */
  lemma DateRoundTrip(y: int, month: int, date: int)
    requires IsDate(y, month, date)
    ensures var day := DayOfDate(y, month, date);
            YearOf(day) == y && MonthOf(day) == month && DateOf(day) == date
  {
    var day := DayOfDate(y, month, date);
    YearLength(y);
    MonthsFit(month, IsLeap(y));
    YearUnique(day, y);
    MonthUnique(DayInYear(day), IsLeap(y), MonthOf(day), month);
  }

  lemma MonthsFit(month: int, leap: bool)
    requires 1 <= month <= 12
    ensures 0 <= DaysBeforeMonth(month, leap) < DaysBeforeMonth(month + 1, leap) <= if leap then 366 else 365
  {
  }

  /** A date that exists in every year recurs within any 366 consecutive days. */
  lemma DateRecurs(day: int, month: int, date: int) returns (occurrence: int)
    requires IsDate(1970, month, date)
    ensures day <= occurrence <= day + 365
    ensures MonthOf(occurrence) == month && DateOf(occurrence) == date
  {
    hide *;
    var y := YearOf(day);
    CommonDateIsDate(y, month, date);
    CommonDateIsDate(y + 1, month, date);
    WithinYear(day, month, date);
    occurrence := DayOfDate(y, month, date);
    DateRoundTrip(y, month, date);
    if occurrence < day {
      occurrence := DayOfDate(y + 1, month, date);
      DateRoundTrip(y + 1, month, date);
    }
  }

  /** The occurrence in the day's own year is less than a year ahead, and if it is past, the one in
      the next year is. */
  lemma WithinYear(day: int, month: int, date: int)
    requires IsDate(1970, month, date)
    requires IsDate(YearOf(day), month, date) && IsDate(YearOf(day) + 1, month, date)
    ensures DayOfDate(YearOf(day), month, date) <= day + 365
    ensures DayOfDate(YearOf(day) + 1, month, date) >= day
    ensures DayOfDate(YearOf(day), month, date) < day ==> DayOfDate(YearOf(day) + 1, month, date) <= day + 365
  {
    hide DayFromYear, YearOf, IsLeap;
    var y := YearOf(day);
    MonthsFit(month, IsLeap(y));
    MonthsFit(month, IsLeap(y + 1));
    DateInYear(y, month, date);
    DateInYear(y + 1, month, date);
    YearLength(y);
    YearGap(y, month, date);
  }

  lemma DateInYear(y: int, month: int, date: int)
    requires IsDate(y, month, date)
    ensures 0 <= DayOfDate(y, month, date) - DayFromYear(y) < DaysInYear(y)
  {
    hide DayFromYear;
    MonthsFit(month, IsLeap(y));
  }

  /** 1970 is a common year: its dates exist in every year. */
  lemma CommonDateIsDate(y: int, month: int, date: int)
    requires IsDate(1970, month, date)
    ensures IsDate(y, month, date)
  {
  }

  lemma YearGap(y: int, month: int, date: int)
    requires IsDate(1970, month, date) && IsDate(y, month, date) && IsDate(y + 1, month, date)
    ensures DayOfDate(y + 1, month, date) - DayOfDate(y, month, date) <= 366
  {
    YearLength(y);
    LeapsApart(y);
  }

  lemma LeapsApart(y: int)
    ensures !(IsLeap(y) && IsLeap(y + 1))
  {
  }

  // ----- known lengths and dates

  lemma MonthLengths(leap: bool)
    ensures DaysInMonth(1, leap) == 31 && DaysInMonth(2, leap) == (if leap then 29 else 28)
    ensures DaysInMonth(3, leap) == 31 && DaysInMonth(4, leap) == 30 && DaysInMonth(5, leap) == 31
    ensures DaysInMonth(6, leap) == 30 && DaysInMonth(7, leap) == 31 && DaysInMonth(8, leap) == 31
    ensures DaysInMonth(9, leap) == 30 && DaysInMonth(10, leap) == 31 && DaysInMonth(11, leap) == 30
    ensures DaysInMonth(12, leap) == 31
  {
  }

  /** The day is that date and weekday, Sunday being 0. */
  predicate Falls(day: int, y: int, month: int, date: int, weekDay: int) {
    YearOf(day) == y && MonthOf(day) == month && DateOf(day) == date && WeekDayOf(day) == weekDay
  }

  lemma FallsOn(day: int, y: int, month: int, date: int, weekDay: int)
    requires IsDate(y, month, date) && DayOfDate(y, month, date) == day && (day + 4) % 7 == weekDay
    ensures Falls(day, y, month, date, weekDay)
  {
    DateRoundTrip(y, month, date);
    hide YearOf, MonthOf, DateOf;
  }

  /** The calendar at the epoch, before it, and around the leap days of 2000, 2024 and the missing one
      of 2100. */
  lemma KnownDates()
    ensures Falls(0, 1970, 1, 1, 4)
    ensures Falls(-1, 1969, 12, 31, 3)
    ensures Falls(11016, 2000, 2, 29, 2)
    ensures Falls(19782, 2024, 2, 29, 4)
    ensures Falls(47540, 2100, 2, 28, 0) && Falls(47541, 2100, 3, 1, 1)
  {
    hide Falls;
    FallsOn(0, 1970, 1, 1, 4);
    FallsOn(-1, 1969, 12, 31, 3);
    FallsOn(11016, 2000, 2, 29, 2);
    FallsOn(19782, 2024, 2, 29, 4);
    FallsOn(47540, 2100, 2, 28, 0);
    FallsOn(47541, 2100, 3, 1, 1);
  }

  // ----- the calendar repeats every 400 years

  /** The days of 400 years: a whole number of weeks. */
  const CYCLE := 146097

  lemma LeapDaysRepeat(y: int)
    ensures Fourths(y + 400) == Fourths(y) + 100
    ensures Centuries(y + 400) == Centuries(y) + 4
    ensures FourthCenturies(y + 400) == FourthCenturies(y) + 1
  {
  }

  lemma LeapRepeats(y: int)
    ensures IsLeap(y + 400) == IsLeap(y)
  {
    assert (y + 400) % 4 == y % 4;
    assert (y + 400) % 100 == y % 100;
  }

  lemma YearStartsRepeat(y: int)
    ensures DayFromYear(y + 400) == DayFromYear(y) + CYCLE && IsLeap(y + 400) == IsLeap(y)
  {
    LeapDaysRepeat(y);
    LeapRepeats(y);
    hide Fourths, Centuries, FourthCenturies, IsLeap;
  }

  lemma CalendarRepeats(day: int)
    ensures YearOf(day + CYCLE) == YearOf(day) + 400
    ensures MonthOf(day + CYCLE) == MonthOf(day) && DateOf(day + CYCLE) == DateOf(day)
    ensures WeekDayOf(day + CYCLE) == WeekDayOf(day)
  {
    hide DayFromYear, IsLeap, YearOf, SearchMonth;
    YearStartsRepeat(YearOf(day));
    YearStartsRepeat(YearOf(day) + 1);
    YearUnique(day + CYCLE, YearOf(day) + 400);
    assert DayInYear(day + CYCLE) == DayInYear(day);
    assert MonthOf(day + CYCLE) == MonthOf(day);
    hide DayInYear, MonthOf, DaysBeforeMonth;
    assert day + CYCLE + 4 == 7 * 20871 + (day + 4);
  }
}
