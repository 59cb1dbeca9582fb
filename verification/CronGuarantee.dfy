/** When the search for the next run succeeds from every starting moment. */
module CronGuarantee {
  import opened Wrappers
  import opened JsText
  import opened Calendar
  import opened CronFields
  import opened Cron

  predicate DayMatches(cron: Cron, day: int) {
    DateOf(day) in cron.dayOfMonth && MonthOf(day) in cron.month && WeekDayOf(day) in cron.dayOfWeek
  }

  ghost predicate DaySoon(cron: Cron, day: int) {
    exists d :: day <= d <= day + 365 && DayMatches(cron, d)
  }

  lemma MatchOnDay(cron: Cron, day: int, hour: int, minute: int)
    requires DayMatches(cron, day) && hour in cron.hour && minute in cron.minute
    requires 0 <= hour < 24 && 0 <= minute < 60
    ensures Matches(cron, day * 1440 + hour * 60 + minute)
  {
    hide DateOf, MonthOf, WeekDayOf;
    ClockOf(day, hour, minute);
  }

  lemma ClockOf(day: int, hour: int, minute: int)
    requires 0 <= hour < 24 && 0 <= minute < 60
    ensures var m := day * 1440 + hour * 60 + minute; m / 1440 == day && m / 60 % 24 == hour && m % 60 == minute
  {
    var m := day * 1440 + hour * 60 + minute;
    assert m / 60 == day * 24 + hour;
  }

  lemma Member<T>(values: set<T>) returns (v: T)
    requires values != {}
    ensures v in values
  {
    v :| v in values;
  }

  lemma Pick(values: set<int>, min: int, max: int) returns (v: int)
    requires Within(values, min, max)
    ensures v in values && min <= v <= max
  {
    v := Member(values);
  }

  /** A matching day in each of the two years that start today and tomorrow is a matching minute
      in the 366 days that start now. */
  lemma WindowHasMatch(cron: Cron, from: int)
    requires WellFormed(cron) && DaySoon(cron, from / 1440) && DaySoon(cron, from / 1440 + 1)
    ensures !NoMatch(cron, from, from + WINDOW)
  {
    hide Matches, DayMatches;
    var today := from / 1440;
    var hour := Pick(cron.hour, 0, 23);
    var minute := Pick(cron.minute, 0, 59);
    var d :| today <= d <= today + 365 && DayMatches(cron, d);
    MatchOnDay(cron, d, hour, minute);
    var m := d * 1440 + hour * 60 + minute;
    if m < from {
      var e :| today + 1 <= e <= today + 366 && DayMatches(cron, e);
      MatchOnDay(cron, e, hour, minute);
      var n := e * 1440 + hour * 60 + minute;
      assert from <= n < from + WINDOW && Matches(cron, n);
    } else {
      assert from <= m < from + WINDOW && Matches(cron, m);
    }
  }

  /** The expression has a next run after every moment. */
  ghost predicate AlwaysRuns(expression: string, accepts: string -> bool) {
    forall t: int :: NextRun(expression, Some(t), "UTC", accepts).Some?
  }

  lemma DailyIsAlways(expression: string, accepts: string -> bool)
    requires ParseCron(expression, accepts).Some?
    requires forall day :: DaySoon(ParseCron(expression, accepts).value, day)
    ensures AlwaysRuns(expression, accepts)
  {
    hide ParseCron, Matches, NoMatch, WellFormed, DaySoon;
    var cron := ParseCron(expression, accepts).value;
    ParsedIsWellFormed(expression, accepts);
    forall t: int ensures NextRun(expression, Some(t), "UTC", accepts).Some? {
      WindowHasMatch(cron, MinuteAfter(t));
      NextRunIsLeast(expression, t, accepts);
    }
  }

  // ----- any day of the week

  predicate AnyWeekDay(cron: Cron) {
    forall w :: 0 <= w <= 6 ==> w in cron.dayOfWeek
  }

  /** The month and day-of-month sets hold a date that exists every year: one other than 29
      February. */
  ghost predicate HasCommonDate(cron: Cron) {
    exists month, date :: month in cron.month && date in cron.dayOfMonth && IsDate(1970, month, date)
  }

  lemma CommonDateSoon(cron: Cron, day: int)
    requires AnyWeekDay(cron) && HasCommonDate(cron)
    ensures DaySoon(cron, day)
  {
    hide IsDate, DateOf, MonthOf;
    var month, date :| month in cron.month && date in cron.dayOfMonth && IsDate(1970, month, date);
    var d := DateRecurs(day, month, date);
    assert 0 <= WeekDayOf(d) <= 6;
    assert DayMatches(cron, d);
  }

  lemma YearsOfWindow(day: int)
    requires DayFromYear(2025) <= day < DayFromYear(2027)
    ensures !IsLeap(YearOf(day))
  {
    if day < DayFromYear(2026) {
      YearUnique(day, 2025);
    } else {
      YearUnique(day, 2026);
    }
  }

  /** The first minute of 1 March 2025. */
  function March2025(): int {
    (DayFromYear(2025) + 59) * 1440
  }

  /** Without a common date nothing runs in the 366 days from 1 March 2025. */
  lemma NothingWithoutCommonDate(cron: Cron)
    requires !HasCommonDate(cron)
    ensures NoMatch(cron, March2025(), March2025() + WINDOW)
  {
    hide DateOf, MonthOf, WeekDayOf, YearOf;
    var from := March2025();
    forall m | from <= m < from + WINDOW ensures !Matches(cron, m) {
      var day := m / 1440;
      YearsOfWindow(day);
      assert IsDate(1970, MonthOf(day), DateOf(day));
    }
  }

  /** With no restriction on the day of the week, there is a next run after every moment exactly
      when the expression names a date other than 29 February that exists. */
  lemma CalendarGuarantee(expression: string, accepts: string -> bool)
    requires ParseCron(expression, accepts).Some? && AnyWeekDay(ParseCron(expression, accepts).value)
    ensures AlwaysRuns(expression, accepts) <==> HasCommonDate(ParseCron(expression, accepts).value)
  {
    hide *;
    if HasCommonDate(ParseCron(expression, accepts).value) {
      CommonDateRuns(expression, accepts);
    } else {
      NoCommonDateMisses(expression, accepts);
    }
  }

  lemma CommonDateRuns(expression: string, accepts: string -> bool)
    requires ParseCron(expression, accepts).Some? && AnyWeekDay(ParseCron(expression, accepts).value)
    requires HasCommonDate(ParseCron(expression, accepts).value)
    ensures AlwaysRuns(expression, accepts)
  {
    hide *;
    forall day: int ensures DaySoon(ParseCron(expression, accepts).value, day) {
      CommonDateSoon(ParseCron(expression, accepts).value, day);
    }
    DailyIsAlways(expression, accepts);
  }

  lemma NoCommonDateMisses(expression: string, accepts: string -> bool)
    requires ParseCron(expression, accepts).Some? && !HasCommonDate(ParseCron(expression, accepts).value)
    ensures !AlwaysRuns(expression, accepts)
  {
    hide ParseCron, NoMatch, HasCommonDate, March2025, NextRun;
    var t := March2025() * MINUTE - MINUTE;
    assert MinuteAfter(t) == March2025();
    NothingWithoutCommonDate(ParseCron(expression, accepts).value);
    NextRunIsLeast(expression, t, accepts);
    assert NextRun(expression, Some(t), "UTC", accepts).None?;
  }

  // ----- any day of the month

  predicate AnyDate(cron: Cron) {
    forall date :: 1 <= date <= 31 ==> date in cron.dayOfMonth
  }

  lemma WeekDayWithin(day: int, weekDay: int) returns (d: int)
    requires 0 <= weekDay <= 6
    ensures day <= d <= day + 6 && WeekDayOf(d) == weekDay
  {
    d := day + (weekDay - WeekDayOf(day) + 7) % 7;
  }

  lemma FirstFourWeeks(y: int, month: int, day: int)
    requires 1 <= month <= 12
    requires IsDate(y, month, 1) && DayOfDate(y, month, 1) <= day < DayOfDate(y, month, 1) + 28
    ensures MonthOf(day) == month
  {
    hide DayFromYear, YearOf, MonthOf, DateOf;
    var date := day - DayOfDate(y, month, 1) + 1;
    assert IsDate(y, month, date);
    DateRoundTrip(y, month, date);
  }

  ghost predicate WeekLies(start: int, month: int) {
    forall d :: start <= d <= start + 6 ==> MonthOf(d) == month
  }

  lemma WeekOfFirstFour(y: int, month: int, start: int)
    requires 1 <= month <= 12
    requires IsDate(y, month, 1) && DayOfDate(y, month, 1) <= start <= DayOfDate(y, month, 1) + 21
    ensures WeekLies(start, month)
  {
    hide MonthOf, DayOfDate, IsDate;
    forall d | start <= d <= start + 6 ensures MonthOf(d) == month {
      FirstFourWeeks(y, month, d);
    }
  }

  lemma FirstIsDate(y: int, month: int)
    requires 1 <= month <= 12
    ensures IsDate(y, month, 1)
  {
    hide IsLeap;
  }

  /** Seven consecutive days of a month start at most 359 days from any day. */
  lemma WeekInMonth(day: int, month: int) returns (start: int)
    requires 1 <= month <= 12
    ensures day <= start <= day + 359 && WeekLies(start, month)
  {
    hide *;
    var y := YearOf(day);
    FirstIsDate(y, month);
    FirstIsDate(y + 1, month);
    var first, next := DayOfDate(y, month, 1), DayOfDate(y + 1, month, 1);
    FirstsApart(day, month);
    if day <= first {
      start := first;
      WeekOfFirstFour(y, month, start);
    } else if day <= first + 21 {
      start := day;
      WeekOfFirstFour(y, month, start);
    } else {
      start := next;
      WeekOfFirstFour(y + 1, month, start);
    }
  }

  lemma FirstsApart(day: int, month: int)
    requires 1 <= month <= 12
    requires IsDate(YearOf(day), month, 1) && IsDate(YearOf(day) + 1, month, 1)
    ensures DayOfDate(YearOf(day), month, 1) <= day + 335
    ensures day <= DayOfDate(YearOf(day) + 1, month, 1) <= DayOfDate(YearOf(day), month, 1) + 367
  {
    hide DayFromYear, IsDate;
    var y := YearOf(day);
    YearLength(y);
  }

  /** With no restriction on the day of the month there is always a next run. */
  lemma WeekDayGuarantee(expression: string, accepts: string -> bool)
    requires ParseCron(expression, accepts).Some? && AnyDate(ParseCron(expression, accepts).value)
    ensures AlwaysRuns(expression, accepts)
  {
    hide ParseCron, Matches, AlwaysRuns, DateOf, MonthOf, WeekDayOf;
    var cron := ParseCron(expression, accepts).value;
    ParsedIsWellFormed(expression, accepts);
    var month := Pick(cron.month, 1, 12);
    var weekDay := Pick(cron.dayOfWeek, 0, 6);
    forall day ensures DaySoon(cron, day) {
      var start := WeekInMonth(day, month);
      var d := WeekDayWithin(start, weekDay);
      DateIsAtMost31(d);
      assert DayMatches(cron, d);
    }
    DailyIsAlways(expression, accepts);
  }

  lemma DateIsAtMost31(day: int)
    ensures 1 <= DateOf(day) <= 31
  {
    hide DateOf, MonthOf, YearOf, IsLeap;
  }

  // ----- the exact condition for every expression

  /** The expression names the last minute of the day. */
  predicate LastMinute(cron: Cron) {
    23 in cron.hour && 59 in cron.minute
  }

  /** A search that starts during the day finds a run: one of the next 365 days matches, or the day
      itself does and either the day 366 days later does too or the run cannot be over yet. */
  predicate DayCovered(cron: Cron, day: int) {
    || (exists d :: day < d <= day + 365 && DayMatches(cron, d))
    || (DayMatches(cron, day) && (DayMatches(cron, day + 366) || LastMinute(cron)))
  }

  /** Every day of one 400-year cycle of the calendar is covered. */
  predicate CycleCovered(cron: Cron) {
    forall day :: 0 <= day < CYCLE ==> DayCovered(cron, day)
  }

  lemma DayMatchesRepeats(cron: Cron, day: int)
    ensures DayMatches(cron, day + CYCLE) == DayMatches(cron, day)
  {
    hide DateOf, MonthOf, WeekDayOf;
    CalendarRepeats(day);
  }

  lemma CoverRepeats(cron: Cron, day: int)
    ensures DayCovered(cron, day + CYCLE) == DayCovered(cron, day)
  {
    hide DayMatches, LastMinute;
    DayMatchesRepeats(cron, day);
    DayMatchesRepeats(cron, day + 366);
    if d :| day < d <= day + 365 && DayMatches(cron, d) {
      DayMatchesRepeats(cron, d);
      assert DayMatches(cron, d + CYCLE);
    }
    if d :| day + CYCLE < d <= day + CYCLE + 365 && DayMatches(cron, d) {
      DayMatchesRepeats(cron, d - CYCLE);
      assert DayMatches(cron, d - CYCLE);
    }
  }

  /** What holds over one cycle holds on every day. */
  lemma {:induction false} CoveredEverywhere(cron: Cron, day: int)
    requires CycleCovered(cron)
    ensures DayCovered(cron, day)
    decreases if day < 0 then CYCLE - day else day
  {
    hide DayCovered;
    if day < 0 {
      CoveredEverywhere(cron, day + CYCLE);
      CoverRepeats(cron, day);
    } else if day >= CYCLE {
      CoveredEverywhere(cron, day - CYCLE);
      CoverRepeats(cron, day - CYCLE);
    }
  }

  lemma MatchingMinute(cron: Cron, m: int)
    requires Matches(cron, m)
    ensures DayMatches(cron, m / 1440) && m / 60 % 24 in cron.hour && m % 60 in cron.minute
  {
    hide DateOf, MonthOf, WeekDayOf;
  }

  /** A covered day gives a match in the window that starts at any of its minutes. */
  lemma CoveredFinds(cron: Cron, from: int)
    requires WellFormed(cron) && DayCovered(cron, from / 1440)
    ensures !NoMatch(cron, from, from + WINDOW)
  {
    hide Matches, DayMatches;
    var day := from / 1440;
    var hour := Pick(cron.hour, 0, 23);
    var minute := Pick(cron.minute, 0, 59);
    var clock := hour * 60 + minute;
    if d :| day < d <= day + 365 && DayMatches(cron, d) {
      MatchOnDay(cron, d, hour, minute);
      assert from <= d * 1440 + clock < from + WINDOW;
    } else if LastMinute(cron) {
      MatchOnDay(cron, day, 23, 59);
      assert from <= day * 1440 + 1439 < from + WINDOW;
    } else {
      MatchOnDay(cron, day, hour, minute);
      MatchOnDay(cron, day + 366, hour, minute);
      var m := day * 1440 + clock;
      assert from <= m < from + WINDOW || from <= m + WINDOW < from + WINDOW;
    }
  }

  /** The minute of a day from which a search has the least to find: the first one if the day does not
      match, the last one if it does. */
  function HardestStart(cron: Cron, day: int): int {
    if DayMatches(cron, day) then day * 1440 + 1439 else day * 1440
  }

  lemma MatchMeansCovered(cron: Cron, day: int, m: int)
    requires HardestStart(cron, day) <= m < HardestStart(cron, day) + WINDOW && Matches(cron, m)
    ensures DayCovered(cron, day)
  {
    hide Matches, DayMatches;
    MatchingMinute(cron, m);
    if DayMatches(cron, day) {
      DayOfMinute(day, m - 1439);
      LastOfDay(day, m);
    } else {
      DayOfMinute(day, m);
    }
  }

  lemma DayOfMinute(day: int, m: int)
    requires day * 1440 <= m < day * 1440 + WINDOW
    ensures day <= m / 1440 <= day + 365
  {
  }

  lemma LastOfDay(day: int, m: int)
    requires day * 1440 + 1439 <= m < day * 1440 + 1439 + WINDOW
    ensures day <= m / 1440 <= day + 366
    ensures m / 1440 == day ==> m / 60 % 24 == 23 && m % 60 == 59
  {
    if m == day * 1440 + 1439 {
      ClockOf(day, 23, 59);
    }
  }

  /** From the hardest start of a day that is not covered, the searched window holds no match. */
  lemma UncoveredMisses(cron: Cron, day: int)
    requires !DayCovered(cron, day)
    ensures NoMatch(cron, HardestStart(cron, day), HardestStart(cron, day) + WINDOW)
  {
    hide Matches, DayCovered, HardestStart;
    var from := HardestStart(cron, day);
    forall m | from <= m < from + WINDOW ensures !Matches(cron, m) {
      if Matches(cron, m) {
        MatchMeansCovered(cron, day, m);
      }
    }
  }

  /** For every expression: there is a next run after every moment exactly when every day of a
      400-year cycle is covered. */
  lemma AlwaysRunsIff(expression: string, accepts: string -> bool)
    requires ParseCron(expression, accepts).Some?
    ensures AlwaysRuns(expression, accepts) <==> CycleCovered(ParseCron(expression, accepts).value)
  {
    hide ParseCron, Matches, NoMatch, WellFormed, DayCovered, NextRun, DayMatches;
    var cron := ParseCron(expression, accepts).value;
    ParsedIsWellFormed(expression, accepts);
    if CycleCovered(cron) {
      forall t: int ensures NextRun(expression, Some(t), "UTC", accepts).Some? {
        CoveredEverywhere(cron, MinuteAfter(t) / 1440);
        CoveredFinds(cron, MinuteAfter(t));
        NextRunIsLeast(expression, t, accepts);
      }
    } else {
      var day :| 0 <= day < CYCLE && !DayCovered(cron, day);
      UncoveredMisses(cron, day);
      var from := HardestStart(cron, day);
      var t := from * MINUTE - MINUTE;
      assert MinuteAfter(t) == from;
      NextRunIsLeast(expression, t, accepts);
      assert NextRun(expression, Some(t), "UTC", accepts).None?;
    }
  }

  // ----- two expressions that miss

  /** What a star stands for. */
  function Star(min: int, max: int): set<int> {
    OrElse(FieldValues("*", min, max), {})
  }

  lemma StarHolds(min: int, max: int)
    ensures FieldValues("*", min, max) == Some(Star(min, max)) && SpaceFree("*")
    ensures forall v :: v in Star(min, max) <==> min <= v <= max
  {
    StarIsUnrestricted(min, max);
    hide FieldValues;
  }

  /** Midnight on Friday the thirteenth. */
  function FridayTheThirteenth(): Cron {
    Cron({0}, {0}, {13}, Star(1, 12), {5})
  }

  lemma NoFriday1999(day: int)
    requires YearOf(day) == 1999 && DateOf(day) == 13 && MonthOf(day) >= 9
    ensures WeekDayOf(day) != 5
  {
    hide YearOf, MonthOf, DateOf, DayInYear;
    assert day == DayFromYear(1999) + DaysBeforeMonth(MonthOf(day), false) + 12 by {
      DayFromParts(day);
    }
  }

  lemma NoFriday2000(day: int)
    requires YearOf(day) == 2000 && DateOf(day) == 13 && MonthOf(day) <= 9
    ensures WeekDayOf(day) != 5
  {
    hide YearOf, MonthOf, DateOf, DayInYear;
    assert day == DayFromYear(2000) + DaysBeforeMonth(MonthOf(day), true) + 12 by {
      DayFromParts(day);
    }
  }

  lemma DayFromParts(day: int)
    ensures day == DayFromYear(YearOf(day)) + DaysBeforeMonth(MonthOf(day), IsLeap(YearOf(day))) + DateOf(day) - 1
  {
    hide DayFromYear, YearOf, MonthOf;
  }

  lemma NothingAfterAugust1999()
    ensures NoMatch(FridayTheThirteenth(), August1999(), August1999() + WINDOW)
  {
    hide YearOf, MonthOf, DateOf, WeekDayOf, Star;
    forall m | August1999() <= m < August1999() + WINDOW ensures !Matches(FridayTheThirteenth(), m) {
      SearchedDay(m / 1440);
    }
  }

  lemma AgainInOctober2000()
    ensures Matches(FridayTheThirteenth(), (DayFromYear(2000) + 286) * 1440)
  {
    hide YearOf, MonthOf, DateOf, Star;
    StarHolds(1, 12);
    assert DaysBeforeMonth(10, true) == 274 && DaysBeforeMonth(11, true) == 305;
    assert IsDate(2000, 10, 13) && DayOfDate(2000, 10, 13) == DayFromYear(2000) + 286;
    DateRoundTrip(2000, 10, 13);
  }

  /** The first minute of 14 August 1999. */
  function August1999(): int {
    (DayFromYear(1999) + 225) * 1440
  }

  lemma {:induction false} OneValue(n: nat, text: string, min: int, max: int)
    requires Decimal(n) == text && min <= n <= max
    ensures FieldValues(text, min, max) == Some({n}) && SpaceFree(text)
  {
    hide FieldValues;
    assert Decimals([n]) == [text];
    assert ValueSet([n]) == {n} by {
      assert [n][0] == n;
    }
    PrintedFieldReads([n], min, max);
  }

  lemma FiveFields(minute: string, hour: string, dayOfMonth: string, month: string, dayOfWeek: string, cron: Cron,
                   accepts: string -> bool)
    requires SpaceFree(minute) && SpaceFree(hour) && SpaceFree(dayOfMonth) && SpaceFree(month) && SpaceFree(dayOfWeek)
    requires FieldValues(minute, 0, 59) == Some(cron.minute) && FieldValues(hour, 0, 23) == Some(cron.hour)
    requires FieldValues(dayOfMonth, 1, 31) == Some(cron.dayOfMonth) && FieldValues(month, 1, 12) == Some(cron.month)
    requires FieldValues(dayOfWeek, 0, 6) == Some(cron.dayOfWeek)
    ensures var text := minute + " " + hour + " " + dayOfMonth + " " + month + " " + dayOfWeek;
            accepts(text) ==> ParseCron(text, accepts) == Some(cron)
  {
    hide FieldValues, Words, Trim, SpaceFree;
    WordsOfSpaced(minute, hour, dayOfMonth, month, dayOfWeek);
    var text := minute + " " + hour + " " + dayOfMonth + " " + month + " " + dayOfWeek;
    assert Trim(text) == text && Words(text) == [minute, hour, dayOfMonth, month, dayOfWeek];
  }

  lemma FridayTheThirteenthText(accepts: string -> bool)
    requires accepts("0 0 13 * 5")
    ensures ParseCron("0 0 13 * 5", accepts) == Some(FridayTheThirteenth())
  {
    hide FieldValues, ParseCron, Star;
    OneValue(0, "0", 0, 59);
    OneValue(0, "0", 0, 23);
    OneValue(13, "13", 1, 31);
    StarHolds(1, 12);
    OneValue(5, "5", 0, 6);
    assert "0" + " " + "0" + " " + "13" + " " + "*" + " " + "5" == "0 0 13 * 5";
    FiveFields("0", "0", "13", "*", "5", FridayTheThirteenth(), accepts);
  }

  /** Midnight on 29 February. */
  function LeapDay(): Cron {
    Cron({0}, {0}, {29}, {2}, Star(0, 6))
  }

  lemma LeapDayText(accepts: string -> bool)
    requires accepts("0 0 29 2 *")
    ensures ParseCron("0 0 29 2 *", accepts) == Some(LeapDay())
  {
    hide FieldValues, ParseCron, Star;
    OneValue(0, "0", 0, 59);
    OneValue(0, "0", 0, 23);
    OneValue(29, "29", 1, 31);
    OneValue(2, "2", 1, 12);
    StarHolds(0, 6);
    assert "0" + " " + "0" + " " + "29" + " " + "2" + " " + "*" == "0 0 29 2 *";
    FiveFields("0", "0", "29", "2", "*", LeapDay(), accepts);
  }

  /** The fields are combined by "and": restricting both the day of the month and the day of the week
      can leave more than 366 days between two runs. From the end of 13 August 1999 on, "0 0 13 * 5"
      finds no next run, although Friday the thirteenth comes again on 13 October 2000. */
  lemma RestrictingBothCanMiss(accepts: string -> bool)
    requires accepts("0 0 13 * 5")
    ensures NextRun("0 0 13 * 5", Some(August1999() * MINUTE - 1), "UTC", accepts).None?
    ensures ParseCron("0 0 13 * 5", accepts).Some?
    ensures RunsAt(ParseCron("0 0 13 * 5", accepts).value, (DayFromYear(2000) + 286) * 1440 * MINUTE)
    ensures HasCommonDate(ParseCron("0 0 13 * 5", accepts).value) && !AlwaysRuns("0 0 13 * 5", accepts)
  {
    hide Matches, August1999, DayFromYear, NoMatch, ParseCron, NextRun, Star;
    StarHolds(1, 12);
    FridayTheThirteenthText(accepts);
    var cron, t := FridayTheThirteenth(), August1999() * MINUTE - 1;
    assert 1 in cron.month && 13 in cron.dayOfMonth && IsDate(1970, 1, 13);
    NothingAfterAugust1999();
    AgainInOctober2000();
    assert MinuteAfter(t) == August1999();
    NextRunIsLeast("0 0 13 * 5", t, accepts);
  }

  /** From 1 March 2025 on, "0 0 29 2 *" finds no next run, although 29 February comes again in 2028. */
  lemma LeapDayMisses(accepts: string -> bool)
    requires accepts("0 0 29 2 *")
    ensures NextRun("0 0 29 2 *", Some(March2025() * MINUTE - 1), "UTC", accepts).None?
    ensures ParseCron("0 0 29 2 *", accepts).Some? && AnyWeekDay(ParseCron("0 0 29 2 *", accepts).value)
    ensures RunsAt(ParseCron("0 0 29 2 *", accepts).value, (DayFromYear(2028) + 59) * 1440 * MINUTE)
    ensures !AlwaysRuns("0 0 29 2 *", accepts)
  {
    hide Matches, March2025, DayFromYear, NoMatch, ParseCron, NextRun, Star;
    StarHolds(0, 6);
    LeapDayText(accepts);
    var t := March2025() * MINUTE - 1;
    assert !HasCommonDate(LeapDay()) by {
      assert !IsDate(1970, 2, 29);
    }
    NothingWithoutCommonDate(LeapDay());
    assert MinuteAfter(t) == March2025();
    NextRunIsLeast("0 0 29 2 *", t, accepts);
    AgainIn2028();
  }

  lemma AgainIn2028()
    ensures Matches(LeapDay(), (DayFromYear(2028) + 59) * 1440)
  {
    hide YearOf, MonthOf, DateOf, Star;
    StarHolds(0, 6);
    assert IsDate(2028, 2, 29) && DayOfDate(2028, 2, 29) == DayFromYear(2028) + 59;
    DateRoundTrip(2028, 2, 29);
  }

  lemma SearchedDay(day: int)
    requires DayFromYear(1999) + 225 <= day < DayFromYear(1999) + 225 + 366
    ensures DateOf(day) == 13 ==> WeekDayOf(day) != 5
  {
    hide YearOf, MonthOf, DateOf;
    if DateOf(day) == 13 {
      DayFromParts(day);
      if day < DayFromYear(2000) {
        YearUnique(day, 1999);
        NoFriday1999(day);
      } else {
        YearUnique(day, 2000);
        NoFriday2000(day);
      }
    }
  }
}
