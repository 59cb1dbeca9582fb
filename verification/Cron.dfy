/** Cron expressions and the search for the next run (packages/scheduler/src/index.ts). A moment is
    a number of milliseconds since 1 January 1970, a minute a number of minutes. */
module Cron {
  import opened Wrappers
  import opened JsText
  import opened CronFields
  import opened Calendar

  // ----- expressions

  function LeadingWord(s: string): (w: string)
    ensures |w| <= |s| && (|w| < |s| ==> IsSpace(s[|w|]))
  {
    if s == "" || IsSpace(s[0]) then "" else [s[0]] + LeadingWord(s[1..])
  }

  lemma {:induction false} TrimStartShortens(s: string)
    ensures |TrimStart(s)| <= |s|
    ensures s != "" && IsSpace(s[0]) ==> |TrimStart(s)| < |s|
  {
    if s != "" && IsSpace(s[0]) {
      TrimStartShortens(s[1..]);
    }
  }

  /** `s.split(/\s+/)` */
  function Words(s: string): (parts: seq<string>)
    decreases |s|
  {
    var word := LeadingWord(s);
    if |word| == |s| then [s]
    else
      TrimStartShortens(s[|word|..]);
      [word] + Words(TrimStart(s[|word|..]))
  }

  /** The values each of the five fields stands for. */
  datatype Cron = Cron(minute: set<int>, hour: set<int>, dayOfMonth: set<int>, month: set<int>, dayOfWeek: set<int>)

  datatype ParsedCron = ParsedCron(
    minute: ParsedCronField, hour: ParsedCronField, dayOfMonth: ParsedCronField,
    month: ParsedCronField, dayOfWeek: ParsedCronField)

  /** The five field sets of an expression, or None where the program calls it invalid. The cron
      library's own verdict is the parameter `accepts`. */
  function ParseCron(expression: string, accepts: string -> bool): Option<Cron> {
    var trimmed := Trim(expression);
    var segments := Words(trimmed);
    if !accepts(trimmed) || |segments| != 5 then None
    else
      var minute := FieldValues(segments[0], 0, 59);
      var hour := FieldValues(segments[1], 0, 23);
      var dayOfMonth := FieldValues(segments[2], 1, 31);
      var month := FieldValues(segments[3], 1, 12);
      var dayOfWeek := FieldValues(segments[4], 0, 6);
      if minute.None? || hour.None? || dayOfMonth.None? || month.None? || dayOfWeek.None? then None
      else Some(Cron(minute.value, hour.value, dayOfMonth.value, month.value, dayOfWeek.value))
  }

  ghost predicate ListsCron(parsed: ParsedCron, cron: Cron) {
    && Lists(parsed.minute.values, cron.minute)
    && Lists(parsed.hour.values, cron.hour)
    && Lists(parsed.dayOfMonth.values, cron.dayOfMonth)
    && Lists(parsed.month.values, cron.month)
    && Lists(parsed.dayOfWeek.values, cron.dayOfWeek)
  }

  method ValidateCronExpression(expression: string, accepts: string -> bool) returns (parsed: Option<ParsedCron>)
    ensures parsed.Some? <==> ParseCron(expression, accepts).Some?
    ensures parsed.Some? ==> ListsCron(parsed.value, ParseCron(expression, accepts).value)
  {
    hide FieldValues, Lists, Trim, Words;
    var trimmed := Trim(expression);
    if !accepts(trimmed) {
      return None;
    }
    var segments := Words(trimmed);
    if |segments| != 5 {
      return None;
    }
    var minute := ParseCronField(segments[0], 0, 59);
    var hour := ParseCronField(segments[1], 0, 23);
    var dayOfMonth := ParseCronField(segments[2], 1, 31);
    var month := ParseCronField(segments[3], 1, 12);
    var dayOfWeek := ParseCronField(segments[4], 0, 6);
    if minute.None? || hour.None? || dayOfMonth.None? || month.None? || dayOfWeek.None? {
      return None;
    }
    return Some(ParsedCron(minute.value, hour.value, dayOfMonth.value, month.value, dayOfWeek.value));
  }

  predicate Within(values: set<int>, min: int, max: int) {
    values != {} && forall v :: v in values ==> min <= v <= max
  }

  /** Five non-empty sets of values, each inside its field's bounds. */
  predicate WellFormed(cron: Cron) {
    && Within(cron.minute, 0, 59)
    && Within(cron.hour, 0, 23)
    && Within(cron.dayOfMonth, 1, 31)
    && Within(cron.month, 1, 12)
    && Within(cron.dayOfWeek, 0, 6)
  }

  lemma ParsedIsWellFormed(expression: string, accepts: string -> bool)
    requires ParseCron(expression, accepts).Some?
    ensures WellFormed(ParseCron(expression, accepts).value)
  {
    hide FieldValues, Trim, Words;
    var segments := Words(Trim(expression));
    FieldInBounds(segments[0], 0, 59);
    FieldInBounds(segments[1], 0, 23);
    FieldInBounds(segments[2], 1, 31);
    FieldInBounds(segments[3], 1, 12);
    FieldInBounds(segments[4], 0, 6);
  }

  // ----- the search

  predicate Matches(cron: Cron, minute: int) {
    && minute % 60 in cron.minute
    && minute / 60 % 24 in cron.hour
    && DateOf(minute / 1440) in cron.dayOfMonth
    && MonthOf(minute / 1440) in cron.month
    && WeekDayOf(minute / 1440) in cron.dayOfWeek
  }

  predicate MatchesField(parsed: ParsedCronField, value: int) {
    value in parsed.values
  }

  predicate MatchesCronExpression(parsed: ParsedCron, minute: int) {
    && MatchesField(parsed.minute, minute % 60)
    && MatchesField(parsed.hour, minute / 60 % 24)
    && MatchesField(parsed.dayOfMonth, DateOf(minute / 1440))
    && MatchesField(parsed.month, MonthOf(minute / 1440))
    && MatchesField(parsed.dayOfWeek, WeekDayOf(minute / 1440))
  }

  /** The number of minutes searched: 366 days. */
  const WINDOW := 60 * 24 * 366

  const MINUTE := 60000

  ghost predicate NoMatch(cron: Cron, from: int, end: int) {
    forall m :: from <= m < end ==> !Matches(cron, m)
  }

  ghost predicate EarliestMatch(cron: Cron, from: int, end: int, m: int) {
    from <= m < end && Matches(cron, m) && NoMatch(cron, from, m)
  }

  function FirstMatch(cron: Cron, from: int, end: int): Option<int>
    decreases end - from
  {
    if from >= end then None
    else if Matches(cron, from) then Some(from)
    else FirstMatch(cron, from + 1, end)
  }

  lemma {:induction false} FirstMatchIsEarliest(cron: Cron, from: int, end: int)
    ensures FirstMatch(cron, from, end).None? ==> NoMatch(cron, from, end)
    ensures FirstMatch(cron, from, end).Some? ==> EarliestMatch(cron, from, end, FirstMatch(cron, from, end).value)
    decreases end - from
  {
    hide Matches;
    if from < end && !Matches(cron, from) {
      FirstMatchIsEarliest(cron, from + 1, end);
    }
  }

  /** The first minute that starts strictly after a moment. */
  function MinuteAfter(moment: int): int {
    moment / MINUTE + 1
  }

  /** `calculateNextRun`: a timestamp that is no date is None. */
  function NextRun(expression: string, after: Option<int>, timezone: string, accepts: string -> bool): Option<int> {
    var cron := ParseCron(expression, accepts);
    if timezone != "UTC" || cron.None? || after.None? then None
    else
      var from := MinuteAfter(after.value);
      var found := FirstMatch(cron.value, from, from + WINDOW);
      if found.Some? then Some(found.value * MINUTE) else None
  }

  lemma SameMatches(parsed: ParsedCron, cron: Cron, minute: int)
    requires ListsCron(parsed, cron)
    ensures MatchesCronExpression(parsed, minute) == Matches(cron, minute)
  {
    hide DateOf, MonthOf, WeekDayOf;
  }

  method CalculateNextRun(expression: string, after: Option<int>, timezone: string, accepts: string -> bool)
    returns (next: Option<int>)
    ensures next == NextRun(expression, after, timezone, accepts)
  {
    hide ParseCron, Matches, MatchesCronExpression, ListsCron;
    if timezone != "UTC" {
      return None;
    }
    var validation := ValidateCronExpression(expression, accepts);
    if validation.None? || after.None? {
      return None;
    }
    ghost var cron := ParseCron(expression, accepts).value;
    ghost var from := MinuteAfter(after.value);
    var cursor := MinuteAfter(after.value);
    for step := 0 to WINDOW
      invariant cursor == from + step
      invariant FirstMatch(cron, from, from + WINDOW) == FirstMatch(cron, cursor, from + WINDOW)
    {
      SameMatches(validation.value, cron, cursor);
      if MatchesCronExpression(validation.value, cursor) {
        return Some(cursor * MINUTE);
      }
      cursor := cursor + 1;
    }
    return None;
  }

  predicate IsMinute(moment: int) {
    moment % MINUTE == 0
  }

  /** A whole minute whose calendar fields are all in the expression's sets. */
  predicate RunsAt(cron: Cron, moment: int) {
    IsMinute(moment) && Matches(cron, moment / MINUTE)
  }

  /** The next run is the least whole minute strictly after the given moment that matches, and
      there is none exactly when no minute of the following 366 days matches. */
  lemma NextRunIsLeast(expression: string, after: int, accepts: string -> bool)
    requires ParseCron(expression, accepts).Some?
    ensures var cron, next := ParseCron(expression, accepts).value, NextRun(expression, Some(after), "UTC", accepts);
            && (next.Some? ==>
                  && after < next.value && RunsAt(cron, next.value)
                  && forall t :: after < t < next.value ==> !RunsAt(cron, t))
            && (next.None? <==> NoMatch(cron, MinuteAfter(after), MinuteAfter(after) + WINDOW))
  {
    hide ParseCron, Matches;
    var cron, next := ParseCron(expression, accepts).value, NextRun(expression, Some(after), "UTC", accepts);
    FirstMatchIsEarliest(cron, MinuteAfter(after), MinuteAfter(after) + WINDOW);
    if next.Some? {
      assert next.value / MINUTE * MINUTE == next.value;
      forall t | after < t < next.value ensures !RunsAt(cron, t) {
        if IsMinute(t) {
          assert MinuteAfter(after) <= t / MINUTE < next.value / MINUTE;
        }
      }
    }
  }

  /** The first moment at which the expression runs is the next run, if it is within 366 days. */
  lemma {:induction false} NextRunIs(expression: string, after: int, next: int, accepts: string -> bool)
    requires ParseCron(expression, accepts).Some?
    requires var cron := ParseCron(expression, accepts).value;
             RunsAt(cron, next) && forall t :: after < t < next ==> !RunsAt(cron, t)
    requires after < next && next / MINUTE < MinuteAfter(after) + WINDOW
    ensures NextRun(expression, Some(after), "UTC", accepts) == Some(next)
  {
    hide *;
    NextRunIsLeast(expression, after, accepts);
    var cron := ParseCron(expression, accepts).value;
    RunIsFound(cron, after, next);
  }

  lemma RunIsFound(cron: Cron, after: int, moment: int)
    requires RunsAt(cron, moment) && after < moment && moment / MINUTE < MinuteAfter(after) + WINDOW
    ensures !NoMatch(cron, MinuteAfter(after), MinuteAfter(after) + WINDOW)
  {
    hide Matches;
    assert MinuteAfter(after) <= moment / MINUTE;
  }

  // ----- every five sets have an expression

  function PrintField(values: seq<nat>): string {
    Join(Decimals(values), ",")
  }

  function PrintCron(minute: seq<nat>, hour: seq<nat>, dayOfMonth: seq<nat>, month: seq<nat>,
                     dayOfWeek: seq<nat>): string {
    PrintField(minute) + " " + PrintField(hour) + " " + PrintField(dayOfMonth) + " " + PrintField(month) + " "
    + PrintField(dayOfWeek)
  }

  predicate SpaceFree(s: string) {
    s != "" && forall i :: 0 <= i < |s| ==> !IsSpace(s[i])
  }

  lemma {:induction false} DigitListSpaceFree(parts: seq<string>)
    requires parts != [] && forall i :: 0 <= i < |parts| ==> IsDigits(parts[i])
    ensures SpaceFree(Join(parts, ","))
  {
    var first := parts[0];
    if |parts| > 1 {
      DigitListSpaceFree(parts[1..]);
    }
  }

  lemma {:induction false} LeadingWordIs(word: string, rest: string)
    requires forall i :: 0 <= i < |word| ==> !IsSpace(word[i])
    requires rest == "" || IsSpace(rest[0])
    ensures LeadingWord(word + rest) == word
  {
    if word == "" {
      assert word + rest == rest;
    } else {
      assert (word + rest)[1..] == word[1..] + rest;
      LeadingWordIs(word[1..], rest);
      assert word == [word[0]] + word[1..];
    }
  }

  lemma {:induction false} WordsFirst(word: string, gap: string, rest: string)
    requires SpaceFree(word) && Blank(gap) && gap != "" && rest != "" && !IsSpace(rest[0])
    ensures Words(word + gap + rest) == [word] + Words(rest)
  {
    hide IsSpace;
    var s := word + gap + rest;
    assert s == word + (gap + rest);
    LeadingWordIs(word, gap + rest);
    assert s[|word|..] == gap + rest;
    TrimStartStrips(gap, rest);
  }

  lemma {:induction false} WordsLast(word: string)
    requires SpaceFree(word)
    ensures Words(word) == [word]
  {
    LeadingWordIs(word, "");
    assert word + "" == word;
  }

  /** Any white space may stand between the words and around them. */
  lemma WordsOfFive(a: string, b: string, c: string, d: string, e: string, gaps: seq<string>, front: string,
                    back: string)
    requires SpaceFree(a) && SpaceFree(b) && SpaceFree(c) && SpaceFree(d) && SpaceFree(e)
    requires |gaps| == 4 && forall i :: 0 <= i < 4 ==> gaps[i] != "" && Blank(gaps[i])
    requires Blank(front) && Blank(back)
    ensures var s := Spaced(a, b, c, d, e, gaps);
            Words(s) == [a, b, c, d, e] && Trim(front + s + back) == s && Trimmed(s)
  {
    hide Words, Trim, LeadingWord, IsSpace, Blank;
    var s4 := d + gaps[3] + e;
    var s3 := c + gaps[2] + s4;
    var s2 := b + gaps[1] + s3;
    var s1 := a + gaps[0] + s2;
    WordsLast(e);
    WordsFirst(d, gaps[3], e);
    WordsFirst(c, gaps[2], s4);
    WordsFirst(b, gaps[1], s3);
    WordsFirst(a, gaps[0], s2);
    assert s1[0] == a[0] && s1[|s1| - 1] == e[|e| - 1];
    assert Spaced(a, b, c, d, e, gaps) == s1;
    TrimStrips(front, s1, back);
  }

  function Spaced(a: string, b: string, c: string, d: string, e: string, gaps: seq<string>): string
    requires |gaps| == 4
  {
    a + gaps[0] + b + gaps[1] + c + gaps[2] + d + gaps[3] + e
  }

  /** One space between the words and none around them. */
  lemma WordsOfSpaced(a: string, b: string, c: string, d: string, e: string)
    requires SpaceFree(a) && SpaceFree(b) && SpaceFree(c) && SpaceFree(d) && SpaceFree(e)
    ensures var s := a + " " + b + " " + c + " " + d + " " + e; Words(s) == [a, b, c, d, e] && Trim(s) == s
  {
    var gaps := [" ", " ", " ", " "];
    assert Blank(" ") && Blank("");
    WordsOfFive(a, b, c, d, e, gaps, "", "");
    hide Words, Trim, IsSpace, SpaceFree, Blank;
    var s := a + " " + b + " " + c + " " + d + " " + e;
    assert Spaced(a, b, c, d, e, gaps) == s;
    assert "" + s + "" == s;
  }

  predicate FieldList(values: seq<nat>, min: int, max: int) {
    values != [] && forall i :: 0 <= i < |values| ==> min <= values[i] <= max
  }

  lemma PrintedFieldReads(values: seq<nat>, min: int, max: int)
    requires FieldList(values, min, max)
    ensures SpaceFree(PrintField(values))
    ensures FieldValues(PrintField(values), min, max) == Some(ValueSet(values))
  {
    hide FieldValues;
    PrintedField(values, min, max);
    DigitListSpaceFree(Decimals(values));
  }

  /** Reading undoes printing: any five non-empty lists of values inside the fields' bounds are
      the meaning of some expression. */
  lemma PrintedExpression(minute: seq<nat>, hour: seq<nat>, dayOfMonth: seq<nat>, month: seq<nat>, dayOfWeek: seq<nat>,
                          accepts: string -> bool)
    requires FieldList(minute, 0, 59) && FieldList(hour, 0, 23) && FieldList(dayOfMonth, 1, 31)
    requires FieldList(month, 1, 12) && FieldList(dayOfWeek, 0, 6)
    requires accepts(PrintCron(minute, hour, dayOfMonth, month, dayOfWeek))
    ensures ParseCron(PrintCron(minute, hour, dayOfMonth, month, dayOfWeek), accepts)
         == Some(Cron(ValueSet(minute), ValueSet(hour), ValueSet(dayOfMonth), ValueSet(month), ValueSet(dayOfWeek)))
  {
    hide FieldValues, PrintField, Words, Trim, FieldList, SpaceFree;
    PrintedFieldReads(minute, 0, 59);
    PrintedFieldReads(hour, 0, 23);
    PrintedFieldReads(dayOfMonth, 1, 31);
    PrintedFieldReads(month, 1, 12);
    PrintedFieldReads(dayOfWeek, 0, 6);
    WordsOfSpaced(PrintField(minute), PrintField(hour), PrintField(dayOfMonth), PrintField(month),
                  PrintField(dayOfWeek));
  }
}
