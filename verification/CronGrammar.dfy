/** The language of cron fields: what every text stands for, and that no other text is accepted. */
module CronGrammar {
  import opened Wrappers
  import opened JsText
  import opened CronFields
  import opened Calendar
  import opened Cron
  import Bits32

  /** A comma-separated part of a field. */
  datatype Part =
    | Every
    | EveryNth(step: nat)
    | One(value: nat)
    | Span(first: nat, last: nat)
    | SpanNth(first: nat, last: nat, step: nat)

  function PartText(p: Part): string {
    match p
    case Every => "*"
    case EveryNth(step) => "*/" + Decimal(step)
    case One(value) => Decimal(value)
    case Span(first, last) => Decimal(first) + "-" + Decimal(last)
    case SpanNth(first, last, step) => Decimal(first) + "-" + Decimal(last) + "/" + Decimal(step)
  }

  /** The numbers are within the bounds, the span does not run backwards and the step moves on. */
  predicate Fits(p: Part, min: int, max: int) {
    match p
    case Every => true
    case EveryNth(step) => step > 0
    case One(value) => min <= value <= max
    case Span(first, last) => min <= first <= last <= max
    case SpanNth(first, last, step) => min <= first <= last <= max && step > 0
  }

  /** `v` is `lo + k * step` for some `k`, and not beyond `hi`. */
  ghost predicate Reached(v: int, lo: int, hi: int, step: nat) {
    v <= hi && exists k: nat :: v == lo + k * step
  }

  /** The value is one the part stands for. */
  ghost predicate StandsFor(p: Part, min: int, max: int, v: int) {
    match p
    case Every => min <= v <= max
    case EveryNth(step) => Reached(v, min, max, step)
    case One(value) => v == value
    case Span(first, last) => first <= v <= last
    case SpanNth(first, last, step) => Reached(v, first, last, step)
  }

  // ----- one part

  lemma ProgressionIff(lo: int, hi: int, step: nat, v: int)
    requires step > 0
    ensures v in Progression(lo, hi, step) <==> Reached(v, lo, hi, step)
    ensures step == 1 ==> (v in Progression(lo, hi, step) <==> lo <= v <= hi)
  {
    if lo <= v && (v - lo) % step == 0 {
      var k := (v - lo) / step;
      assert v == lo + k * step && k >= 0;
    }
    forall k: nat | v == lo + k * step ensures lo <= v && (v - lo) % step == 0 {
      Multiple(k, step);
    }
  }

  lemma Multiple(k: nat, step: nat)
    requires step > 0
    ensures k * step >= 0 && k * step % step == 0
  {
    Bits32.DivModUnique(k * step, step, k, 0);
  }

  lemma {:induction false} SpanMatches(first: nat, last: nat)
    ensures RangeMatch(Decimal(first) + "-" + Decimal(last)) == Some(RangeText(first, last, 1))
  {
    var a, b := Decimal(first), Decimal(last);
    DigitsHold(a);
    DigitsHold(b);
    DecimalValue(first);
    DecimalValue(last);
    hide IsDigits, DigitsValue, Decimal;
    var text := a + "-" + b;
    assert text == a + ['-'] + b;
    SplitOne(text, '/');
    SplitFirst(a, '-', b);
    SplitOne(b, '-');
  }

  lemma {:induction false} SpanNthMatches(first: nat, last: nat, step: nat)
    ensures RangeMatch(Decimal(first) + "-" + Decimal(last) + "/" + Decimal(step)) == Some(RangeText(first, last, step))
  {
    var a, b, c := Decimal(first), Decimal(last), Decimal(step);
    DigitsHold(a);
    DigitsHold(b);
    DigitsHold(c);
    DecimalValue(first);
    DecimalValue(last);
    DecimalValue(step);
    hide IsDigits, DigitsValue, Decimal;
    var span := a + "-" + b;
    assert span + "/" + c == span + ['/'] + c && span == a + ['-'] + b;
    SplitFirst(span, '/', c);
    SplitOne(c, '/');
    SplitFirst(a, '-', b);
    SplitOne(b, '-');
  }

  lemma NotStar(text: string)
    requires text != "" && IsDigit(text[0])
    ensures text != "*" && StepMatch(text).None?
  {
  }

  lemma {:induction false} DecimalStarts(n: nat, rest: string)
    ensures var text := Decimal(n) + rest; text != "" && IsDigit(text[0])
  {
    hide Decimal;
    assert IsDigits(Decimal(n));
  }

  lemma EveryNthMatches(step: nat)
    ensures PartText(EveryNth(step)) != "*" && StepMatch(PartText(EveryNth(step))) == Some(step)
  {
    DecimalValue(step);
    hide Decimal;
    var text := "*/" + Decimal(step);
    assert text[2..] == Decimal(step);
  }

  /** The accepted values are those of the progression. */
  lemma {:induction false} ProgressionReads(p: Part, values: Option<set<int>>, min: int, max: int, lo: int, hi: int,
                                            step: nat)
    requires Fits(p, min, max) ==> step > 0 && values == Some(Progression(lo, hi, step))
    requires !Fits(p, min, max) ==> values.None?
    requires step == 1 ==> forall v :: StandsFor(p, min, max, v) <==> lo <= v <= hi
    requires step != 1 ==> forall v :: StandsFor(p, min, max, v) <==> Reached(v, lo, hi, step)
    ensures values.Some? <==> Fits(p, min, max)
    ensures values.Some? ==> forall v :: v in values.value <==> StandsFor(p, min, max, v)
  {
    hide Progression, Reached, Fits, StandsFor;
    if values.Some? {
      forall v ensures v in values.value <==> StandsFor(p, min, max, v) {
        ProgressionIff(lo, hi, step, v);
      }
    }
  }

  lemma SteppedOnce(p: Part, min: int, max: int, lo: int, hi: int, step: nat)
    requires step > 0 && forall v :: StandsFor(p, min, max, v) <==> Reached(v, lo, hi, step)
    ensures step == 1 ==> forall v :: StandsFor(p, min, max, v) <==> lo <= v <= hi
  {
    hide StandsFor;
    forall v ensures step == 1 ==> (Reached(v, lo, hi, step) <==> lo <= v <= hi) {
      ProgressionIff(lo, hi, step, v);
    }
    hide Reached;
  }

  lemma NthReads(step: nat, min: int, max: int)
    ensures PartValues(PartText(EveryNth(step)), min, max) ==
            if step == 0 then None else Some(Progression(min, max, step))
  {
    EveryNthMatches(step);
    hide Progression, StepMatch, RangeMatch, PartText;
  }

  lemma SpanReads(first: nat, last: nat, min: int, max: int)
    ensures PartValues(PartText(Span(first, last)), min, max) ==
            if min <= first <= last <= max then Some(Progression(first, last, 1)) else None
  {
    assert PartText(Span(first, last)) == Decimal(first) + ("-" + Decimal(last));
    DecimalStarts(first, "-" + Decimal(last));
    SpanMatches(first, last);
    hide Progression, StepMatch, RangeMatch, IsDigit, Decimal;
    NotStar(PartText(Span(first, last)));
  }

  lemma SpanNthReads(first: nat, last: nat, step: nat, min: int, max: int)
    ensures PartValues(PartText(SpanNth(first, last, step)), min, max) ==
            if min <= first <= last <= max && step > 0 then Some(Progression(first, last, step)) else None
  {
    var rest := "-" + Decimal(last) + "/" + Decimal(step);
    assert PartText(SpanNth(first, last, step)) == Decimal(first) + rest;
    DecimalStarts(first, rest);
    SpanNthMatches(first, last, step);
    hide Progression, StepMatch, RangeMatch, IsDigit, Decimal;
    NotStar(PartText(SpanNth(first, last, step)));
  }

  /** Every part is accepted exactly when it fits, and stands for exactly its values. */
  lemma PartReads(p: Part, min: int, max: int)
    ensures PartValues(PartText(p), min, max).Some? <==> Fits(p, min, max)
    ensures Fits(p, min, max) ==>
              forall v :: v in PartValues(PartText(p), min, max).value <==> StandsFor(p, min, max, v)
  {
    var values := PartValues(PartText(p), min, max);
    match p {
      case Every =>
        ProgressionReads(p, values, min, max, min, max, 1);
      case EveryNth(step) =>
        NthReads(step, min, max);
        hide PartValues, PartText, Progression, Reached;
        if step > 0 {
          SteppedOnce(p, min, max, min, max, step);
        }
        ProgressionReads(p, values, min, max, min, max, step);
      case One(value) =>
        OnePart(value, min, max);
      case Span(first, last) =>
        SpanReads(first, last, min, max);
        hide PartValues, PartText, Progression;
        ProgressionReads(p, values, min, max, first, last, 1);
      case SpanNth(first, last, step) =>
        SpanNthReads(first, last, step, min, max);
        hide PartValues, PartText, Progression, Reached;
        if step > 0 {
          SteppedOnce(p, min, max, first, last, step);
        }
        ProgressionReads(p, values, min, max, first, last, step);
    }
  }

  lemma {:induction false} OnePart(value: nat, min: int, max: int)
    ensures PartValues(Decimal(value), min, max) == if min <= value <= max then Some({value}) else None
  {
    var text := Decimal(value);
    DigitsHold(text);
    DecimalValue(value);
    SplitOne(text, '/');
    SplitOne(text, '-');
    assert text[0] in text;
    assert '*' in "*";
    hide Decimal, DigitsValue;
  }

  // ----- nothing else is accepted

  /** A star, a stepped star, a number, or a span with or without a step; numbers may begin with zeros. */
  ghost predicate PartShape(text: string) {
    || text == "*"
    || IsDigits(text)
    || (exists n :: IsDigits(n) && text == "*/" + n)
    || (exists a, b :: IsDigits(a) && IsDigits(b) && text == a + "-" + b)
    || (exists a, b, n :: IsDigits(a) && IsDigits(b) && IsDigits(n) && text == a + "-" + b + "/" + n)
  }

  lemma {:induction false} JoinSplit(s: string, separator: char)
    ensures Join(Split(s, separator), [separator]) == s
  {
    if s != "" {
      JoinSplit(s[1..], separator);
      var rest := Split(s[1..], separator);
      if s[0] == separator {
        assert ([""] + rest)[1..] == rest;
      } else {
        assert ([[s[0]] + rest[0]] + rest[1..])[1..] == rest[1..];
        assert s == [s[0]] + s[1..];
      }
    }
  }

  lemma {:induction false} JoinOfTwo(parts: seq<string>, separator: char)
    ensures |parts| == 1 ==> Join(parts, [separator]) == parts[0]
    ensures |parts| == 2 ==> Join(parts, [separator]) == parts[0] + [separator] + parts[1]
  {
    if |parts| == 2 {
      assert parts[1..] == [parts[1]];
    }
  }

  /** A text that is accepted in some field is one of these. */
  lemma OnlyPartsAccepted(text: string, min: int, max: int)
    ensures PartValues(text, min, max).Some? ==> PartShape(text)
  {
    hide IsDigits, DigitsValue, Progression;
    if PartValues(text, min, max).Some? && text != "*" {
      if StepMatch(text).Some? {
        assert text == "*/" + text[2..];
      } else if RangeMatch(text).Some? {
        var halves := Split(text, '/');
        var ends := Split(halves[0], '-');
        JoinSplit(text, '/');
        JoinSplit(halves[0], '-');
        JoinOfTwo(halves, '/');
        JoinOfTwo(ends, '-');
        if |halves| == 1 {
          assert text == ends[0] + "-" + ends[1];
        } else {
          assert text == ends[0] + "-" + ends[1] + "/" + halves[1];
        }
      }
    }
  }

  // ----- a whole field

  function PartTexts(parts: seq<Part>): (texts: seq<string>)
    ensures |texts| == |parts| && forall i :: 0 <= i < |parts| ==> texts[i] == PartText(parts[i])
  {
    seq(|parts|, i requires 0 <= i < |parts| => PartText(parts[i]))
  }

  function FieldText(parts: seq<Part>): string {
    Join(PartTexts(parts), ",")
  }

  predicate AllFit(parts: seq<Part>, min: int, max: int) {
    parts != [] && forall i :: 0 <= i < |parts| ==> Fits(parts[i], min, max)
  }

  /** Some part of the field stands for the value. */
  ghost predicate Named(parts: seq<Part>, min: int, max: int, v: int) {
    exists i :: 0 <= i < |parts| && StandsFor(parts[i], min, max, v)
  }

  /** The characters of a field: no white space and no comma inside a part. */
  predicate PartChar(c: char) {
    IsDigit(c) || c == '*' || c == '/' || c == '-'
  }

  lemma PartTextChars(p: Part)
    ensures PartText(p) != "" && forall c :: c in PartText(p) ==> PartChar(c)
  {
    hide Decimal;
    forall n: nat ensures Decimal(n) != "" && forall c :: c in Decimal(n) ==> PartChar(c) {
      assert IsDigits(Decimal(n));
    }
    hide PartChar;
    assert PartChar('*') && PartChar('/') && PartChar('-');
  }

  lemma CharsAreTight(s: string)
    requires s != "" && forall c :: c in s ==> PartChar(c)
    ensures SpaceFree(s) && Trimmed(s) && ',' !in s
  {
    forall i | 0 <= i < |s| ensures !IsSpace(s[i]) {
      assert s[i] in s;
      PartCharIsTight(s[i]);
    }
    hide IsSpace;
  }

  lemma PartCharIsTight(c: char)
    requires PartChar(c)
    ensures !IsSpace(c)
  {
  }

  /** A field is accepted exactly when it has a part and all its parts fit, and stands for exactly the
      values that some part stands for. */
  lemma FieldReads(parts: seq<Part>, min: int, max: int)
    ensures parts != [] ==> SpaceFree(FieldText(parts))
    ensures FieldValues(FieldText(parts), min, max).Some? <==> AllFit(parts, min, max)
    ensures AllFit(parts, min, max) ==>
              forall v :: v in FieldValues(FieldText(parts), min, max).value <==> Named(parts, min, max, v)
  {
    var texts := PartTexts(parts);
    forall i | 0 <= i < |parts|
      ensures texts[i] != "" && Trimmed(texts[i]) && ',' !in texts[i] && SpaceFree(texts[i])
      ensures PartValues(texts[i], min, max).Some? <==> Fits(parts[i], min, max)
      ensures Fits(parts[i], min, max) ==>
                forall v :: v in PartValues(texts[i], min, max).value <==> StandsFor(parts[i], min, max, v)
    {
      PartTextChars(parts[i]);
      CharsAreTight(PartText(parts[i]));
      PartReads(parts[i], min, max);
    }
    if parts == [] {
      NoFieldParts();
    } else {
      JoinSpaceFree(texts);
      SplitJoin(texts, ',');
      NonEmptyTrimmedKeeps(texts);
      hide PartText, PartValues, Fits, StandsFor, SpaceFree, Trimmed;
      assert AllPartsParse(texts, min, max) <==> AllFit(parts, min, max);
      if AllFit(parts, min, max) {
        forall v ensures v in UnionOf(texts, min, max) <==> Named(parts, min, max, v) {
          UnionIff(texts, parts, min, max, v);
        }
      }
    }
  }

  lemma NoFieldParts()
    ensures FieldParts("") == []
  {
    assert NonEmptyTrimmed([""][1..]) == [];
  }

  lemma UnionIff(texts: seq<string>, parts: seq<Part>, min: int, max: int, v: int)
    requires |texts| == |parts| && AllPartsParse(texts, min, max)
    requires forall i :: 0 <= i < |parts| ==>
                           (v in PartValues(texts[i], min, max).value <==> StandsFor(parts[i], min, max, v))
    ensures v in UnionOf(texts, min, max) <==> Named(parts, min, max, v)
  {
    hide PartValues, StandsFor;
  }

  lemma {:induction false} JoinSpaceFree(texts: seq<string>)
    requires texts != [] && forall i :: 0 <= i < |texts| ==> SpaceFree(texts[i])
    ensures SpaceFree(Join(texts, ","))
  {
    hide SpaceFree;
    if |texts| > 1 {
      JoinSpaceFree(texts[1..]);
      CommaJoined(texts[0], Join(texts[1..], ","));
    }
  }

  lemma CommaJoined(a: string, b: string)
    requires SpaceFree(a) && SpaceFree(b)
    ensures SpaceFree(a + "," + b)
  {
    CommaIsNoSpace();
    hide IsSpace;
    var joined := a + "," + b;
    forall i | 0 <= i < |joined| ensures !IsSpace(joined[i]) {
      assert joined[i] == if i < |a| then a[i] else if i == |a| then ',' else b[i - |a| - 1];
    }
  }

  // ----- the parts of a field

  lemma {:induction false} SplitConcat(s: string, t: string, separator: char)
    ensures Split(s + [separator] + t, separator) == Split(s, separator) + Split(t, separator)
  {
    var whole := s + [separator] + t;
    if s == "" {
      assert whole[1..] == t;
    } else {
      assert whole[1..] == s[1..] + [separator] + t;
      SplitConcat(s[1..], t, separator);
    }
  }

  lemma {:induction false} NonEmptyTrimmedConcat(a: seq<string>, b: seq<string>)
    ensures NonEmptyTrimmed(a + b) == NonEmptyTrimmed(a) + NonEmptyTrimmed(b)
  {
    hide Trim;
    if a == [] {
      assert a + b == b;
    } else {
      assert (a + b)[1..] == a[1..] + b;
      NonEmptyTrimmedConcat(a[1..], b);
    }
  }

  /** Commas part a field, the white space around a part is dropped, and a blank part is no part. */
  lemma FieldPartsRead(s: string, t: string, front: string, text: string, back: string)
    requires Blank(front) && Blank(back) && Trimmed(text) && ',' !in text
    ensures FieldParts(s + "," + t) == FieldParts(s) + FieldParts(t)
    ensures FieldParts(front + text + back) == if text == "" then [] else [text]
  {
    SplitConcat(s, t, ',');
    assert s + "," + t == s + [','] + t;
    NonEmptyTrimmedConcat(Split(s, ','), Split(t, ','));
    TrimStrips(front, text, back);
    CommaIsNoSpace();
    hide IsSpace, Trim;
    var padded := front + text + back;
    assert ',' !in padded;
    SplitOne(padded, ',');
    assert NonEmptyTrimmed([padded][1..]) == [];
  }

  lemma CommaIsNoSpace()
    ensures !IsSpace(',')
  {
  }

  // ----- a whole expression

  /** The five fields of an expression, in the order they are written. */
  datatype Fields = Fields(minute: seq<Part>, hour: seq<Part>, dayOfMonth: seq<Part>, month: seq<Part>,
                           dayOfWeek: seq<Part>)

  predicate NoneEmpty(f: Fields) {
    f.minute != [] && f.hour != [] && f.dayOfMonth != [] && f.month != [] && f.dayOfWeek != []
  }

  predicate FieldsFit(f: Fields) {
    && AllFit(f.minute, 0, 59) && AllFit(f.hour, 0, 23) && AllFit(f.dayOfMonth, 1, 31)
    && AllFit(f.month, 1, 12) && AllFit(f.dayOfWeek, 0, 6)
  }

  /** The moment is a whole minute and each field names its part of the date and time. */
  ghost predicate NamesMoment(f: Fields, moment: int) {
    var minutes, days := moment / 60000, moment / 86400000;
    && moment % 60000 == 0
    && Named(f.minute, 0, 59, minutes % 60)
    && Named(f.hour, 0, 23, minutes / 60 % 24)
    && Named(f.dayOfMonth, 1, 31, DateOf(days))
    && Named(f.month, 1, 12, MonthOf(days))
    && Named(f.dayOfWeek, 0, 6, WeekDayOf(days))
  }

  function ExpressionText(f: Fields, gaps: seq<string>): string
    requires |gaps| == 4
  {
    Spaced(FieldText(f.minute), FieldText(f.hour), FieldText(f.dayOfMonth), FieldText(f.month),
           FieldText(f.dayOfWeek), gaps)
  }

  /** Every expression, with any white space between its fields and around it: it is accepted exactly when
      the library accepts it and all fields fit, and runs at exactly the moments its fields name. */
  lemma {:induction false} ExpressionReads(f: Fields, gaps: seq<string>, front: string, back: string,
                                           accepts: string -> bool)
    requires NoneEmpty(f)
    requires |gaps| == 4 && forall i :: 0 <= i < 4 ==> gaps[i] != "" && Blank(gaps[i])
    requires Blank(front) && Blank(back)
    ensures var text := ExpressionText(f, gaps);
            var parsed := ParseCron(front + text + back, accepts);
            && (parsed.Some? <==> accepts(text) && FieldsFit(f))
            && (parsed.Some? ==> forall moment :: RunsAt(parsed.value, moment) <==> NamesMoment(f, moment))
  {
    FieldReads(f.minute, 0, 59);
    FieldReads(f.hour, 0, 23);
    FieldReads(f.dayOfMonth, 1, 31);
    FieldReads(f.month, 1, 12);
    FieldReads(f.dayOfWeek, 0, 6);
    hide FieldText, FieldValues, AllFit, Named, SpaceFree, Blank, Trim, Words, DateOf, MonthOf, WeekDayOf;
    WordsOfFive(FieldText(f.minute), FieldText(f.hour), FieldText(f.dayOfMonth), FieldText(f.month),
                FieldText(f.dayOfWeek), gaps, front, back);
    var parsed := ParseCron(front + ExpressionText(f, gaps) + back, accepts);
    if parsed.Some? {
      forall moment ensures RunsAt(parsed.value, moment) <==> NamesMoment(f, moment) {
        DaysOfMinutes(moment);
      }
    }
  }

  lemma DaysOfMinutes(moment: int)
    ensures moment / 60000 / 1440 == moment / 86400000
  {
  }

  // ----- the next run of an expression

  /** A moment the fields name, with none before it since the last run and no more than 366 days ahead, is
      the next run. */
  lemma {:induction false} NextRunNamed(f: Fields, expression: string, after: int, next: int, accepts: string -> bool)
    requires expression == ExpressionText(f, [" ", " ", " ", " "]) && accepts(expression)
    requires NoneEmpty(f) && FieldsFit(f)
    requires NamesMoment(f, next) && after < next <= after + 86400000 * 366
    requires forall moment :: after < moment < next ==> !NamesMoment(f, moment)
    ensures NextRun(expression, Some(after), "UTC", accepts) == Some(next)
  {
    SpacesAreBlank();
    hide *;
    ExpressionReads(f, [" ", " ", " ", " "], "", "", accepts);
    assert "" + expression + "" == expression;
    WithinWindow(after, next);
    NextRunIs(expression, after, next, accepts);
  }

  lemma SpacesAreBlank()
    ensures Blank(" ") && Blank("")
  {
  }

  lemma WithinWindow(after: int, next: int)
    requires next <= after + 86400000 * 366
    ensures next / MINUTE < MinuteAfter(after) + WINDOW
  {
  }

  /** Nine o'clock on working days. */
  const NINE := Fields([One(0)], [One(9)], [Every], [Every], [Span(1, 5)])

  /** Every twenty minutes of every fourth hour from nine to five on working days. */
  const ROUNDS := Fields([EveryNth(20)], [SpanNth(9, 17, 4)], [Every], [Every], [Span(1, 5)])

  lemma NineText()
    ensures ExpressionText(NINE, [" ", " ", " ", " "]) == "0 9 * * 1-5"
  {
    assert Decimal(0) == "0" && Decimal(9) == "9" && Decimal(1) == "1" && Decimal(5) == "5";
    assert FieldText(NINE.minute) == "0" && FieldText(NINE.hour) == "9" && FieldText([Every]) == "*";
    assert FieldText(NINE.dayOfWeek) == "1-5";
  }

  lemma RoundsText()
    ensures ExpressionText(ROUNDS, [" ", " ", " ", " "]) == "*/20 9-17/4 * * 1-5"
  {
    assert Decimal(2) == "2" && Decimal(20) == "20" && Decimal(9) == "9" && Decimal(17) == "17" && Decimal(4) == "4";
    assert Decimal(1) == "1" && Decimal(5) == "5";
    assert FieldText(ROUNDS.minute) == "*/20" && FieldText(ROUNDS.hour) == "9-17/4" && FieldText([Every]) == "*";
    assert FieldText(ROUNDS.dayOfWeek) == "1-5";
  }

  lemma NamedOne(p: Part, min: int, max: int, v: int)
    ensures Named([p], min, max, v) <==> StandsFor(p, min, max, v)
  {
    hide StandsFor;
    assert [p][0] == p;
  }

  lemma AnyDate(day: int)
    ensures Named([Every], 1, 31, DateOf(day)) && Named([Every], 1, 12, MonthOf(day))
  {
    hide YearOf, DayInYear;
    assert DaysInMonth(MonthOf(day), IsLeap(YearOf(day))) <= 31;
    NamedOne(Every, 1, 31, DateOf(day));
    NamedOne(Every, 1, 12, MonthOf(day));
  }

  /** The fields that `NINE` looks at. */
  lemma NineFacts(moment: int)
    ensures NamesMoment(NINE, moment) <==>
            && moment % 60000 == 0 && moment / 60000 % 60 == 0 && moment / 60000 / 60 % 24 == 9
            && 1 <= WeekDayOf(moment / 86400000) <= 5
  {
    AnyDate(moment / 86400000);
    NamedOne(One(0), 0, 59, moment / 60000 % 60);
    NamedOne(One(9), 0, 23, moment / 60000 / 60 % 24);
    NamedOne(Span(1, 5), 0, 6, WeekDayOf(moment / 86400000));
    hide Named, DateOf, MonthOf, WeekDayOf;
  }

  lemma RoundsFacts(moment: int)
    ensures NamesMoment(ROUNDS, moment) <==>
            && moment % 60000 == 0 && moment / 60000 % 60 in {0, 20, 40} && moment / 60000 / 60 % 24 in {9, 13, 17}
            && 1 <= WeekDayOf(moment / 86400000) <= 5
  {
    AnyDate(moment / 86400000);
    NamedOne(EveryNth(20), 0, 59, moment / 60000 % 60);
    NamedOne(SpanNth(9, 17, 4), 0, 23, moment / 60000 / 60 % 24);
    NamedOne(Span(1, 5), 0, 6, WeekDayOf(moment / 86400000));
    Twentieths(moment / 60000 % 60);
    Fourths(moment / 60000 / 60 % 24);
    hide Named, Reached, DateOf, MonthOf, WeekDayOf;
  }

  lemma Twentieths(minute: int)
    ensures Reached(minute, 0, 59, 20) <==> minute in {0, 20, 40}
  {
    assert 0 + 0 * 20 == 0 && 0 + 1 * 20 == 20 && 0 + 2 * 20 == 40;
  }

  lemma Fourths(hour: int)
    ensures Reached(hour, 9, 17, 4) <==> hour in {9, 13, 17}
  {
    assert 9 + 0 * 4 == 9 && 9 + 1 * 4 == 13 && 9 + 2 * 4 == 17;
  }

  /** The time of day at a moment of the day. */
  lemma TimeOfDay(day: int, moment: int, time: int)
    requires moment == day * 86400000 + time && 0 <= time < 86400000
    ensures moment / 86400000 == day
    ensures moment % 60000 == time % 60000 && moment / 60000 % 60 == time / 60000 % 60
    ensures moment / 60000 / 60 % 24 == time / 3600000
  {
    Bits32.DivModUnique(moment, 86400000, day, time);
    Bits32.DivModUnique(moment, 60000, day * 1440 + time / 60000, time % 60000);
    var minutes := time / 60000;
    Bits32.DivModUnique(day * 1440 + minutes, 60, day * 24 + minutes / 60, minutes % 60);
    Bits32.DivModUnique(day * 24 + minutes / 60, 24, day, minutes / 60);
  }

  /** The day number of Tuesday, 2 January 2024. */
  const TUESDAY := 19724

  lemma TuesdayIs()
    ensures Falls(TUESDAY, 2024, 1, 2, 2)
  {
    hide Falls;
    FallsOn(TUESDAY, 2024, 1, 2, 2);
  }

  /** After 00:00 of that Tuesday, "0 9 * * 1-5" runs next at 09:00 of the same day. */
  lemma {:induction false} NextWorkingDay(accepts: string -> bool)
    requires accepts("0 9 * * 1-5")
    ensures NextRun("0 9 * * 1-5", Some(TUESDAY * 86400000), "UTC", accepts) == Some(TUESDAY * 86400000 + 9 * 3600000)
  {
    hide NamesMoment, NextRun, ExpressionText, WeekDayOf, NINE;
    var midnight := TUESDAY * 86400000;
    NineText();
    TuesdayIs();
    NineFits();
    TimeOfDay(TUESDAY, midnight + 9 * 3600000, 9 * 3600000);
    NineFacts(midnight + 9 * 3600000);
    forall moment | midnight < moment < midnight + 9 * 3600000 ensures !NamesMoment(NINE, moment) {
      TimeOfDay(TUESDAY, moment, moment - midnight);
      NineFacts(moment);
    }
    NextRunNamed(NINE, "0 9 * * 1-5", midnight, midnight + 9 * 3600000, accepts);
  }

  lemma NineFits()
    ensures NoneEmpty(NINE) && FieldsFit(NINE) && NoneEmpty(ROUNDS) && FieldsFit(ROUNDS)
  {
  }

  /** After 09:40 of that Tuesday, with a range, a step and both together, the next run is at 13:00. */
  lemma {:induction false} NextRound(accepts: string -> bool)
    requires accepts("*/20 9-17/4 * * 1-5")
    ensures NextRun("*/20 9-17/4 * * 1-5", Some(TUESDAY * 86400000 + 580 * 60000), "UTC", accepts)
         == Some(TUESDAY * 86400000 + 780 * 60000)
  {
    hide NamesMoment, NextRun, ExpressionText, WeekDayOf, ROUNDS;
    var midnight := TUESDAY * 86400000;
    RoundsText();
    TuesdayIs();
    NineFits();
    TimeOfDay(TUESDAY, midnight + 780 * 60000, 780 * 60000);
    RoundsFacts(midnight + 780 * 60000);
    forall moment | midnight + 580 * 60000 < moment < midnight + 780 * 60000 ensures !NamesMoment(ROUNDS, moment) {
      TimeOfDay(TUESDAY, moment, moment - midnight);
      RoundsFacts(moment);
    }
    NextRunNamed(ROUNDS, "*/20 9-17/4 * * 1-5", midnight + 580 * 60000, midnight + 780 * 60000, accepts);
  }
}
