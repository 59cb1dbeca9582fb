/** The text primitives the program takes from its language: `trim`, `split`, `join`, the
    digit-string patterns and the reading and printing of decimal integers. */
module JsText {
  import opened Wrappers

  // ----- white space

  /** The characters `String.prototype.trim` removes (section 22.1.3.32 of ECMA-262). */
  predicate IsSpace(c: char) {
    || '\t' <= c <= '\r'
    || c == ' ' || c == '\U{00A0}' || c == '\U{1680}'
    || '\U{2000}' <= c <= '\U{200A}'
    || c == '\U{2028}' || c == '\U{2029}' || c == '\U{202F}' || c == '\U{205F}'
    || c == '\U{3000}' || c == '\U{FEFF}'
  }

  function TrimStart(s: string): string {
    if s != "" && IsSpace(s[0]) then TrimStart(s[1..]) else s
  }

  function TrimEnd(s: string): string {
    if s != "" && IsSpace(s[|s| - 1]) then TrimEnd(s[..|s| - 1]) else s
  }

  function Trim(s: string): string {
    TrimEnd(TrimStart(s))
  }

  /** Neither end of the text is white space. */
  predicate Trimmed(s: string) {
    s != "" ==> !IsSpace(s[0]) && !IsSpace(s[|s| - 1])
  }

  lemma {:induction false} TrimStartFacts(s: string)
    ensures TrimStart(s) != "" ==> !IsSpace(TrimStart(s)[0])
    ensures TrimStart(s) != "" ==> s != "" && TrimStart(s)[|TrimStart(s)| - 1] == s[|s| - 1]
    ensures forall c :: c in TrimStart(s) ==> c in s
  {
    if s != "" && IsSpace(s[0]) {
      TrimStartFacts(s[1..]);
    }
  }

  lemma {:induction false} TrimEndFacts(s: string)
    ensures TrimEnd(s) != "" ==> !IsSpace(TrimEnd(s)[|TrimEnd(s)| - 1])
    ensures TrimEnd(s) != "" ==> s != "" && TrimEnd(s)[0] == s[0]
    ensures forall c :: c in TrimEnd(s) ==> c in s
  {
    if s != "" && IsSpace(s[|s| - 1]) {
      TrimEndFacts(s[..|s| - 1]);
    }
  }

  lemma TrimFacts(s: string)
    ensures Trimmed(Trim(s))
    ensures Trimmed(s) ==> Trim(s) == s
    ensures forall c :: c in Trim(s) ==> c in s
  {
    TrimStartFacts(s);
    TrimEndFacts(TrimStart(s));
  }

  /** Trimming leaves nothing exactly of blank texts. */
  lemma {:induction false} TrimStartBlank(s: string)
    ensures TrimStart(s) == "" <==> forall i :: 0 <= i < |s| ==> IsSpace(s[i])
  {
    hide IsSpace;
    if s != "" && IsSpace(s[0]) {
      TrimStartBlank(s[1..]);
      assert forall i :: 1 <= i < |s| ==> s[i] == s[1..][i - 1];
    }
  }

  lemma TrimBlank(s: string)
    ensures Trim(s) == "" <==> forall i :: 0 <= i < |s| ==> IsSpace(s[i])
  {
    TrimStartBlank(s);
    TrimStartFacts(s);
    TrimEndKeepsFirst(TrimStart(s));
    hide IsSpace;
  }

  lemma {:induction false} TrimEndKeepsFirst(s: string)
    requires s != "" ==> !IsSpace(s[0])
    ensures TrimEnd(s) == "" <==> s == ""
  {
    hide IsSpace;
    if s != "" && IsSpace(s[|s| - 1]) {
      TrimEndKeepsFirst(s[..|s| - 1]);
    }
  }

  predicate Blank(s: string) {
    forall i :: 0 <= i < |s| ==> IsSpace(s[i])
  }

  lemma {:induction false} TrimStartStrips(a: string, t: string)
    requires Blank(a) && (t != "" ==> !IsSpace(t[0]))
    ensures TrimStart(a + t) == t
  {
    hide IsSpace;
    if a == "" {
      assert a + t == t;
    } else {
      assert (a + t)[1..] == a[1..] + t;
      TrimStartStrips(a[1..], t);
    }
  }

  lemma {:induction false} TrimEndStrips(t: string, b: string)
    requires Blank(b) && (t != "" ==> !IsSpace(t[|t| - 1]))
    ensures TrimEnd(t + b) == t
  {
    hide IsSpace;
    if b == "" {
      assert t + b == t;
    } else {
      assert (t + b)[..|t + b| - 1] == t + b[..|b| - 1];
      TrimEndStrips(t, b[..|b| - 1]);
    }
  }

  /** Trimming strips the white space around a text and nothing else. */
  lemma TrimStrips(a: string, t: string, b: string)
    requires Blank(a) && Blank(b) && Trimmed(t)
    ensures Trim(a + t + b) == t
  {
    hide IsSpace;
    if t == "" {
      assert Blank(a + t + b);
      TrimBlank(a + t + b);
    } else {
      assert a + t + b == a + (t + b);
      TrimStartStrips(a, t + b);
      TrimEndStrips(t, b);
    }
  }

  // ----- splitting and joining

  /** `s.split(separator)` for a one-character separator. */
  function Split(s: string, separator: char): (parts: seq<string>)
    ensures |parts| >= 1
  {
    if s == "" then [""]
    else
      var rest := Split(s[1..], separator);
      if s[0] == separator then [""] + rest else [[s[0]] + rest[0]] + rest[1..]
  }

  /** `parts.join(separator)` */
  function Join(parts: seq<string>, separator: string): string {
    if |parts| == 0 then ""
    else if |parts| == 1 then parts[0]
    else parts[0] + separator + Join(parts[1..], separator)
  }

  lemma {:induction false} SplitOne(part: string, separator: char)
    requires separator !in part
    ensures Split(part, separator) == [part]
  {
    if part != "" {
      SplitOne(part[1..], separator);
      assert part == [part[0]] + part[1..];
    }
  }

  lemma {:induction false} SplitFirst(part: string, separator: char, rest: string)
    requires separator !in part
    ensures Split(part + [separator] + rest, separator) == [part] + Split(rest, separator)
  {
    var s := part + [separator] + rest;
    if part == "" {
      assert s[1..] == rest;
    } else {
      assert s[1..] == part[1..] + [separator] + rest;
      SplitFirst(part[1..], separator, rest);
      assert part == [part[0]] + part[1..];
    }
  }

  /** Splitting undoes joining when no part holds the separator. */
  lemma {:induction false} SplitJoin(parts: seq<string>, separator: char)
    requires |parts| >= 1
    requires forall i :: 0 <= i < |parts| ==> separator !in parts[i]
    ensures Split(Join(parts, [separator]), separator) == parts
  {
    if |parts| == 1 {
      SplitOne(parts[0], separator);
    } else {
      SplitJoin(parts[1..], separator);
      SplitFirst(parts[0], separator, Join(parts[1..], [separator]));
    }
  }

  lemma {:induction false} SplitPartsFree(s: string, separator: char)
    ensures forall part :: part in Split(s, separator) ==> separator !in part && (forall c :: c in part ==> c in s)
  {
    if s != "" {
      SplitPartsFree(s[1..], separator);
      var rest := Split(s[1..], separator);
      forall part | part in Split(s, separator)
        ensures separator !in part && forall c :: c in part ==> c in s
      {
        if s[0] == separator {
          assert part == "" || part in rest;
        } else if part !in rest {
          assert part == [s[0]] + rest[0];
          assert rest[0] in rest;
        }
      }
    }
  }

  /** `parts.map((part) => part.trim()).filter(Boolean)` */
  function NonEmptyTrimmed(parts: seq<string>): seq<string> {
    if parts == [] then []
    else (if Trim(parts[0]) != "" then [Trim(parts[0])] else []) + NonEmptyTrimmed(parts[1..])
  }

  lemma {:induction false} NonEmptyTrimmedKeeps(parts: seq<string>)
    requires forall i :: 0 <= i < |parts| ==> parts[i] != "" && Trimmed(parts[i])
    ensures NonEmptyTrimmed(parts) == parts
  {
    hide Trim;
    if parts != [] {
      TrimFacts(parts[0]);
      NonEmptyTrimmedKeeps(parts[1..]);
      assert parts == [parts[0]] + parts[1..];
    }
  }

  // ----- digit strings

  predicate IsDigit(c: char) {
    '0' <= c <= '9'
  }

  function DigitValue(c: char): nat
    requires IsDigit(c)
  {
    (c as int) - ('0' as int)
  }

  /** The pattern `^\d+$` */
  predicate IsDigits(s: string) {
    s != "" && forall i :: 0 <= i < |s| ==> IsDigit(s[i])
  }

  function DigitsValue(s: string): nat
    requires forall i :: 0 <= i < |s| ==> IsDigit(s[i])
  {
    if s == "" then 0
    else 10 * DigitsValue(s[..|s| - 1]) + DigitValue(s[|s| - 1])
  }

  /** A number from a text matching `^\d+$`, or None. */
  function ParseDigits(s: string): Option<nat> {
    if IsDigits(s) then Some(DigitsValue(s)) else None
  }

  /** `Number(s)` when it is an integer, else None: blank text is 0, and an optional sign before
      a digit string is allowed. Fractions, exponents and radix prefixes are outside this model. */
  function JsInteger(s: string): Option<int> {
    var t := Trim(s);
    if t == "" then Some(0)
    else if t[0] == '-' && IsDigits(t[1..]) then Some(-(DigitsValue(t[1..]) as int))
    else if t[0] == '+' && IsDigits(t[1..]) then Some(DigitsValue(t[1..]))
    else if IsDigits(t) then Some(DigitsValue(t))
    else None
  }

  /** The decimal text of a non-negative integer. */
  function Decimal(n: nat): (s: string)
    ensures IsDigits(s)
  {
    if n < 10 then [('0' as int + n) as char]
    else Decimal(n / 10) + [('0' as int + n % 10) as char]
  }

  lemma {:induction false} DecimalValue(n: nat)
    ensures DigitsValue(Decimal(n)) == n
  {
    if n >= 10 {
      var s := Decimal(n);
      assert s[..|s| - 1] == Decimal(n / 10);
      DecimalValue(n / 10);
    } else {
      assert Decimal(n)[..0] == "";
    }
  }

  /** A printed integer reads back. */
  lemma JsIntegerReads(n: nat)
    ensures JsInteger(Decimal(n)) == Some(n) && JsInteger("-" + Decimal(n)) == Some(0 - n)
  {
    var t := Decimal(n);
    TrimFacts(t);
    TrimFacts("-" + t);
    DecimalValue(n);
    assert ("-" + t)[1..] == t;
    hide Trim, Decimal;
  }

  lemma {:induction false} DecimalInjective(a: nat, b: nat)
    requires Decimal(a) == Decimal(b)
    ensures a == b
  {
    DecimalValue(a);
    DecimalValue(b);
  }
}
