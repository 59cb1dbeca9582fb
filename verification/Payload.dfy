/** Request payloads: the readers for their fields and the making of record ids. */
module Payload {
  import opened Wrappers
  import opened JsText

  /** A JSON value; booleans, arrays, objects and non-integral numbers are `Other`. */
  datatype Json = Null | Text(text: string) | Integer(n: int) | Other

  type Fields = map<string, Json>

  function Field(payload: Fields, key: string): Option<Json> {
    if key in payload then Some(payload[key]) else None
  }

  function AsString(value: Option<Json>): Option<string> {
    if value.Some? && value.value.Text? && Trim(value.value.text) != "" then Some(Trim(value.value.text)) else None
  }

  function AsNullableString(value: Option<Json>): Option<string> {
    if value == None || value == Some(Null) || value == Some(Text("")) then None else AsString(value)
  }

  function AsInteger(value: Option<Json>): Option<int> {
    match value
    case Some(Integer(n)) => Some(n)
    case Some(Text(text)) => if Trim(text) != "" then JsInteger(text) else None
    case _ => None
  }

  // ----- ids

  predicate SlugChar(c: char) {
    'a' <= c <= 'z' || '0' <= c <= '9' || c == '-'
  }

  function Lower(c: char): char {
    if 'A' <= c <= 'Z' then ((c as int) + 32) as char else c
  }

  function LowerCase(s: string): string {
    if s == "" then "" else [Lower(s[0])] + LowerCase(s[1..])
  }

  /** Each maximal run of other characters becomes one hyphen. */
  function ReplaceOthers(s: string, inRun: bool): string {
    if s == "" then ""
    else if SlugChar(s[0]) then [s[0]] + ReplaceOthers(s[1..], false)
    else if inRun then ReplaceOthers(s[1..], true)
    else "-" + ReplaceOthers(s[1..], true)
  }

  /** Each run of hyphens becomes one hyphen. */
  function CollapseHyphens(s: string): string {
    if |s| < 2 then s
    else if s[0] == '-' && s[1] == '-' then CollapseHyphens(s[1..])
    else [s[0]] + CollapseHyphens(s[1..])
  }

  function StripLeft(s: string): string {
    if s != "" && s[0] == '-' then StripLeft(s[1..]) else s
  }

  function StripRight(s: string): string {
    if s != "" && s[|s| - 1] == '-' then StripRight(s[..|s| - 1]) else s
  }

  function SanitizeId(value: string): string {
    StripRight(StripLeft(CollapseHyphens(ReplaceOthers(LowerCase(Trim(value)), false))))
  }

  /** `candidate` sanitized, or the record kind and the clock when nothing is left of it. */
  function CreateId(kind: string, candidate: Option<string>, now: nat): string {
    var normalized := if Truthy(candidate) then SanitizeId(candidate.value) else "";
    if normalized != "" then normalized else kind + "-" + Decimal(now)
  }

  predicate NoDoubleHyphen(s: string) {
    forall i :: 0 <= i < |s| - 1 ==> !(s[i] == '-' && s[i + 1] == '-')
  }

  /** The canonical form of an id: lower-case letters, digits and single inner hyphens. */
  predicate IsSlug(s: string) {
    && s != "" && s[0] != '-' && s[|s| - 1] != '-'
    && (forall i :: 0 <= i < |s| ==> SlugChar(s[i]))
    && NoDoubleHyphen(s)
  }

  predicate AllSlugChars(s: string) {
    forall i :: 0 <= i < |s| ==> SlugChar(s[i])
  }

  lemma {:induction false} ReplaceGivesSlugChars(s: string, inRun: bool)
    ensures AllSlugChars(ReplaceOthers(s, inRun))
  {
    if s != "" {
      ReplaceGivesSlugChars(s[1..], false);
      ReplaceGivesSlugChars(s[1..], true);
    }
  }

  lemma {:induction false} CollapseGivesSingles(s: string)
    requires AllSlugChars(s)
    ensures AllSlugChars(CollapseHyphens(s)) && NoDoubleHyphen(CollapseHyphens(s))
    ensures s != "" ==> CollapseHyphens(s) != "" && CollapseHyphens(s)[0] == s[0]
  {
    if |s| >= 2 {
      CollapseGivesSingles(s[1..]);
    }
  }

  lemma {:induction false} StripLeftKeeps(s: string)
    requires AllSlugChars(s) && NoDoubleHyphen(s)
    ensures AllSlugChars(StripLeft(s)) && NoDoubleHyphen(StripLeft(s))
    ensures StripLeft(s) != "" ==> StripLeft(s)[0] != '-'
  {
    if s != "" && s[0] == '-' {
      StripLeftKeeps(s[1..]);
    }
  }

  lemma {:induction false} StripRightKeeps(s: string)
    requires AllSlugChars(s) && NoDoubleHyphen(s)
    ensures AllSlugChars(StripRight(s)) && NoDoubleHyphen(StripRight(s))
    ensures StripRight(s) != "" ==> StripRight(s)[|StripRight(s)| - 1] != '-' && StripRight(s)[0] == s[0]
  {
    if s != "" && s[|s| - 1] == '-' {
      StripRightKeeps(s[..|s| - 1]);
    }
  }

  /** Sanitizing gives a canonical id or nothing. */
  lemma SanitizeGivesSlug(value: string)
    ensures SanitizeId(value) == "" || IsSlug(SanitizeId(value))
  {
    var replaced := ReplaceOthers(LowerCase(Trim(value)), false);
    ReplaceGivesSlugChars(LowerCase(Trim(value)), false);
    CollapseGivesSingles(replaced);
    StripLeftKeeps(CollapseHyphens(replaced));
    StripRightKeeps(StripLeft(CollapseHyphens(replaced)));
  }

  lemma {:induction false} LowerKeepsSlug(s: string)
    requires AllSlugChars(s)
    ensures LowerCase(s) == s
  {
    if s != "" {
      LowerKeepsSlug(s[1..]);
    }
  }

  lemma {:induction false} ReplaceKeepsSlug(s: string)
    requires AllSlugChars(s)
    ensures ReplaceOthers(s, false) == s
  {
    if s != "" {
      ReplaceKeepsSlug(s[1..]);
    }
  }

  lemma {:induction false} CollapseKeepsSingles(s: string)
    requires NoDoubleHyphen(s)
    ensures CollapseHyphens(s) == s
  {
    if |s| >= 2 {
      CollapseKeepsSingles(s[1..]);
    }
  }

  /** A canonical id is left as it is, so sanitizing twice changes nothing more. */
  lemma SlugStays(s: string)
    requires IsSlug(s)
    ensures SanitizeId(s) == s
  {
    TrimFacts(s);
    assert Trimmed(s);
    LowerKeepsSlug(s);
    ReplaceKeepsSlug(s);
    CollapseKeepsSingles(s);
  }

  /** Every created id is canonical, and a canonical candidate is taken unchanged. */
  lemma CreatedIdIsSlug(kind: string, candidate: Option<string>, now: nat)
    requires IsSlug(kind)
    ensures IsSlug(CreateId(kind, candidate, now))
    ensures candidate.Some? && IsSlug(candidate.value) ==> CreateId(kind, candidate, now) == candidate.value
  {
    if Truthy(candidate) {
      SanitizeGivesSlug(candidate.value);
      if IsSlug(candidate.value) {
        SlugStays(candidate.value);
      }
    }
    ClockIdIsSlug(kind, Decimal(now));
  }

  lemma ClockIdIsSlug(kind: string, digits: string)
    requires IsSlug(kind) && IsDigits(digits)
    ensures IsSlug(kind + "-" + digits)
  {
    var s := kind + "-" + digits;
    forall i | 0 <= i < |s| ensures SlugChar(s[i]) {
      assert i > |kind| ==> s[i] == digits[i - |kind| - 1];
    }
    forall i | 0 <= i < |s| - 1 ensures !(s[i] == '-' && s[i + 1] == '-') {
      assert i > |kind| ==> s[i] == digits[i - |kind| - 1];
      assert i == |kind| ==> s[i + 1] == digits[0];
    }
    assert s[|s| - 1] == digits[|digits| - 1];
  }

  // ----- what sanitizing keeps: the words, joined by single hyphens

  predicate WordChar(c: char) {
    'a' <= c <= 'z' || '0' <= c <= '9'
  }

  predicate StartsWord(s: string) {
    s != "" && WordChar(s[0])
  }

  /** The maximal runs of lower-case letters and digits. */
  function Words(s: string): (words: seq<string>)
    ensures StartsWord(s) ==> words != []
  {
    if s == "" then []
    else
      var rest := Words(s[1..]);
      if !WordChar(s[0]) then rest
      else if StartsWord(s[1..]) then [[s[0]] + rest[0]] + rest[1..]
      else [[s[0]]] + rest
  }

  lemma {:induction false} ReplaceKeepsWords(s: string, inRun: bool)
    ensures Words(ReplaceOthers(s, inRun)) == Words(s)
    ensures !inRun ==> (StartsWord(ReplaceOthers(s, inRun)) <==> StartsWord(s))
  {
    if s != "" {
      ReplaceKeepsWords(s[1..], false);
      ReplaceKeepsWords(s[1..], true);
      var r := ReplaceOthers(s, inRun);
      if SlugChar(s[0]) {
        assert r[1..] == ReplaceOthers(s[1..], false);
      } else if !inRun {
        assert r[1..] == ReplaceOthers(s[1..], true);
      }
    }
  }

  lemma {:induction false} CollapseKeepsWords(s: string)
    ensures Words(CollapseHyphens(s)) == Words(s)
    ensures StartsWord(CollapseHyphens(s)) <==> StartsWord(s)
  {
    if |s| >= 2 {
      CollapseKeepsWords(s[1..]);
      if s[0] != '-' || s[1] != '-' {
        assert CollapseHyphens(s)[1..] == CollapseHyphens(s[1..]);
      }
    }
  }

  lemma {:induction false} StripLeftKeepsWords(s: string)
    ensures Words(StripLeft(s)) == Words(s)
  {
    if s != "" && s[0] == '-' {
      StripLeftKeepsWords(s[1..]);
    }
  }

  lemma {:induction false} TrailingHyphen(s: string)
    ensures Words(s + "-") == Words(s)
  {
    if s != "" {
      assert (s + "-")[1..] == s[1..] + "-";
      TrailingHyphen(s[1..]);
    }
  }

  lemma {:induction false} StripRightKeepsWords(s: string)
    ensures Words(StripRight(s)) == Words(s)
  {
    if s != "" && s[|s| - 1] == '-' {
      var front := s[..|s| - 1];
      assert s == front + "-";
      TrailingHyphen(front);
      StripRightKeepsWords(front);
    }
  }

  lemma {:induction false} SlugIsItsWords(s: string)
    requires IsSlug(s)
    ensures Join(Words(s), "-") == s
  {
    if |s| > 1 {
      if s[1] == '-' {
        var rest := s[2..];
        assert rest[0] == s[2] && rest[|rest| - 1] == s[|s| - 1];
        SlugIsItsWords(rest);
        assert s[1..][1..] == rest && Words(s[1..]) == Words(rest);
        assert Words(s) == [[s[0]]] + Words(rest);
        assert s == [s[0]] + "-" + rest;
      } else {
        var rest := s[1..];
        assert rest[|rest| - 1] == s[|s| - 1];
        SlugIsItsWords(rest);
        JoinFirst([s[0]], Words(rest));
        assert s == [s[0]] + rest;
      }
    }
  }

  lemma {:induction false} JoinFirst(front: string, words: seq<string>)
    requires words != []
    ensures Join([front + words[0]] + words[1..], "-") == front + Join(words, "-")
  {
    var longer := [front + words[0]] + words[1..];
    assert longer[1..] == words[1..];
  }

  /** Sanitizing lower-cases a text and joins its words with single hyphens; all else is dropped. */
  lemma SanitizeJoinsWords(value: string)
    ensures SanitizeId(value) == Join(Words(LowerCase(Trim(value))), "-")
  {
    var lower := LowerCase(Trim(value));
    var replaced := ReplaceOthers(lower, false);
    ReplaceKeepsWords(lower, false);
    CollapseKeepsWords(replaced);
    StripLeftKeepsWords(CollapseHyphens(replaced));
    StripRightKeepsWords(StripLeft(CollapseHyphens(replaced)));
    SanitizeGivesSlug(value);
    if SanitizeId(value) != "" {
      SlugIsItsWords(SanitizeId(value));
    }
  }

  /** The readers on the values a client sends. */
  lemma ReadersRead(a: string, text: string, b: string, n: nat)
    requires Blank(a) && Blank(b) && Trimmed(text) && text != ""
    ensures AsString(Some(Text(a + text + b))) == AsNullableString(Some(Text(a + text + b))) == Some(text)
    ensures AsString(Some(Text(a + b))) == None && AsNullableString(Some(Text(a + b))) == None
    ensures AsNullableString(None) == AsNullableString(Some(Null)) == None
    ensures AsInteger(Some(Integer(n))) == AsInteger(Some(Text(Decimal(n)))) == Some(n)
    ensures AsInteger(Some(Text("-" + Decimal(n)))) == Some(0 - n)
    ensures AsInteger(Some(Text(a))) == AsInteger(Some(Null)) == None
  {
    TrimStrips(a, text, b);
    TrimStrips(a, "", b);
    assert a + "" + b == a + b;
    TrimStrips(a, "", "");
    assert a + "" + "" == a;
    JsIntegerReads(n);
    DecimalIsPlain(n);
    hide Trim, Decimal, Trimmed, JsInteger;
  }

  lemma {:induction false} DecimalIsPlain(n: nat)
    ensures Trim(Decimal(n)) == Decimal(n) && Trim("-" + Decimal(n)) == "-" + Decimal(n)
  {
    TrimFacts(Decimal(n));
    TrimFacts("-" + Decimal(n));
    hide Decimal, Trim;
  }
}
