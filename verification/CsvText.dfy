/** One line of CSV (packages/data-transfer/src/index.ts): the quote automaton that takes a line
    apart and the escaping that it undoes (section 2 of RFC 4180). */
module CsvText {
  import opened Wrappers
  import opened JsText

  // ----- taking a line apart

  /** The cells of the rest of a line, given the text of the current cell so far and whether a
      quote is open. */
  function Cells(rest: string, current: string, inQuotes: bool): (cells: seq<string>)
    ensures |cells| >= 1
    decreases |rest|
  {
    if rest == "" then [current]
    else if rest[0] == '"' then
      if inQuotes && |rest| > 1 && rest[1] == '"' then Cells(rest[2..], current + "\"", true)
      else Cells(rest[1..], current, !inQuotes)
    else if rest[0] == ',' && !inQuotes then [current] + Cells(rest[1..], "", false)
    else Cells(rest[1..], current + [rest[0]], inQuotes)
  }

  function TrimAll(cells: seq<string>): (r: seq<string>)
    ensures |r| == |cells| && forall i :: 0 <= i < |r| ==> r[i] == Trim(cells[i])
  {
    seq(|cells|, i requires 0 <= i < |cells| => Trim(cells[i]))
  }

  function LineCells(line: string): seq<string> {
    TrimAll(Cells(line, "", false))
  }

  method SplitCsvLine(line: string) returns (r: seq<string>)
    ensures r == LineCells(line)
  {
    var cells: seq<string> := [];
    var current, inQuotes, index := "", false, 0;
    while index < |line|
      invariant index <= |line|
      invariant cells + Cells(line[index..], current, inQuotes) == Cells(line, "", false)
    {
      var character := line[index];
      var rest := line[index..];
      assert rest[1..] == line[index + 1..];
      if character == '"' {
        if inQuotes && index + 1 < |line| && line[index + 1] == '"' {
          assert rest[2..] == line[index + 2..];
          current := current + "\"";
          index := index + 1;
        } else {
          inQuotes := !inQuotes;
        }
      } else if character == ',' && !inQuotes {
        assert cells + ([current] + Cells(rest[1..], "", false)) == cells + [current] + Cells(rest[1..], "", false);
        cells := cells + [current];
        current := "";
      } else {
        current := current + [character];
      }
      index := index + 1;
    }
    cells := cells + [current];
    r := TrimAll(cells);
  }

  // ----- printing a cell

  /** `value.replaceAll("\"", "\"\"")` */
  function DoubleQuotes(value: string): string {
    if value == "" then ""
    else (if value[0] == '"' then "\"\"" else [value[0]]) + DoubleQuotes(value[1..])
  }

  /** The text of a cell as it is printed; null prints as nothing. */
  function EscapeCsvValue(value: Option<string>): string {
    var normalized := OrElse(value, "");
    if ',' in normalized || '"' in normalized || '\n' in normalized then "\"" + DoubleQuotes(normalized) + "\""
    else normalized
  }

  /** A cell is printed as it is exactly when it holds no comma, quote or line feed; otherwise between quotes. */
  lemma {:induction false} EscapedIff(value: string)
    ensures EscapeCsvValue(Some(value)) == value <==> ',' !in value && '"' !in value && '\n' !in value
    ensures EscapeCsvValue(Some(value)) != value ==> EscapeCsvValue(Some(value)) == "\"" + DoubleQuotes(value) + "\""
    ensures EscapeCsvValue(None) == ""
  {
    DoublingGrows(value);
    hide DoubleQuotes;
  }

  lemma {:induction false} DoublingGrows(value: string)
    ensures |DoubleQuotes(value)| >= |value|
  {
    if value != "" {
      DoublingGrows(value[1..]);
    }
  }

  function EscapeAll(values: seq<Option<string>>): (r: seq<string>)
    ensures |r| == |values| && forall i :: 0 <= i < |r| ==> r[i] == EscapeCsvValue(values[i])
  {
    seq(|values|, i requires 0 <= i < |values| => EscapeCsvValue(values[i]))
  }

  function CsvLine(values: seq<Option<string>>): string {
    Join(EscapeAll(values), ",")
  }

  // ----- reading undoes printing

  /** Outside quotes, text without commas and quotes goes into the current cell unchanged. */
  lemma {:induction false} PlainText(value: string, rest: string, current: string)
    requires ',' !in value && '"' !in value
    ensures Cells(value + rest, current, false) == Cells(rest, current + value, false)
    decreases |value|
  {
    if value == "" {
      assert value + rest == rest && current + value == current;
    } else {
      assert (value + rest)[1..] == value[1..] + rest;
      PlainText(value[1..], rest, current + [value[0]]);
      assert current + [value[0]] + value[1..] == current + value;
    }
  }

  /** Inside quotes, text with its quotes doubled comes out undoubled, commas included, up to a
      closing quote that no further quote follows. */
  lemma {:induction false} QuotedText(value: string, rest: string, current: string)
    requires rest == "" || rest[0] != '"'
    ensures Cells(DoubleQuotes(value) + "\"" + rest, current, true) == Cells(rest, current + value, false)
    decreases |value|
  {
    var s := DoubleQuotes(value) + "\"" + rest;
    if value == "" {
      assert s == "\"" + rest && s[1..] == rest && current + value == current;
    } else {
      var tail := DoubleQuotes(value[1..]) + "\"" + rest;
      QuotedText(value[1..], rest, current + [value[0]]);
      assert current + [value[0]] + value[1..] == current + value;
      if value[0] == '"' {
        assert s == "\"\"" + tail && s[2..] == tail;
      } else {
        assert s == [value[0]] + tail && s[1..] == tail;
      }
    }
  }

  lemma {:induction false} OpenQuote(rest: string, current: string)
    ensures Cells("\"" + rest, current, false) == Cells(rest, current, true)
  {
    assert ("\"" + rest)[1..] == rest;
  }

  lemma {:induction false} EscapedCell(value: Option<string>, rest: string)
    requires rest == "" || rest[0] == ','
    ensures Cells(EscapeCsvValue(value) + rest, "", false) == Cells(rest, OrElse(value, ""), false)
  {
    hide Cells, DoubleQuotes;
    var text := OrElse(value, "");
    assert "" + text == text;
    if ',' in text || '"' in text || '\n' in text {
      var quoted := DoubleQuotes(text) + "\"" + rest;
      assert EscapeCsvValue(value) + rest == "\"" + quoted;
      OpenQuote(quoted, "");
      QuotedText(text, rest, "");
    } else {
      PlainText(text, rest, "");
    }
  }

  function Texts(values: seq<Option<string>>): (r: seq<string>)
    ensures |r| == |values| && forall i :: 0 <= i < |r| ==> r[i] == OrElse(values[i], "")
  {
    seq(|values|, i requires 0 <= i < |values| => OrElse(values[i], ""))
  }

  /** Taking apart undoes putting together, whatever the cells hold. */
  lemma {:induction false} CellsOfLine(values: seq<Option<string>>)
    requires values != []
    ensures Cells(CsvLine(values), "", false) == Texts(values)
    decreases |values|
  {
    hide EscapeCsvValue;
    var first := EscapeCsvValue(values[0]);
    if |values| == 1 {
      EscapedCell(values[0], "");
      assert first + "" == first;
    } else {
      var rest := CsvLine(values[1..]);
      assert EscapeAll(values)[1..] == EscapeAll(values[1..]);
      assert CsvLine(values) == first + ("," + rest);
      EscapedCell(values[0], "," + rest);
      assert ("," + rest)[1..] == rest;
      CellsOfLine(values[1..]);
    }
  }

  // ----- null and blank cells

  /** `normalizeCell` of a text: trimmed, and null when nothing is left. */
  function NormalizeText(text: string): Option<string> {
    if Trim(text) == "" then None else Some(Trim(text))
  }

  /** Null, or a non-empty text without white space at either end. */
  predicate Normal(value: Option<string>) {
    value.Some? ==> value.value != "" && Trimmed(value.value)
  }

  lemma NormalStays(value: Option<string>)
    requires Normal(value)
    ensures NormalizeText(OrElse(value, "")) == value
    ensures Trim(OrElse(value, "")) == OrElse(value, "")
  {
    TrimFacts(OrElse(value, ""));
  }

  /** A printed line of normal cells reads back as their texts. */
  lemma LineRoundTrip(values: seq<Option<string>>)
    requires values != [] && forall i :: 0 <= i < |values| ==> Normal(values[i])
    ensures LineCells(CsvLine(values)) == Texts(values)
  {
    hide Cells, CsvLine, Trim, Normal;
    CellsOfLine(values);
    forall i | 0 <= i < |values| ensures Trim(OrElse(values[i], "")) == OrElse(values[i], "") {
      NormalStays(values[i]);
    }
  }

  // ----- the shape of a printed line

  lemma {:induction false} DoubledChars(value: string)
    ensures forall c :: c in DoubleQuotes(value) ==> c in value
  {
    if value != "" {
      DoubledChars(value[1..]);
    }
  }

  /** A printed cell begins and ends with no white space and holds a line feed only if the value
      does. */
  lemma EscapedShape(value: Option<string>)
    requires Normal(value)
    ensures Trimmed(EscapeCsvValue(value))
    ensures value.Some? <==> EscapeCsvValue(value) != ""
    ensures '\n' in EscapeCsvValue(value) <==> '\n' in OrElse(value, "")
  {
    DoubledChars(OrElse(value, ""));
    KeptFeeds(OrElse(value, ""));
  }

  lemma {:induction false} KeptFeeds(value: string)
    ensures '\n' in value ==> '\n' in DoubleQuotes(value)
  {
    if value != "" {
      KeptFeeds(value[1..]);
    }
  }

  lemma {:induction false} JoinShape(parts: seq<string>)
    requires |parts| >= 1 && forall i :: 0 <= i < |parts| ==> Trimmed(parts[i])
    ensures |parts| >= 2 ==> Join(parts, ",") != ""
    ensures Join(parts, ",") != "" ==> !IsSpace(Join(parts, ",")[|Join(parts, ",")| - 1])
    ensures parts[0] != "" ==> Join(parts, ",") != "" && Join(parts, ",")[0] == parts[0][0]
    ensures forall c :: c in Join(parts, ",") ==> c == ',' || exists i :: 0 <= i < |parts| && c in parts[i]
  {
    if |parts| > 1 {
      var rest := Join(parts[1..], ",");
      JoinShape(parts[1..]);
      assert Join(parts, ",") == parts[0] + "," + rest;
    }
  }

  /** A printed line whose first cell is not null is not blank, survives trimming, and holds a line
      feed only if a cell does. */
  lemma LineShape(values: seq<Option<string>>)
    requires |values| >= 1 && values[0].Some? && forall i :: 0 <= i < |values| ==> Normal(values[i])
    ensures CsvLine(values) != "" && Trimmed(CsvLine(values))
    ensures (forall i :: 0 <= i < |values| ==> '\n' !in OrElse(values[i], "")) ==> '\n' !in CsvLine(values)
  {
    hide EscapeCsvValue, Join;
    var parts := EscapeAll(values);
    forall i | 0 <= i < |values|
      ensures Trimmed(parts[i]) && ('\n' in parts[i] <==> '\n' in OrElse(values[i], ""))
    {
      EscapedShape(values[i]);
    }
    EscapedShape(values[0]);
    JoinShape(parts);
  }
}
