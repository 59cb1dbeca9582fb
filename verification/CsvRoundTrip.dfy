/** Importing undoes exporting (packages/data-transfer/src/index.ts), for every accepted list of
    records without line feeds and for nothing else. */
module CsvRoundTrip {
  import opened Wrappers
  import opened JsText
  import opened Keyed
  import opened CsvText
  import opened CsvTransfer

  predicate Matches(d: Dataset, r: Record) {
    match d
    case Tenants => r.TenantRecord?
    case Prefixes => r.PrefixRecord?
    case Sites => r.SiteRecord?
  }

  /** A record that passes the checks and whose texts are trimmed and not blank: coercing its own
      values gives it back. */
  predicate Settled(d: Dataset, r: Record) {
    Matches(d, r) && RecordErrors(r, 0) == [] && RecordOf(d, Values(r)) == r
  }

  function RecordId(r: Record): string { r.id }

  /** What a data set of the store looks like after an import. */
  predicate Acceptable(d: Dataset, records: seq<Record>) {
    (forall i :: 0 <= i < |records| ==> Settled(d, records[i])) && UniqueKeys(records, RecordId)
  }

  predicate NoLineFeed(value: Option<string>) {
    '\n' !in OrElse(value, "")
  }

  predicate LineFeedFree(row: Row) {
    forall i :: 0 <= i < |row| ==> NoLineFeed(row[i])
  }

  predicate AllLineFeedFree(records: seq<Record>) {
    forall i :: 0 <= i < |records| ==> LineFeedFree(Values(records[i]))
  }

  // ----- what the checks accept

  lemma {:induction false} NoDuplicateErrorsIff(records: seq<Record>)
    ensures DuplicateErrors(records) == [] <==> UniqueKeys(records, RecordId)
    decreases |records|
  {
    if records != [] {
      var n := |records| - 1;
      NoDuplicateErrorsIff(records[..n]);
      assert forall i :: 0 <= i < n ==> records[..n][i] == records[i];
      assert UniqueKeys(records, RecordId) <==>
             UniqueKeys(records[..n], RecordId) && !HasId(records[..n], records[n].id);
    }
  }

  /** Every row is good by itself. */
  predicate AllGood(d: Dataset, rows: seq<Row>)
    requires RowsFit(d, rows)
  {
    forall i :: 0 <= i < |rows| ==> RowFits(d, rows[i]) && GoodRow(d, rows[i])
  }

  function RecordsOf(d: Dataset, rows: seq<Row>): (records: seq<Record>)
    requires RowsFit(d, rows)
    ensures |records| == |rows|
    ensures forall i :: 0 <= i < |rows| ==> RowFits(d, rows[i]) && records[i] == RecordOf(d, rows[i])
  {
    seq(|rows|, i requires 0 <= i < |rows| && RowFits(d, rows[i]) => RecordOf(d, rows[i]))
  }

  lemma LastRow(d: Dataset, rows: seq<Row>, n: nat)
    requires RowsFit(d, rows) && |rows| == n + 1
    ensures RowsFit(d, rows[..n]) && RowFits(d, rows[n])
    ensures AllGood(d, rows) <==> AllGood(d, rows[..n]) && GoodRow(d, rows[n])
    ensures RecordsOf(d, rows) == RecordsOf(d, rows[..n]) + [RecordOf(d, rows[n])]
  {
    hide RecordOf, GoodRow, RecordsOf;
    assert forall i :: 0 <= i < n ==> rows[..n][i] == rows[i];
    forall i | 0 <= i < |rows|
      ensures RecordsOf(d, rows)[i] == (RecordsOf(d, rows[..n]) + [RecordOf(d, rows[n])])[i]
    {
    }
  }

  lemma {:induction false} RowErrorsIff(d: Dataset, rows: seq<Row>)
    requires RowsFit(d, rows)
    ensures RowErrors(d, rows) == [] <==> AllGood(d, rows)
    ensures AllGood(d, rows) ==> GoodRecords(d, rows) == RecordsOf(d, rows)
    decreases |rows|
  {
    hide RecordErrors, RecordOf, RowFits, GoodRow;
    if rows != [] {
      var n := |rows| - 1;
      RowErrorsIff(d, rows[..n]);
      RowMeaning(d, rows[n], n + 2);
      LastRow(d, rows, n);
    }
  }

  /** Rows are accepted exactly when each of them is and the ids are unique; the records are then
      those of all rows, in order. */
  lemma ValidIff(d: Dataset, rows: seq<Row>)
    requires RowsFit(d, rows)
    ensures ValidateRows(d, rows).valid <==> AllGood(d, rows) && UniqueKeys(RecordsOf(d, rows), RecordId)
    ensures ValidateRows(d, rows).valid ==> ValidateRows(d, rows) == Validation(true, RecordsOf(d, rows), [])
  {
    hide UniqueKeys, AllGood, RowErrors, GoodRecords, DuplicateErrors;
    RowErrorsIff(d, rows);
    NoDuplicateErrorsIff(GoodRecords(d, rows));
  }

  // ----- a record and its values

  lemma NormalizeTwice(value: Option<string>)
    ensures NormalizeText(Required(value)) == NormalizeCell(value)
    ensures NormalizeCell(NormalizeCell(value)) == NormalizeCell(value)
    ensures Normal(NormalizeCell(value))
  {
    TrimFacts(OrElse(value, ""));
    TrimFacts(Trim(OrElse(value, "")));
    TrimFacts("");
  }

  /** The values of a coerced row are the row's, normalized. */
  lemma ValuesOfRecord(d: Dataset, row: Row)
    requires RowFits(d, row)
    ensures Matches(d, RecordOf(d, row))
    ensures |Values(RecordOf(d, row))| == |row|
    ensures forall i :: 0 <= i < |row| ==>
              Values(RecordOf(d, row))[i] == NormalizeCell(row[i]) && Normal(NormalizeCell(row[i]))
  {
    hide NormalizeCell, NormalizeText, Required, Normal;
    forall i | 0 <= i < |row|
      ensures NormalizeText(Required(row[i])) == NormalizeCell(row[i])
      ensures NormalizeCell(NormalizeCell(row[i])) == NormalizeCell(row[i])
      ensures Normal(NormalizeCell(row[i]))
    {
      NormalizeTwice(row[i]);
    }
  }

  lemma SameNormalized(d: Dataset, row: Row, other: Row)
    requires RowFits(d, row) && RowFits(d, other)
    requires forall i :: 0 <= i < |row| ==> NormalizeCell(other[i]) == NormalizeCell(row[i])
    ensures RecordOf(d, row) == RecordOf(d, other)
  {
    hide NormalizeCell;
  }

  lemma RecordSettles(d: Dataset, row: Row)
    requires RowFits(d, row) && GoodRow(d, row)
    ensures Settled(d, RecordOf(d, row))
  {
    RowMeaning(d, row, 0);
    hide RecordOf, Values, RecordErrors, NormalizeCell, Normal, Headers, Matches;
    var values := Values(RecordOf(d, row));
    ValuesOfRecord(d, row);
    forall i | 0 <= i < |row| ensures NormalizeCell(values[i]) == NormalizeCell(row[i]) {
      NormalizeTwice(row[i]);
    }
    SameNormalized(d, row, values);
  }

  lemma SettledValues(d: Dataset, r: Record)
    requires Settled(d, r)
    ensures RowFits(d, Values(r)) && Values(r)[0].Some?
    ensures forall i :: 0 <= i < |Values(r)| ==> Normal(Values(r)[i])
  {
    hide NormalizeCell, IsTenantStatus, ValidTransferCidr, Normal, NormalizeText;
    ValuesOfRecord(d, Values(r));
    SettledId(d, r);
  }

  lemma SettledId(d: Dataset, r: Record)
    requires Settled(d, r)
    ensures Values(r)[0].Some?
  {
    hide NormalizeText, IsTenantStatus, ValidTransferCidr;
    TrimFacts("");
    assert Check(0, "id", r.id != "") == [];
    assert r.id == Required(Values(r)[0]);
  }

  /** Every import that is accepted, from whatever format, stores settled records with unique
      ids. */
  lemma ImportIsAcceptable(d: Dataset, input: Input)
    requires input.Rows? ==> RowsFit(d, input.rows)
    requires ValidateInput(d, input).valid
    ensures Acceptable(d, ValidateInput(d, input).records)
  {
    hide ParseCsv, ValidateRows, Settled, RecordOf, GoodRow, UniqueKeys;
    var rows := if input.Rows? then input.rows else ParseCsv(d, input.content).value;
    ValidIff(d, rows);
    forall i | 0 <= i < |rows| ensures Settled(d, RecordOf(d, rows[i])) {
      RecordSettles(d, rows[i]);
    }
  }

  /** The rows an input holds, or None for a CSV text whose first line is not the header line. */
  function RowsIn(d: Dataset, input: Input): Option<seq<Row>> {
    match input
    case Csv(content) => ParseCsv(d, content)
    case Rows(rows) => Some(rows)
  }

  /** An import is accepted exactly when its header line, if it has one, is the data set's, every row is
      good and no two rows have the same id; it then yields the record of every row, in order. A wrong
      header is the only error reported for the document, with no records. */
  lemma ImportIff(d: Dataset, input: Input)
    requires input.Rows? ==> RowsFit(d, input.rows)
    ensures var r := ValidateInput(d, input); var rows := RowsIn(d, input);
            && (r.valid <==> rows.Some? && AllGood(d, rows.value) && UniqueKeys(RecordsOf(d, rows.value), RecordId))
            && (r.valid ==> r.records == RecordsOf(d, rows.value) && r.errors == [])
            && (r.valid <==> r.errors == [])
            && (Error(0, "document") in r.errors <==> rows.None?)
            && (rows.None? ==> r.records == [])
  {
    hide ParseCsv, ValidateRows, AllGood, UniqueKeys, RecordsOf;
    var rows := RowsIn(d, input);
    if rows.Some? {
      ValidIff(d, rows.value);
      ErrorsAreOnRows(d, rows.value);
    }
  }

  lemma CheckNumbered(r: Record, n: nat)
    requires n >= 2
    ensures Error(0, "document") !in RecordErrors(r, n)
  {
    hide IsTenantStatus, ValidTransferCidr;
  }

  lemma {:induction false} RowErrorsNumbered(d: Dataset, rows: seq<Row>)
    requires RowsFit(d, rows)
    ensures Error(0, "document") !in RowErrors(d, rows)
    decreases |rows|
  {
    hide RecordErrors, RecordOf, RowFits;
    if rows != [] {
      var n := |rows| - 1;
      FirstRowsFit(d, rows, n);
      RowAt(d, rows, n);
      RowErrorsNumbered(d, rows[..n]);
      CheckNumbered(RecordOf(d, rows[n]), n + 2);
    }
  }

  lemma {:induction false} DuplicatesNameIds(records: seq<Record>)
    ensures Error(0, "document") !in DuplicateErrors(records)
    decreases |records|
  {
    hide HasId;
    if records != [] {
      DuplicatesNameIds(records[..|records| - 1]);
    }
  }

  lemma ErrorsAreOnRows(d: Dataset, rows: seq<Row>)
    requires RowsFit(d, rows)
    ensures Error(0, "document") !in ValidateRows(d, rows).errors
    ensures ValidateRows(d, rows).valid <==> ValidateRows(d, rows).errors == []
  {
    RowErrorsNumbered(d, rows);
    DuplicatesNameIds(GoodRecords(d, rows));
    hide RowErrors, DuplicateErrors, GoodRecords;
  }

  // ----- printed lines

  predicate PlainWord(word: string) {
    word != "" && ',' !in word && '"' !in word && '\n' !in word && Trimmed(word)
  }

  lemma HeadersPlain(d: Dataset)
    ensures forall i :: 0 <= i < |Headers(d)| ==> PlainWord(Headers(d)[i])
  {
  }

  function HeaderValues(d: Dataset): (values: Row)
    ensures |values| == |Headers(d)| && forall i :: 0 <= i < |values| ==> values[i] == Some(Headers(d)[i])
  {
    seq(|Headers(d)|, i requires 0 <= i < |Headers(d)| => Some(Headers(d)[i]))
  }

  /** The header line is what printing the headers as cells gives. */
  lemma HeaderLine(d: Dataset)
    ensures Join(Headers(d), ",") == CsvLine(HeaderValues(d))
    ensures LineCells(Join(Headers(d), ",")) == Headers(d)
    ensures GoodLine(Join(Headers(d), ","))
  {
    hide Headers, LineCells, Join;
    HeadersPlain(d);
    var values := HeaderValues(d);
    assert EscapeAll(values) == Headers(d);
    assert forall i :: 0 <= i < |values| ==> Normal(values[i]) && NoLineFeed(values[i]);
    LineRoundTrip(values);
    assert Texts(values) == Headers(d);
    LineShape(values);
  }

  /** A line that splitting a document gives back as it is. */
  predicate GoodLine(line: string) {
    line != "" && Trimmed(line) && '\n' !in line
  }

  lemma RecordLine(d: Dataset, r: Record)
    requires Settled(d, r)
    ensures LineFeedFree(Values(r)) ==> GoodLine(CsvLine(Values(r)))
    ensures RowOfCells(d, LineCells(CsvLine(Values(r)))) == Values(r)
  {
    hide Values, CsvLine, LineCells, Normal, Settled, Headers, NormalizeText;
    var values := Values(r);
    SettledValues(d, r);
    LineShape(values);
    LineRoundTrip(values);
    forall i | 0 <= i < |values| ensures NormalizeText(Texts(values)[i]) == values[i] {
      NormalStays(values[i]);
    }
  }

  lemma NothingDropped(lines: seq<string>)
    requires forall i :: 0 <= i < |lines| ==> Trimmed(lines[i])
    ensures DropReturns(lines) == lines
  {
    forall i | 0 <= i < |lines| ensures DropReturns(lines)[i] == lines[i] {
      assert Trimmed(lines[i]);
    }
  }

  lemma {:induction false} LinesBack(content: string, lines: seq<string>)
    requires Split(content, '\n') == lines
    requires forall i :: 0 <= i < |lines| ==> Trimmed(lines[i])
    ensures SplitLines(content) == lines
  {
    hide Split, Trimmed, DropReturns;
    var init := lines[..|lines| - 1];
    NothingDropped(init);
    assert init + [lines[|lines| - 1]] == lines;
  }

  lemma {:induction false} SplitDocument(lines: seq<string>)
    requires lines != [] && forall i :: 0 <= i < |lines| ==> GoodLine(lines[i])
    ensures ContentLines(Join(lines, "\n")) == lines
  {
    hide Join, Split, Trimmed, NonEmptyTrimmed, SplitLines;
    SplitJoin(lines, '\n');
    LinesBack(Join(lines, "\n"), lines);
    NonEmptyTrimmedKeeps(lines);
  }

  function ValueRows(records: seq<Record>): (rows: seq<Row>)
    ensures |rows| == |records| && forall i :: 0 <= i < |rows| ==> rows[i] == Values(records[i])
  {
    seq(|records|, i requires 0 <= i < |records| => Values(records[i]))
  }

  /** Parsing a printed document gives the values of its records. */
  lemma ParseExport(d: Dataset, records: seq<Record>)
    requires Acceptable(d, records) && AllLineFeedFree(records)
    ensures ParseCsv(d, ExportCsv(d, records)) == Some(ValueRows(records))
  {
    hide Settled, Values, CsvLine, LineCells, GoodLine, LineFeedFree, Join, ContentLines, Headers, RowOfCells;
    var header := Join(Headers(d), ",");
    var lines := [header] + RecordLines(records);
    HeaderLine(d);
    forall i | 0 <= i < |records|
      ensures GoodLine(RecordLines(records)[i])
      ensures RowOfCells(d, LineCells(RecordLines(records)[i])) == Values(records[i])
    {
      RecordLine(d, records[i]);
    }
    SplitDocument(lines);
    assert lines[1..] == RecordLines(records);
    assert RowsOfLines(d, RecordLines(records)) == ValueRows(records);
  }

  lemma ValueRowsAccepted(d: Dataset, records: seq<Record>)
    requires Acceptable(d, records)
    ensures RowsFit(d, ValueRows(records))
    ensures ValidateRows(d, ValueRows(records)) == Validation(true, records, [])
  {
    hide Values, RecordErrors, RecordOf, Headers, ValidateRows, GoodRow;
    var rows := ValueRows(records);
    forall i | 0 <= i < |rows| ensures RowFits(d, rows[i]) && GoodRow(d, rows[i]) {
      SettledValues(d, records[i]);
      RowMeaning(d, rows[i], 0);
    }
    assert RecordsOf(d, rows) == records;
    ValidIff(d, rows);
  }

  lemma ExportReimports(d: Dataset, records: seq<Record>)
    requires Acceptable(d, records) && AllLineFeedFree(records)
    ensures ValidateInput(d, Csv(ExportCsv(d, records))) == Validation(true, records, [])
  {
    hide Acceptable, AllLineFeedFree, ExportCsv, ParseCsv, ValidateRows, ValueRows;
    ParseExport(d, records);
    ValueRowsAccepted(d, records);
  }

  // ----- no line feed survives a CSV import

  lemma {:induction false} CellChars(rest: string, current: string, inQuotes: bool)
    requires '\n' !in rest && '\n' !in current
    ensures forall i :: 0 <= i < |Cells(rest, current, inQuotes)| ==> '\n' !in Cells(rest, current, inQuotes)[i]
    decreases |rest|
  {
    if rest != "" {
      var c := rest[0];
      assert c in rest;
      if c == '"' && inQuotes && |rest| > 1 && rest[1] == '"' {
        CellChars(rest[2..], current + "\"", true);
      } else if c == '"' {
        CellChars(rest[1..], current, !inQuotes);
      } else if c == ',' && !inQuotes {
        CellChars(rest[1..], "", false);
      } else {
        CellChars(rest[1..], current + [c], inQuotes);
      }
    }
  }

  lemma CellsFree(d: Dataset, line: string)
    requires '\n' !in line
    ensures LineFeedFree(RowOfCells(d, LineCells(line)))
  {
    hide Cells, Headers, Trim;
    CellChars(line, "", false);
    var cells, row := LineCells(line), RowOfCells(d, LineCells(line));
    forall i | 0 <= i < |row| ensures NoLineFeed(row[i]) {
      if i < |cells| {
        TrimFacts(Cells(line, "", false)[i]);
        TrimFacts(cells[i]);
      }
    }
  }

  lemma {:induction false} TrimmedFree(parts: seq<string>)
    requires forall i :: 0 <= i < |parts| ==> '\n' !in parts[i]
    ensures forall i :: 0 <= i < |NonEmptyTrimmed(parts)| ==> '\n' !in NonEmptyTrimmed(parts)[i]
  {
    hide Trim;
    if parts != [] {
      TrimFacts(parts[0]);
      TrimmedFree(parts[1..]);
    }
  }

  lemma ContentLinesFree(content: string)
    ensures forall i :: 0 <= i < |ContentLines(content)| ==> '\n' !in ContentLines(content)[i]
  {
    hide NonEmptyTrimmed, Split;
    var parts := Split(content, '\n');
    SplitPartsFree(content, '\n');
    var lines := SplitLines(content);
    forall i | 0 <= i < |lines| ensures '\n' !in lines[i] {
      assert parts[i] in parts;
    }
    TrimmedFree(lines);
  }

  /** No record taken from a CSV document holds a line feed. */
  lemma CsvRecordsFree(d: Dataset, content: string)
    requires ValidateInput(d, Csv(content)).valid
    ensures AllLineFeedFree(ValidateInput(d, Csv(content)).records)
  {
    hide LineCells, ContentLines, LineFeedFree, RowOfCells, Values, RecordOf, ValidateRows, UniqueKeys, Headers;
    var rows := ParseCsv(d, content).value;
    var lines := ContentLines(content);
    ContentLinesFree(content);
    ValidIff(d, rows);
    forall i | 0 <= i < |rows| ensures LineFeedFree(Values(RecordOf(d, rows[i]))) {
      CellsFree(d, lines[i + 1]);
      ValuesFree(d, rows[i]);
    }
  }

  lemma ValuesFree(d: Dataset, row: Row)
    requires RowFits(d, row) && LineFeedFree(row)
    ensures LineFeedFree(Values(RecordOf(d, row)))
  {
    hide Values, RecordOf, Trim;
    ValuesOfRecord(d, row);
    forall i | 0 <= i < |row| ensures NoLineFeed(NormalizeCell(row[i])) {
      TrimFacts(OrElse(row[i], ""));
    }
  }

  // ----- the main results

  /** An accepted list of records survives export and re-import exactly when no value in it holds a
      line feed: quotes, commas and nulls are no obstacle. */
  lemma ExportReimportsIff(d: Dataset, records: seq<Record>)
    requires Acceptable(d, records)
    ensures ValidateInput(d, Csv(ExportCsv(d, records))) == Validation(true, records, []) <==> AllLineFeedFree(records)
  {
    hide Acceptable, AllLineFeedFree, ExportCsv, ValidateInput;
    if AllLineFeedFree(records) {
      ExportReimports(d, records);
    } else if ValidateInput(d, Csv(ExportCsv(d, records))).valid {
      CsvRecordsFree(d, ExportCsv(d, records));
    }
  }

  /** A tenant whose name runs over two lines, as a JSON import accepts it. */
  const TWO_LINES: Row := [Some("a"), Some("b"), Some("x\ny"), Some("active")]

  lemma TwoLinesIsGood()
    ensures GoodRow(Tenants, TWO_LINES)
    ensures RecordOf(Tenants, TWO_LINES) == TenantRecord("a", "b", "x\ny", "active")
  {
    TrimFacts("a");
    TrimFacts("b");
    TrimFacts("x\ny");
    TrimFacts("active");
    forall i | 0 <= i < 4 ensures NotBlank(TWO_LINES[i]) {
      assert !IsSpace(TWO_LINES[i].value[0]);
    }
    NormalizedCells(TWO_LINES);
    hide Trim, NormalizeCell, Required, NotBlank, IsSpace;
  }

  lemma TwoLinesSettle()
    ensures var r := RecordOf(Tenants, TWO_LINES); Settled(Tenants, r) && !LineFeedFree(Values(r))
  {
    TwoLinesIsGood();
    RecordSettles(Tenants, TWO_LINES);
    ValuesOfRecord(Tenants, TWO_LINES);
    hide RecordOf, Values, GoodRow, Settled;
    TrimFacts("x\ny");
    assert '\n' in "x\ny" by {
      assert "x\ny"[1] == '\n';
    }
  }

  lemma OneRow(d: Dataset, row: Row)
    requires RowFits(d, row) && GoodRow(d, row)
    ensures RowsFit(d, [row]) && AllGood(d, [row]) && RecordsOf(d, [row]) == [RecordOf(d, row)]
  {
    hide RecordOf, GoodRow, RowFits;
  }

  lemma OneSettled(d: Dataset, row: Row)
    requires RowFits(d, row) && GoodRow(d, row)
    ensures Acceptable(d, [RecordOf(d, row)])
  {
    RecordSettles(d, row);
    hide RecordOf, GoodRow, Settled, RowFits;
  }

  lemma OneRowAccepted(d: Dataset, row: Row)
    requires RowFits(d, row) && GoodRow(d, row) && RowsFit(d, [row])
    ensures ValidateInput(d, Rows([row])) == Validation(true, [RecordOf(d, row)], [])
  {
    hide *;
    OneRow(d, row);
    OneSettled(d, row);
    OneIsUnique(RecordOf(d, row));
    ValidIff(d, [row]);
    InputOfRows(d, [row]);
  }

  lemma OneIsUnique(r: Record)
    ensures UniqueKeys([r], RecordId)
  {
  }

  lemma InputOfRows(d: Dataset, rows: seq<Row>)
    requires RowsFit(d, rows)
    ensures ValidateInput(d, Rows(rows)) == ValidateRows(d, rows)
  {
    hide ValidateRows;
  }

  /** A good row with a line feed in it is accepted, and its export does not read back. */
  lemma {:induction false} LineFeedIsLost(d: Dataset, row: Row)
    requires RowFits(d, row) && GoodRow(d, row) && !LineFeedFree(Values(RecordOf(d, row)))
    ensures RowsFit(d, [row])
    ensures ValidateInput(d, Rows([row])) == Validation(true, [RecordOf(d, row)], [])
    ensures ValidateInput(d, Csv(ExportCsv(d, [RecordOf(d, row)]))) != Validation(true, [RecordOf(d, row)], [])
  {
    OneRow(d, row);
    OneRowAccepted(d, row);
    OneSettled(d, row);
    var records := [RecordOf(d, row)];
    assert !AllLineFeedFree(records);
    hide RecordOf, GoodRow, Acceptable, ValidateInput, RowFits, AllLineFeedFree, ExportCsv;
    ExportReimportsIff(d, records);
  }

  lemma TwoLinesAreLost()
    ensures var records := [RecordOf(Tenants, TWO_LINES)];
            && ValidateInput(Tenants, Rows([TWO_LINES])) == Validation(true, records, [])
            && ValidateInput(Tenants, Csv(ExportCsv(Tenants, records))) != Validation(true, records, [])
  {
    TwoLinesIsGood();
    TwoLinesSettle();
    hide GoodRow, RecordOf, Values, ValidateInput, ExportCsv, LineFeedFree, Settled;
    LineFeedIsLost(Tenants, TWO_LINES);
  }

  /** Whatever CSV text is accepted, exporting what it stored and importing that again gives the
      same records in the same order. */
  lemma CsvIsStable(d: Dataset, content: string)
    requires ValidateInput(d, Csv(content)).valid
    ensures var records := ValidateInput(d, Csv(content)).records;
            ValidateInput(d, Csv(ExportCsv(d, records))) == Validation(true, records, [])
  {
    hide Acceptable, AllLineFeedFree, ExportCsv, ValidateInput;
    ImportIsAcceptable(d, Csv(content));
    CsvRecordsFree(d, content);
    ExportReimports(d, ValidateInput(d, Csv(content)).records);
  }

  /** The same through the store: import, export, import. The second import commits, and leaves the
      data set as the first one did. */
  method ImportExportImport(store: TransferStore, d: Dataset, content: string) returns (first: bool, second: bool)
    modifies store
    ensures first ==> second
    ensures first ==> store.Stored(d) == ValidateInput(d, Csv(content)).records
  {
    hide ValidateInput, ExportCsv;
    var r, body, count, again;
    r, first := store.ApplyImport(d, Csv(content));
    if !first {
      return first, false;
    }
    CsvIsStable(d, content);
    body, count := store.ExportDataset(d);
    again, second := store.ApplyImport(d, Csv(body));
  }
}
