/** Importing and exporting data sets (packages/data-transfer/src/index.ts). */
module CsvTransfer {
  import opened Wrappers
  import opened JsText
  import opened CsvText
  import InventoryModel
  import PrefixHierarchy

  datatype Dataset = Tenants | Prefixes | Sites

  datatype Record =
    | TenantRecord(id: string, slug: string, name: string, status: string)
    | PrefixRecord(id: string, vrfId: string, cidr: string, status: string,
                   tenantId: Option<string>, vlanId: Option<string>, parentPrefixId: Option<string>)
    | SiteRecord(id: string, slug: string, name: string, tenantId: Option<string>)

  function Headers(d: Dataset): (headers: seq<string>)
    ensures |headers| >= 4
  {
    match d
    case Tenants => ["id", "slug", "name", "status"]
    case Prefixes => ["id", "vrfId", "cidr", "status", "tenantId", "vlanId", "parentPrefixId"]
    case Sites => ["id", "slug", "name", "tenantId"]
  }

  /** An unchecked record: the text under each header, in header order; null where there is none. */
  type Row = seq<Option<string>>

  predicate RowFits(d: Dataset, row: Row) {
    |row| == |Headers(d)|
  }

  /** `normalizeCell` */
  function NormalizeCell(value: Option<string>): Option<string> {
    if value.None? then None else NormalizeText(value.value)
  }

  function Required(value: Option<string>): string {
    OrElse(NormalizeCell(value), "")
  }

  // ----- checking records

  datatype Error = Error(row: nat, field: string)

  function RecordOf(d: Dataset, row: Row): Record
    requires RowFits(d, row)
  {
    match d
    case Tenants =>
      TenantRecord(Required(row[0]), Required(row[1]), Required(row[2]), Required(row[3]))
    case Prefixes =>
      PrefixRecord(Required(row[0]), Required(row[1]), Required(row[2]), Required(row[3]),
                   NormalizeCell(row[4]), NormalizeCell(row[5]), NormalizeCell(row[6]))
    case Sites =>
      SiteRecord(Required(row[0]), Required(row[1]), Required(row[2]), NormalizeCell(row[3]))
  }

  predicate IsTenantStatus(status: string) {
    status == "active" || status == "suspended" || status == "retired"
  }

  predicate ValidTransferCidr(cidr: string) {
    PrefixHierarchy.ValidCidrShape(if ':' in cidr then InventoryModel.V6 else InventoryModel.V4, cidr)
  }

  function Check(row: nat, field: string, fine: bool): seq<Error> {
    if fine then [] else [Error(row, field)]
  }

  function RecordErrors(r: Record, row: nat): seq<Error> {
    match r
    case TenantRecord(id, slug, name, status) =>
      Check(row, "id", id != "") + Check(row, "slug", slug != "") + Check(row, "name", name != "")
      + Check(row, "status", IsTenantStatus(status))
    case PrefixRecord(id, vrfId, cidr, status, _, _, _) =>
      Check(row, "id", id != "") + Check(row, "vrfId", vrfId != "") + Check(row, "status", status != "")
      + Check(row, "cidr", ValidTransferCidr(cidr))
    case SiteRecord(id, slug, name, _) =>
      Check(row, "id", id != "") + Check(row, "slug", slug != "") + Check(row, "name", name != "")
  }

  // ----- what the checks ask of a row

  /** The cell holds something besides white space. */
  predicate NotBlank(value: Option<string>): (b: bool)
    ensures b ==> value.Some?
  {
    value.Some? && exists i :: 0 <= i < |value.value| && !IsSpace(value.value[i])
  }

  const TENANT_STATUSES: set<string> := {"active", "suspended", "retired"}

  predicate GoodTenant(row: Row)
    requires RowFits(Tenants, row)
  {
    && NotBlank(row[0]) && NotBlank(row[1]) && NotBlank(row[2])
    && row[3].Some? && Trim(row[3].value) in TENANT_STATUSES
  }

  predicate GoodPrefix(row: Row)
    requires RowFits(Prefixes, row)
  {
    && NotBlank(row[0]) && NotBlank(row[1]) && NotBlank(row[3])
    && row[2].Some? && ValidTransferCidr(Trim(row[2].value))
  }

  predicate GoodSite(row: Row)
    requires RowFits(Sites, row)
  {
    NotBlank(row[0]) && NotBlank(row[1]) && NotBlank(row[2])
  }

  /** Normalizing keeps the trimmed text of a cell that is not blank, and nothing else. */
  lemma NormalizedCell(value: Option<string>)
    ensures NormalizeCell(value) == if NotBlank(value) then Some(Trim(value.value)) else None
    ensures Required(value) != "" <==> NotBlank(value)
    ensures value.Some? ==> Required(value) == Trim(value.value)
    ensures value.None? ==> Required(value) == ""
  {
    if value.Some? {
      TrimBlank(value.value);
    }
    hide Trim, IsSpace;
  }

  lemma NormalizedCells(row: Row)
    ensures forall i :: 0 <= i < |row| ==>
              && NormalizeCell(row[i]) == (if NotBlank(row[i]) then Some(Trim(row[i].value)) else None)
              && (Required(row[i]) != "" <==> NotBlank(row[i]))
              && Required(row[i]) == if row[i].Some? then Trim(row[i].value) else ""
  {
    hide NormalizeCell, Required, NotBlank, Trim;
    forall i | 0 <= i < |row|
      ensures
        && NormalizeCell(row[i]) == (if NotBlank(row[i]) then Some(Trim(row[i].value)) else None)
        && (Required(row[i]) != "" <==> NotBlank(row[i]))
        && Required(row[i]) == if row[i].Some? then Trim(row[i].value) else ""
    {
      NormalizedCell(row[i]);
    }
  }

  lemma BlankIsNoCidr()
    ensures !ValidTransferCidr("")
  {
  }

  lemma TenantRowMeaning(row: Row, n: nat)
    requires RowFits(Tenants, row)
    ensures var errors := RecordErrors(RecordOf(Tenants, row), n);
            && (errors == [] <==> GoodTenant(row))
            && (Error(n, "id") in errors <==> !NotBlank(row[0]))
            && (Error(n, "slug") in errors <==> !NotBlank(row[1]))
            && (Error(n, "name") in errors <==> !NotBlank(row[2]))
  {
    NormalizedCells(row);
    hide NormalizeCell, Required, NotBlank, Trim;
  }

  lemma TenantRowRecord(row: Row)
    requires RowFits(Tenants, row) && GoodTenant(row)
    ensures RecordOf(Tenants, row) ==
            TenantRecord(Trim(row[0].value), Trim(row[1].value), Trim(row[2].value), Trim(row[3].value))
  {
    NormalizedCells(row);
    hide NormalizeCell, Required, NotBlank, Trim;
  }

  method PushTenantErrors(coerced: Record, n: nat) returns (errors: seq<Error>)
    requires coerced.TenantRecord?
    ensures errors == RecordErrors(coerced, n)
  {
    hide IsTenantStatus;
    errors := [];
    if coerced.id == "" {
      errors := errors + [Error(n, "id")];
    }
    if coerced.slug == "" {
      errors := errors + [Error(n, "slug")];
    }
    if coerced.name == "" {
      errors := errors + [Error(n, "name")];
    }
    if !IsTenantStatus(coerced.status) {
      errors := errors + [Error(n, "status")];
    }
  }

  /** A tenant row is accepted exactly when its id, slug and name are not blank and its status is a
      known one; the record then holds the trimmed texts. Each blank or unknown cell is reported. */
  method CoerceTenantRecord(row: Row, n: nat) returns (record: Option<Record>, errors: seq<Error>)
    requires RowFits(Tenants, row)
    ensures record.Some? <==> errors == []
    ensures record.Some? <==> GoodTenant(row)
    ensures record.Some? ==> record.value == TenantRecord(Trim(row[0].value), Trim(row[1].value),
                                                          Trim(row[2].value), Trim(row[3].value))
    ensures Error(n, "id") in errors <==> !NotBlank(row[0])
    ensures Error(n, "slug") in errors <==> !NotBlank(row[1])
    ensures Error(n, "name") in errors <==> !NotBlank(row[2])
    ensures errors == RecordErrors(RecordOf(Tenants, row), n)
    ensures record == if errors == [] then Some(RecordOf(Tenants, row)) else None
  {
    var coerced := RecordOf(Tenants, row);
    assert coerced.TenantRecord?;
    hide RecordOf, RecordErrors, NotBlank, Trim;
    TenantRowMeaning(row, n);
    if GoodTenant(row) {
      TenantRowRecord(row);
    }
    errors := PushTenantErrors(coerced, n);
    record := if errors == [] then Some(coerced) else None;
  }

  lemma PrefixRowMeaning(row: Row, n: nat)
    requires RowFits(Prefixes, row)
    ensures var r := RecordOf(Prefixes, row); var errors := RecordErrors(r, n);
            && (errors == [] <==> GoodPrefix(row))
            && (Error(n, "id") in errors <==> !NotBlank(row[0]))
            && (Error(n, "vrfId") in errors <==> !NotBlank(row[1]))
            && (Error(n, "status") in errors <==> !NotBlank(row[3]))
  {
    NormalizedCells(row);
    BlankIsNoCidr();
    hide NormalizeCell, ValidTransferCidr, Required, NotBlank, Trim;
  }

  lemma PrefixRowRecord(row: Row)
    requires RowFits(Prefixes, row) && GoodPrefix(row)
    ensures RecordOf(Prefixes, row) ==
            PrefixRecord(Trim(row[0].value), Trim(row[1].value), Trim(row[2].value), Trim(row[3].value),
                         if NotBlank(row[4]) then Some(Trim(row[4].value)) else None,
                         if NotBlank(row[5]) then Some(Trim(row[5].value)) else None,
                         if NotBlank(row[6]) then Some(Trim(row[6].value)) else None)
  {
    NormalizedCells(row);
    hide NormalizeCell, ValidTransferCidr, Required, NotBlank, Trim;
  }

  method PushPrefixErrors(coerced: Record, n: nat) returns (errors: seq<Error>)
    requires coerced.PrefixRecord?
    ensures errors == RecordErrors(coerced, n)
  {
    hide ValidTransferCidr;
    errors := [];
    if coerced.id == "" {
      errors := errors + [Error(n, "id")];
    }
    if coerced.vrfId == "" {
      errors := errors + [Error(n, "vrfId")];
    }
    if coerced.status == "" {
      errors := errors + [Error(n, "status")];
    }
    if !ValidTransferCidr(coerced.cidr) {
      errors := errors + [Error(n, "cidr")];
    }
  }

  /** The same for prefixes: the CIDR has a valid shape; blank optional cells become null. */
  method CoercePrefixRecord(row: Row, n: nat) returns (record: Option<Record>, errors: seq<Error>)
    requires RowFits(Prefixes, row)
    ensures record.Some? <==> errors == []
    ensures record.Some? <==> GoodPrefix(row)
    ensures record.Some? ==>
              record.value == PrefixRecord(Trim(row[0].value), Trim(row[1].value),
                                           Trim(row[2].value), Trim(row[3].value),
                                           if NotBlank(row[4]) then Some(Trim(row[4].value)) else None,
                                           if NotBlank(row[5]) then Some(Trim(row[5].value)) else None,
                                           if NotBlank(row[6]) then Some(Trim(row[6].value)) else None)
    ensures Error(n, "id") in errors <==> !NotBlank(row[0])
    ensures Error(n, "vrfId") in errors <==> !NotBlank(row[1])
    ensures Error(n, "status") in errors <==> !NotBlank(row[3])
    ensures errors == RecordErrors(RecordOf(Prefixes, row), n)
    ensures record == if errors == [] then Some(RecordOf(Prefixes, row)) else None
  {
    var coerced := RecordOf(Prefixes, row);
    assert coerced.PrefixRecord?;
    hide RecordOf, RecordErrors, ValidTransferCidr, NotBlank, Trim;
    PrefixRowMeaning(row, n);
    if GoodPrefix(row) {
      PrefixRowRecord(row);
    }
    errors := PushPrefixErrors(coerced, n);
    record := if errors == [] then Some(coerced) else None;
  }

  /** The same for sites. */
  method CoerceSiteRecord(row: Row, n: nat) returns (record: Option<Record>, errors: seq<Error>)
    requires RowFits(Sites, row)
    ensures record.Some? <==> errors == []
    ensures record.Some? <==> GoodSite(row)
    ensures record.Some? ==>
              record.value == SiteRecord(Trim(row[0].value), Trim(row[1].value), Trim(row[2].value),
                                         if NotBlank(row[3]) then Some(Trim(row[3].value)) else None)
    ensures Error(n, "id") in errors <==> !NotBlank(row[0])
    ensures Error(n, "slug") in errors <==> !NotBlank(row[1])
    ensures Error(n, "name") in errors <==> !NotBlank(row[2])
    ensures errors == RecordErrors(RecordOf(Sites, row), n)
    ensures record == if errors == [] then Some(RecordOf(Sites, row)) else None
  {
    NormalizedCells(row);
    hide NormalizeCell, ValidTransferCidr, Required, NotBlank, Trim;
    var coerced := RecordOf(Sites, row);
    errors := [];
    if coerced.id == "" {
      errors := errors + [Error(n, "id")];
    }
    if coerced.slug == "" {
      errors := errors + [Error(n, "slug")];
    }
    if coerced.name == "" {
      errors := errors + [Error(n, "name")];
    }
    record := if errors == [] then Some(coerced) else None;
  }

  /** A row without blank required cells, with a known status or a well-shaped CIDR. */
  predicate GoodRow(d: Dataset, row: Row)
    requires RowFits(d, row)
  {
    match d
    case Tenants => GoodTenant(row)
    case Prefixes => GoodPrefix(row)
    case Sites => GoodSite(row)
  }

  lemma RowMeaning(d: Dataset, row: Row, n: nat)
    requires RowFits(d, row)
    ensures RecordErrors(RecordOf(d, row), n) == [] <==> GoodRow(d, row)
  {
    match d {
      case Prefixes =>
        PrefixRowMeaning(row, n);
      case Tenants =>
        TenantRowMeaning(row, n);
      case Sites =>
        NormalizedCells(row);
        hide NormalizeCell, Required, NotBlank, Trim;
    }
  }

  /** The record of a data row, or null if there are errors, and the errors. */
  method CoerceRecord(d: Dataset, row: Row, n: nat) returns (record: Option<Record>, errors: seq<Error>)
    requires RowFits(d, row)
    ensures record.Some? <==> GoodRow(d, row)
    ensures errors == RecordErrors(RecordOf(d, row), n)
    ensures record == if errors == [] then Some(RecordOf(d, row)) else None
  {
    hide RecordOf, RecordErrors, GoodTenant, GoodPrefix, GoodSite;
    match d
    case Tenants => record, errors := CoerceTenantRecord(row, n);
    case Prefixes => record, errors := CoercePrefixRecord(row, n);
    case Sites => record, errors := CoerceSiteRecord(row, n);
  }

  // ----- checking a list of rows

  datatype Validation = Validation(valid: bool, records: seq<Record>, errors: seq<Error>)

  predicate RowsFit(d: Dataset, rows: seq<Row>) {
    forall i :: 0 <= i < |rows| ==> RowFits(d, rows[i])
  }

  /** The errors of all rows; the first data row has number 2. */
  function RowErrors(d: Dataset, rows: seq<Row>): seq<Error>
    requires RowsFit(d, rows)
  {
    if rows == [] then []
    else
      var n := |rows| - 1;
      RowErrors(d, rows[..n]) + RecordErrors(RecordOf(d, rows[n]), n + 2)
  }

  /** The records of the rows without errors. */
  function GoodRecords(d: Dataset, rows: seq<Row>): seq<Record>
    requires RowsFit(d, rows)
  {
    if rows == [] then []
    else
      var n := |rows| - 1;
      GoodRecords(d, rows[..n])
      + if RecordErrors(RecordOf(d, rows[n]), n + 2) == [] then [RecordOf(d, rows[n])] else []
  }

  predicate HasId(records: seq<Record>, id: string) {
    exists i :: 0 <= i < |records| && records[i].id == id
  }

  /** One error for every record whose id an earlier record has. */
  function DuplicateErrors(records: seq<Record>): seq<Error> {
    if records == [] then []
    else
      var n := |records| - 1;
      DuplicateErrors(records[..n]) + if HasId(records[..n], records[n].id) then [Error(0, "id")] else []
  }

  function ValidateRows(d: Dataset, rows: seq<Row>): Validation
    requires RowsFit(d, rows)
  {
    var records := GoodRecords(d, rows);
    var errors := RowErrors(d, rows) + DuplicateErrors(records);
    Validation(errors == [], records, errors)
  }

  lemma FirstRowsFit(d: Dataset, rows: seq<Row>, n: nat)
    requires RowsFit(d, rows) && n <= |rows|
    ensures RowsFit(d, rows[..n])
  {
  }

  lemma {:induction false} OneMoreRow(d: Dataset, rows: seq<Row>, n: nat)
    requires RowsFit(d, rows) && n < |rows|
    ensures RowsFit(d, rows[..n]) && RowsFit(d, rows[..n + 1])
    ensures var errors := RecordErrors(RecordOf(d, rows[n]), n + 2);
            && RowErrors(d, rows[..n + 1]) == RowErrors(d, rows[..n]) + errors
            && GoodRecords(d, rows[..n + 1])
               == GoodRecords(d, rows[..n]) + if errors == [] then [RecordOf(d, rows[n])] else []
  {
    hide RecordErrors, RecordOf, Headers;
    assert rows[..n + 1][..n] == rows[..n];
  }

  method CoerceRecords(d: Dataset, rows: seq<Row>) returns (r: Validation)
    requires RowsFit(d, rows)
    ensures r == ValidateRows(d, rows)
  {
    hide RecordErrors, RecordOf, RowErrors, GoodRecords, DuplicateErrors, HasId, RowsFit;
    var errors: seq<Error> := [];
    var records: seq<Record> := [];
    FirstRowsFit(d, rows, 0);
    NoRows(d, rows);
    for n := 0 to |rows|
      invariant RowsFit(d, rows[..n])
      invariant errors == RowErrors(d, rows[..n])
      invariant records == GoodRecords(d, rows[..n])
    {
      OneMoreRow(d, rows, n);
      RowAt(d, rows, n);
      var record, found := CoerceRecord(d, rows[n], n + 2);
      errors := errors + found;
      if record.Some? {
        records := records + [record.value];
      }
    }
    assert rows[..|rows|] == rows;
    ghost var rowErrors := errors;
    for n := 0 to |records|
      invariant errors == rowErrors + DuplicateErrors(records[..n])
    {
      OneMoreRecord(records, n);
      if HasId(records[..n], records[n].id) {
        errors := errors + [Error(0, "id")];
      }
    }
    assert records[..|records|] == records;
    r := Validation(errors == [], records, errors);
  }

  lemma {:induction false} NoRows(d: Dataset, rows: seq<Row>)
    ensures RowsFit(d, rows[..0]) && RowErrors(d, rows[..0]) == [] && GoodRecords(d, rows[..0]) == []
    ensures forall records: seq<Record> :: DuplicateErrors(records[..0]) == []
  {
  }

  lemma RowAt(d: Dataset, rows: seq<Row>, n: nat)
    requires RowsFit(d, rows) && n < |rows|
    ensures RowFits(d, rows[n])
  {
  }

  lemma OneMoreRecord(records: seq<Record>, n: nat)
    requires n < |records|
    ensures DuplicateErrors(records[..n + 1])
         == DuplicateErrors(records[..n]) + if HasId(records[..n], records[n].id) then [Error(0, "id")] else []
  {
    hide HasId;
    assert records[..n + 1][..n] == records[..n];
  }

  // ----- CSV documents

  /** `content.split(/\r?\n/)`: a carriage return right before a line feed goes with it. */
  function SplitLines(content: string): seq<string> {
    var parts := Split(content, '\n');
    DropReturns(parts[..|parts| - 1]) + [parts[|parts| - 1]]
  }

  function DropReturns(lines: seq<string>): (r: seq<string>)
    ensures |r| == |lines|
    ensures forall i :: 0 <= i < |r| ==>
              r[i] == if lines[i] != "" && lines[i][|lines[i]| - 1] == '\r' then lines[i][..|lines[i]| - 1]
                      else lines[i]
  {
    seq(|lines|, i requires 0 <= i < |lines| =>
      if lines[i] != "" && lines[i][|lines[i]| - 1] == '\r' then lines[i][..|lines[i]| - 1] else lines[i])
  }

  function ContentLines(content: string): seq<string> {
    NonEmptyTrimmed(SplitLines(content))
  }

  /** The cells of a data line under the headers; missing ones are null, surplus ones are dropped. */
  function RowOfCells(d: Dataset, cells: seq<string>): (row: Row)
    ensures RowFits(d, row)
    ensures forall i :: 0 <= i < |row| ==> row[i] == if i < |cells| then NormalizeText(cells[i]) else None
  {
    seq(|Headers(d)|, i requires 0 <= i < |Headers(d)| => if i < |cells| then NormalizeText(cells[i]) else None)
  }

  function RowsOfLines(d: Dataset, lines: seq<string>): (rows: seq<Row>)
    ensures |rows| == |lines| && RowsFit(d, rows)
    ensures forall i :: 0 <= i < |rows| ==> rows[i] == RowOfCells(d, LineCells(lines[i]))
  {
    seq(|lines|, i requires 0 <= i < |lines| => RowOfCells(d, LineCells(lines[i])))
  }

  /** The rows of a document, or None where the headers are wrong and the program throws. */
  function ParseCsv(d: Dataset, content: string): (rows: Option<seq<Row>>)
    ensures rows.Some? ==> RowsFit(d, rows.value)
  {
    var lines := ContentLines(content);
    if lines == [] then Some([])
    else if LineCells(lines[0]) != Headers(d) then None
    else Some(RowsOfLines(d, lines[1..]))
  }

  method ParseCsvRecords(d: Dataset, content: string) returns (rows: Option<seq<Row>>)
    ensures rows == ParseCsv(d, content)
  {
    hide LineCells, ContentLines, Headers;
    var lines := ContentLines(content);
    if |lines| == 0 {
      return Some([]);
    }
    var headers := SplitCsvLine(lines[0]);
    if headers != Headers(d) {
      return None;
    }
    var parsed: seq<Row> := [];
    for i := 1 to |lines|
      invariant parsed == RowsOfLines(d, lines[1..i])
    {
      var cells := SplitCsvLine(lines[i]);
      parsed := parsed + [RowOfCells(d, cells)];
      assert lines[1..i + 1] == lines[1..i] + [lines[i]];
    }
    assert lines[1..|lines|] == lines[1..];
    return Some(parsed);
  }

  /** A CSV text, or the records of a JSON or API import with their values as texts. */
  datatype Input = Csv(content: string) | Rows(rows: seq<Row>)

  function ValidateInput(d: Dataset, input: Input): Validation
    requires input.Rows? ==> RowsFit(d, input.rows)
  {
    match input
    case Csv(content) =>
      var rows := ParseCsv(d, content);
      if rows.None? then Validation(false, [], [Error(0, "document")]) else ValidateRows(d, rows.value)
    case Rows(rows) => ValidateRows(d, rows)
  }

  method ValidateImportInput(d: Dataset, input: Input) returns (r: Validation)
    requires input.Rows? ==> RowsFit(d, input.rows)
    ensures r == ValidateInput(d, input)
  {
    hide ParseCsv, ValidateRows;
    match input
    case Csv(content) =>
      var rows := ParseCsvRecords(d, content);
      if rows.None? {
        return Validation(false, [], [Error(0, "document")]);
      }
      r := CoerceRecords(d, rows.value);
    case Rows(rows) =>
      r := CoerceRecords(d, rows);
  }

  // ----- exporting

  function Values(r: Record): (values: Row)
    ensures |values| >= 4
  {
    match r
    case TenantRecord(id, slug, name, status) =>
      [NormalizeText(id), NormalizeText(slug), NormalizeText(name), NormalizeText(status)]
    case PrefixRecord(id, vrfId, cidr, status, tenantId, vlanId, parentPrefixId) =>
      [NormalizeText(id), NormalizeText(vrfId), NormalizeText(cidr), NormalizeText(status),
       NormalizeCell(tenantId), NormalizeCell(vlanId), NormalizeCell(parentPrefixId)]
    case SiteRecord(id, slug, name, tenantId) =>
      [NormalizeText(id), NormalizeText(slug), NormalizeText(name), NormalizeCell(tenantId)]
  }

  function RecordLines(records: seq<Record>): (lines: seq<string>)
    ensures |lines| == |records| && forall i :: 0 <= i < |lines| ==> lines[i] == CsvLine(Values(records[i]))
  {
    seq(|records|, i requires 0 <= i < |records| => CsvLine(Values(records[i])))
  }

  function ExportCsv(d: Dataset, records: seq<Record>): string {
    Join([Join(Headers(d), ",")] + RecordLines(records), "\n")
  }

  // ----- the store

  class TransferStore {
    var tenants: seq<Record>
    var prefixes: seq<Record>
    var sites: seq<Record>

    function Stored(d: Dataset): seq<Record>
      reads this
    {
      match d
      case Tenants => tenants
      case Prefixes => prefixes
      case Sites => sites
    }

    constructor (tenants: seq<Record>, prefixes: seq<Record>, sites: seq<Record>)
      ensures this.tenants == tenants && this.prefixes == prefixes && this.sites == sites
    {
      this.tenants := tenants;
      this.prefixes := prefixes;
      this.sites := sites;
    }

    /** A valid import replaces its data set and nothing else; an invalid one changes nothing. */
    method ApplyImport(d: Dataset, input: Input) returns (r: Validation, committed: bool)
      requires input.Rows? ==> RowsFit(d, input.rows)
      modifies this
      ensures r == ValidateInput(d, input) && committed == r.valid
      ensures Stored(d) == if committed then r.records else old(Stored(d))
      ensures forall other :: other != d ==> Stored(other) == old(Stored(other))
    {
      hide ValidateInput;
      r := ValidateImportInput(d, input);
      if !r.valid {
        return r, false;
      }
      match d {
        case Tenants => tenants := r.records;
        case Prefixes => prefixes := r.records;
        case Sites => sites := r.records;
      }
      return r, true;
    }

    method ExportDataset(d: Dataset) returns (body: string, recordCount: nat)
      ensures body == ExportCsv(d, Stored(d)) && recordCount == |Stored(d)|
    {
      hide Headers, Values;
      var records := Stored(d);
      var lines := [Join(Headers(d), ",")];
      for i := 0 to |records|
        invariant lines == [Join(Headers(d), ",")] + RecordLines(records[..i])
      {
        lines := lines + [CsvLine(Values(records[i]))];
      }
      assert records[..|records|] == records;
      return Join(lines, "\n"), |records|;
    }
  }
}
