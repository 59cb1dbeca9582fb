/** What an import reports: every bad cell of every row, and every repeated id. */
module CsvReports {
  import opened JsText
  import opened CsvTransfer

  lemma {:induction false} JoinStep(parts: seq<string>, rest: string)
    requires |parts| > 1 && Join(parts[1..], ",") == rest
    ensures Join(parts, ",") == parts[0] + "," + rest
  {
  }

  lemma JoinFour(a: string, b: string, c: string, d: string)
    ensures Join([a, b, c, d], ",") == a + "," + (b + "," + (c + "," + d))
  {
    assert [c, d][1..] == [d] && [b, c, d][1..] == [c, d] && [a, b, c, d][1..] == [b, c, d];
    JoinStep([c, d], d);
    JoinStep([b, c, d], c + "," + d);
    JoinStep([a, b, c, d], b + "," + (c + "," + d));
  }

  lemma {:induction false} JoinSeven(a: string, b: string, c: string, rest: seq<string>)
    requires |rest| == 4
    ensures Join([a, b, c] + rest, ",") == a + "," + (b + "," + (c + "," + Join(rest, ",")))
  {
    assert ([c] + rest)[1..] == rest && ([b, c] + rest)[1..] == [c] + rest && ([a, b, c] + rest)[1..] == [b, c] + rest;
    JoinStep([c] + rest, Join(rest, ","));
    JoinStep([b, c] + rest, c + "," + Join(rest, ","));
    JoinStep([a, b, c] + rest, b + "," + (c + "," + Join(rest, ",")));
  }

  /** The header lines, column by column. */
  lemma HeaderTexts()
    ensures Join(Headers(Tenants), ",") == "id" + "," + ("slug" + "," + ("name" + "," + "status"))
    ensures Join(Headers(Sites), ",") == "id" + "," + ("slug" + "," + ("name" + "," + "tenantId"))
    ensures Join(Headers(Prefixes), ",") ==
            "id" + "," + ("vrfId" + "," + ("cidr" + "," +
            ("status" + "," + ("tenantId" + "," + ("vlanId" + "," + "parentPrefixId")))))
  {
    hide Join;
    JoinFour("id", "slug", "name", "status");
    JoinFour("id", "slug", "name", "tenantId");
    var rest := ["status", "tenantId", "vlanId", "parentPrefixId"];
    JoinFour("status", "tenantId", "vlanId", "parentPrefixId");
    JoinSeven("id", "vrfId", "cidr", rest);
    assert Headers(Prefixes) == ["id", "vrfId", "cidr"] + rest;
  }

  /** The text is one of the tenant statuses. */
  predicate KnownStatus(status: string) {
    status == "active" || status == "suspended" || status == "retired"
  }

  /** The cell under the header is refused: blank, of no known status, or of no CIDR shape. */
  predicate BadCell(d: Dataset, row: Row, field: string)
    requires RowFits(d, row)
  {
    match d
    case Tenants =>
      || (field == "id" && !NotBlank(row[0])) || (field == "slug" && !NotBlank(row[1]))
      || (field == "name" && !NotBlank(row[2]))
      || (field == "status" && !(row[3].Some? && KnownStatus(Trim(row[3].value))))
    case Prefixes =>
      || (field == "id" && !NotBlank(row[0])) || (field == "vrfId" && !NotBlank(row[1]))
      || (field == "status" && !NotBlank(row[3]))
      || (field == "cidr" && !(row[2].Some? && ValidTransferCidr(Trim(row[2].value))))
    case Sites =>
      || (field == "id" && !NotBlank(row[0])) || (field == "slug" && !NotBlank(row[1]))
      || (field == "name" && !NotBlank(row[2]))
  }

  lemma CheckIff(row: nat, field: string, fine: bool, e: Error)
    ensures e in Check(row, field, fine) <==> !fine && e == Error(row, field)
  {
  }

  lemma TenantErrors(row: Row, n: nat, e: Error)
    requires RowFits(Tenants, row)
    ensures e in RecordErrors(RecordOf(Tenants, row), n) <==> e.row == n && BadCell(Tenants, row, e.field)
  {
    NormalizedCells(row);
    hide NormalizeCell, Required, NotBlank, Trim, Check;
    var r := RecordOf(Tenants, row);
    CheckIff(n, "id", r.id != "", e);
    CheckIff(n, "slug", r.slug != "", e);
    CheckIff(n, "name", r.name != "", e);
    CheckIff(n, "status", IsTenantStatus(r.status), e);
  }

  lemma PrefixErrors(row: Row, n: nat, e: Error)
    requires RowFits(Prefixes, row)
    ensures e in RecordErrors(RecordOf(Prefixes, row), n) <==> e.row == n && BadCell(Prefixes, row, e.field)
  {
    NormalizedCells(row);
    BlankIsNoCidr();
    hide NormalizeCell, Required, NotBlank, Trim, ValidTransferCidr, Check;
    var r := RecordOf(Prefixes, row);
    CheckIff(n, "id", r.id != "", e);
    CheckIff(n, "vrfId", r.vrfId != "", e);
    CheckIff(n, "status", r.status != "", e);
    CheckIff(n, "cidr", ValidTransferCidr(r.cidr), e);
  }

  lemma SiteErrors(row: Row, n: nat, e: Error)
    requires RowFits(Sites, row)
    ensures e in RecordErrors(RecordOf(Sites, row), n) <==> e.row == n && BadCell(Sites, row, e.field)
  {
    NormalizedCells(row);
    hide NormalizeCell, Required, NotBlank, Trim;
  }

  lemma RowReports(d: Dataset, row: Row, n: nat, e: Error)
    requires RowFits(d, row)
    ensures e in RecordErrors(RecordOf(d, row), n) <==> e.row == n && BadCell(d, row, e.field)
  {
    match d
    case Tenants => TenantErrors(row, n, e);
    case Prefixes => PrefixErrors(row, n, e);
    case Sites => SiteErrors(row, n, e);
  }

  /** The row is the `i`th data row, the first being row 2, and the cell is bad. */
  ghost predicate BadAt(d: Dataset, rows: seq<Row>, i: nat, e: Error)
    requires RowsFit(d, rows) && i < |rows|
  {
    e.row == i + 2 && BadCell(d, rows[i], e.field)
  }

  lemma {:induction false} RowsReport(d: Dataset, rows: seq<Row>, e: Error)
    requires RowsFit(d, rows)
    ensures e in RowErrors(d, rows) <==> exists i: nat :: i < |rows| && BadAt(d, rows, i, e)
    decreases |rows|
  {
    hide RecordErrors, RecordOf, BadCell, Headers;
    if rows != [] {
      var n := |rows| - 1;
      FirstRowsFit(d, rows, n);
      RowsReport(d, rows[..n], e);
      RowReports(d, rows[n], n + 2, e);
      forall i: nat | i < n ensures BadAt(d, rows, i, e) <==> BadAt(d, rows[..n], i, e) {
      }
      assert BadAt(d, rows, n, e) <==> e in RecordErrors(RecordOf(d, rows[n]), n + 2);
    }
  }

  /** Some record has the id of an earlier one. */
  ghost predicate RepeatsId(records: seq<Record>) {
    exists i, j :: 0 <= i < j < |records| && records[i].id == records[j].id
  }

  lemma {:induction false} DuplicatesReport(records: seq<Record>, e: Error)
    ensures e in DuplicateErrors(records) <==> e == Error(0, "id") && RepeatsId(records)
    decreases |records|
  {
    if records != [] {
      var n := |records| - 1;
      DuplicatesReport(records[..n], e);
      RepeatsWithLast(records);
    }
  }

  lemma RepeatsWithLast(records: seq<Record>)
    requires records != []
    ensures var n := |records| - 1;
            RepeatsId(records) <==> RepeatsId(records[..n]) || HasId(records[..n], records[n].id)
  {
    var n := |records| - 1;
    var front := records[..n];
    if i, j :| 0 <= i < j < |records| && records[i].id == records[j].id {
      if j < n {
        assert front[i].id == front[j].id;
      } else {
        assert front[i].id == records[n].id;
      }
    }
    if i, j :| 0 <= i < j < n && front[i].id == front[j].id {
      assert records[i].id == records[j].id;
    }
    if i :| 0 <= i < n && front[i].id == records[n].id {
      assert records[i].id == records[n].id;
    }
  }

  /** The records of the good rows, in their order. */
  function GoodOnes(d: Dataset, rows: seq<Row>): seq<Record>
    requires RowsFit(d, rows)
  {
    if rows == [] then []
    else
      var n := |rows| - 1;
      GoodOnes(d, rows[..n]) + if GoodRow(d, rows[n]) then [RecordOf(d, rows[n])] else []
  }

  lemma {:induction false} GoodOnesAre(d: Dataset, rows: seq<Row>)
    requires RowsFit(d, rows)
    ensures GoodRecords(d, rows) == GoodOnes(d, rows)
    decreases |rows|
  {
    hide RecordErrors, RecordOf, GoodRow, Headers;
    if rows != [] {
      var n := |rows| - 1;
      FirstRowsFit(d, rows, n);
      GoodOnesAre(d, rows[..n]);
      RowMeaning(d, rows[n], n + 2);
    }
  }

  /** An import reports exactly the bad cells, under the number of their row, and a repeated id among its
      good rows. */
  lemma {:induction false} ReportsAre(d: Dataset, rows: seq<Row>, e: Error)
    requires RowsFit(d, rows)
    ensures e in ValidateRows(d, rows).errors <==>
            || (exists i: nat :: i < |rows| && BadAt(d, rows, i, e))
            || (e == Error(0, "id") && RepeatsId(GoodOnes(d, rows)))
    ensures ValidateRows(d, rows).records == GoodOnes(d, rows)
  {
    RowsReport(d, rows, e);
    GoodOnesAre(d, rows);
    DuplicatesReport(GoodRecords(d, rows), e);
    hide RowErrors, GoodRecords, GoodOnes, DuplicateErrors, BadAt, RepeatsId;
  }
}
