/** The report routes (medimind-backend/routes/reportRoutes.js): generating a
    report's data and recording it in the caller's report history, listing the
    latest reports, and regenerating the data of a recorded report. */
module ReportRoutes {
  import opened Common
  import opened Seqs
  import opened Text
  import opened MedicineModel
  import opened SaleModel
  import opened ReportModel
  import opened Store
  import opened SalesRoutes

  /** The data of a report: sales for a sales report, medicines for an inventory report. */
  datatype ReportData = SalesData(sales: seq<Sale>) | InventoryData(medicines: seq<Medicine>)

  /** The rejections of the report routes. */
  datatype ReportError =
    | InvalidType                    // 400 "Invalid report type"
    | FormatMissing                  // 500: `format.toLowerCase()` on an absent format
    | Invalid(paths: seq<string>)    // 500: the Report schema refused the document
    | NotFound                       // 404 "Report not found"

  function Status(e: ReportError): (code: int)
    ensures code == 400 <==> e.InvalidType?
    ensures code == 404 <==> e.NotFound?
    ensures code == 400 || code == 404 || code == 500
  {
    match e
    case InvalidType => 400
    case FormatMissing => 500
    case Invalid(_) => 500
    case NotFound => 404
  }

  /** The response of `POST /generate`. */
  datatype Generated = Generated(data: ReportData, fileName: string, reportId: Id)

  /** The response of `GET /download/:id`. */
  datatype Downloaded = Downloaded(data: ReportData, fileName: string, rtype: ReportType, format: ReportFormat)

  // ---------------------------------------------------------------------------
  // The report data

  /** The sales query: the caller's sales, and when both ends of the range are
      given, only those dated within it, both ends included. */
  function InRange(owner: Id, startDate: Option<Time>, endDate: Option<Time>): Sale -> bool
  {
    (s: Sale) => s.user == owner && (startDate.Some? && endDate.Some? ==> startDate.value <= s.date <= endDate.value)
  }

  /** `Sale.find(query).sort({ date: -1 })`. */
  function SalesInRange(sales: seq<Sale>, owner: Id, startDate: Option<Time>, endDate: Option<Time>): seq<Sale>
  {
    SortBy(Filter(sales, InRange(owner, startDate, endDate)), NewestFirst)
  }

  const ByName: (Medicine, Medicine) -> bool := (a: Medicine, b: Medicine) => StrLe(a.name, b.name)

  /** `Medicine.find({ user: owner }).sort({ name: 1 })`. */
  function Inventory(medicines: map<Id, Medicine>, owner: Id, bound: nat): seq<Medicine>
    requires KeyedById(medicines)
    requires forall k :: k in medicines ==> k < bound
  {
    SortBy(Owned(medicines, owner, bound), ByName)
  }

  /** The type dispatch shared by generation and download. */
  function ReportDataFor(t: ReportType, sales: seq<Sale>, medicines: map<Id, Medicine>, owner: Id, bound: nat,
                         startDate: Option<Time>, endDate: Option<Time>): (r: ReportData)
    requires KeyedById(medicines)
    requires forall k :: k in medicines ==> k < bound
    ensures r.SalesData? <==> t == SalesReport
  {
    match t
    case SalesReport => SalesData(SalesInRange(sales, owner, startDate, endDate))
    case InventoryStatus => InventoryData(Inventory(medicines, owner, bound))
  }

  /** Sales report data: exactly the caller's sales within the range (any date
      when an end of the range is missing), each as often as it is stored,
      latest first. */
  lemma SalesInRangeExact(sales: seq<Sale>, owner: Id, startDate: Option<Time>, endDate: Option<Time>)
    ensures var r := SalesInRange(sales, owner, startDate, endDate);
      && (forall s :: s in r <==> s in sales && InRange(owner, startDate, endDate)(s))
      && (forall s :: multiset(r)[s] ==
            if InRange(owner, startDate, endDate)(s) then multiset(sales)[s] else 0)
      && (forall i, j :: 0 <= i < j < |r| ==> r[i].date >= r[j].date)
  {
    var p := InRange(owner, startDate, endDate);
    var r := SalesInRange(sales, owner, startDate, endDate);
    forall s: Sale ensures multiset(r)[s] == if p(s) then multiset(sales)[s] else 0 {
      FilterMultiset(sales, p, s);
    }
    forall s: Sale ensures s in r <==> s in sales && p(s) {
      assert s in r <==> multiset(r)[s] > 0;
      assert s in sales <==> multiset(sales)[s] > 0;
    }
    SortBySorted(Filter(sales, p), NewestFirst);
  }

  /** Without both ends of the range there is no date filter: the sales report
      holds the same sales, in the same order, as the sales history. */
  lemma OpenRangeIsHistory(sales: seq<Sale>, owner: Id, startDate: Option<Time>, endDate: Option<Time>)
    requires startDate.None? || endDate.None?
    ensures SalesInRange(sales, owner, startDate, endDate) == ListSales(sales, owner)
  {
    FilterEquiv(sales, InRange(owner, startDate, endDate), OwnedBy(owner));
  }

  lemma ByNameTotalPreorder()
    ensures TotalPreorder(ByName)
  {
    forall a: Medicine, b: Medicine ensures ByName(a, b) || ByName(b, a) {
      StrLeTotal(a.name, b.name);
    }
    forall a: Medicine, b: Medicine, c: Medicine | ByName(a, b) && ByName(b, c) ensures ByName(a, c) {
      StrLeTransitive(a.name, b.name, c.name);
    }
  }

  /** Inventory report data: each of the caller's medicines exactly once, as
      stored, and nothing else, in ascending order of name. */
  lemma InventoryExact(medicines: map<Id, Medicine>, owner: Id, bound: nat)
    requires KeyedById(medicines)
    requires forall k :: k in medicines ==> k < bound
    ensures var r := Inventory(medicines, owner, bound);
      && (forall m :: multiset(r)[m] ==
            if m.id in medicines && medicines[m.id] == m && m.user == owner then 1 else 0)
      && (forall i :: 0 <= i < |r| ==> r[i].user == owner && r[i].id in medicines && medicines[r[i].id] == r[i])
      && (forall i, j :: 0 <= i < j < |r| ==> StrLe(r[i].name, r[j].name))
  {
    var r := Inventory(medicines, owner, bound);
    forall m: Medicine ensures multiset(r)[m] ==
      if m.id in medicines && medicines[m.id] == m && m.user == owner then 1 else 0
    {
      OwnedRangeCount(medicines, owner, 0, bound, m);
    }
    forall i | 0 <= i < |r| ensures r[i].user == owner && r[i].id in medicines && medicines[r[i].id] == r[i] {
      assert multiset(r)[r[i]] > 0;
    }
    ByNameTotalPreorder();
    SortBySorted(Owned(medicines, owner, bound), ByName);
  }

  // ---------------------------------------------------------------------------
  // The file name

  /** The report type with its first space replaced by an underscore. */
  function Slug(t: ReportType): string
  {
    match t
    case SalesReport => "Sales_Report"
    case InventoryStatus => "Inventory_Status"
  }

  /** `type.replace(" ", "_")` on each of the two report types. */
  lemma SlugIsReplaceFirst(t: ReportType)
    ensures Slug(t) == ReplaceFirst(TypeName(t), ' ', '_')
  {
    match t
    case SalesReport =>
      assert TypeName(t) == "Sales" + [' '] + "Report";
      assert "Sales" + ['_'] + "Report" == "Sales_Report";
      ReplaceFirstAt("Sales", ' ', '_', "Report");
    case InventoryStatus =>
      assert TypeName(t) == "Inventory" + [' '] + "Status";
      assert "Inventory" + ['_'] + "Status" == "Inventory_Status";
      ReplaceFirstAt("Inventory", ' ', '_', "Status");
  }

  /** The name a generated report is saved under: the type with its first space
      replaced by "_", then "_", the timestamp, "." and the format in lower case. */
  function FileName(t: ReportType, now: Time, format: string): (r: string)
    ensures |r| > 0
  {
    Slug(t) + "_" + (Decimal(now) + ("." + Lower(format)))
  }

  /** A sales report generated as a PDF is named `Sales_Report_<timestamp>.pdf`. */
  lemma SalesPdfName(now: Time)
    ensures FileName(SalesReport, now, "PDF") == "Sales_Report_" + Decimal(now) + ".pdf"
  {
    assert Lower("PDF") == "pdf";
  }

  /** An inventory report generated as a CSV is named `Inventory_Status_<timestamp>.csv`. */
  lemma InventoryCsvName(now: Time)
    ensures FileName(InventoryStatus, now, "CSV") == "Inventory_Status_" + Decimal(now) + ".csv"
  {
    assert Lower("CSV") == "csv";
  }

  /** The timestamp can be read back from the name: two reports of the same type
      and format generated at different times are named differently. */
  lemma FileNameInjective(t: ReportType, m: Time, n: Time, format: string)
    requires FileName(t, m, format) == FileName(t, n, format)
    ensures m == n
  {
    var head, tail := Slug(t) + "_", "." + Lower(format);
    var a, b := Decimal(m) + tail, Decimal(n) + tail;
    assert a == (head + a)[|head|..];
    assert b == (head + b)[|head|..];
    DecimalThenNonDigit(m, n, tail);
  }

  // ---------------------------------------------------------------------------
  // POST /generate

  /** `POST /generate`: dispatches on the type, builds the data from the
      collections as they stand, and records the report in the caller's history.
      An unknown type is refused before anything is recorded; an absent or
      unlisted format fails the request and nothing is recorded either. */
  method GenerateReport(db: Database, owner: Id, rtype: string, startDate: Option<Time>, endDate: Option<Time>,
                        format: Option<string>, now: Time) returns (r: Result<Generated, ReportError>)
    requires db.Valid()
    modifies db`reports, db`nextId
    ensures db.Valid()
    ensures ParseType(rtype).None? ==>
      r == Err(InvalidType) && db.reports == old(db.reports) && db.nextId == old(db.nextId)
    ensures ParseType(rtype).Some? && format.None? ==>
      r == Err(FormatMissing) && db.reports == old(db.reports) && db.nextId == old(db.nextId)
    ensures ParseType(rtype).Some? && format.Some? && ParseFormat(format.value).None? ==>
      r == Err(Invalid(["format"])) && db.reports == old(db.reports) && db.nextId == old(db.nextId) + 1
    ensures ParseType(rtype).Some? && format.Some? && ParseFormat(format.value).Some? ==>
      var t := ParseType(rtype).value;
      var name := FileName(t, now, format.value);
      && r == Ok(Generated(ReportDataFor(t, old(db.sales), old(db.medicines), owner, old(db.nextId), startDate, endDate),
                           name, old(db.nextId)))
      && db.reports == old(db.reports) +
           [Report(old(db.nextId), owner, name, t, ParseFormat(format.value).value, startDate, endDate, now)]
      && db.nextId == old(db.nextId) + 1
  {
    var t := ParseType(rtype);
    if t.None? {
      return Err(InvalidType);
    }
    var data := ReportDataFor(t.value, db.sales, db.medicines, owner, db.nextId, startDate, endDate);
    if format.None? {
      return Err(FormatMissing);
    }
    var fileName := FileName(t.value, now, format.value);
    var id := db.NewId();
    var report := NewReport(id, owner, fileName, rtype, format.value, startDate, endDate, now);
    if report.Err? {
      assert fileName != [] && ParseType(rtype).Some?;
      assert InvalidPaths(fileName, rtype, format.value) == [] + [] + ["format"];
      assert [] + [] + ["format"] == ["format"];
      return Err(Invalid(report.error));
    }
    assert report.value == Report(id, owner, fileName, t.value, ParseFormat(format.value).value, startDate, endDate, now);
    db.reports := db.reports + [report.value];
    r := Ok(Generated(data, fileName, id));
  }

  // ---------------------------------------------------------------------------
  // GET /recent

  function ReportOwnedBy(owner: Id): Report -> bool
  {
    (x: Report) => x.user == owner
  }

  const NewestReportFirst: (Report, Report) -> bool := (a: Report, b: Report) => a.createdAt >= b.createdAt

  /** The number of reports `/recent` returns at most. */
  const RecentLimit: nat := 10

  /** `Report.find({ user: owner }).sort({ createdAt: -1 }).limit(10)`. */
  function RecentReports(reports: seq<Report>, owner: Id): seq<Report>
  {
    Take(SortBy(Filter(reports, ReportOwnedBy(owner)), NewestReportFirst), RecentLimit)
  }

  /** No report of the caller that `/recent` leaves out is newer than one it returns. */
  lemma RecentReportsOmitOlder(reports: seq<Report>, owner: Id)
    ensures var r := RecentReports(reports, owner);
      forall x :: x in reports && x.user == owner && x !in r ==>
        forall i :: 0 <= i < |r| ==> x.createdAt <= r[i].createdAt
  {
    var mine := Filter(reports, ReportOwnedBy(owner));
    var sorted := SortBy(mine, NewestReportFirst);
    var r := RecentReports(reports, owner);
    SortBySorted(mine, NewestReportFirst);
    SortByMembers(mine, NewestReportFirst);
    forall x | x in reports && x.user == owner && x !in r
      ensures forall i :: 0 <= i < |r| ==> x.createdAt <= r[i].createdAt
    {
      var k :| 0 <= k < |reports| && reports[k] == x;
      assert x in mine;
      assert x in sorted;
      var j :| 0 <= j < |sorted| && sorted[j] == x;
      forall i | 0 <= i < |r| ensures x.createdAt <= r[i].createdAt {
        assert r[i] == sorted[i];
      }
    }
  }

  /** `/recent` repeats none of the caller's reports. */
  lemma RecentReportsFromMine(reports: seq<Report>, owner: Id)
    ensures multiset(RecentReports(reports, owner)) <= multiset(Filter(reports, ReportOwnedBy(owner)))
  {
    var mine := Filter(reports, ReportOwnedBy(owner));
    TakeSubMultiset(SortBy(mine, NewestReportFirst), RecentLimit);
  }

  /** `/recent` returns the caller's reports only, each at most as often as
      stored, at most ten of them (fewer only when the caller has fewer),
      newest first, and every report of the caller it leaves out is no newer
      than any it returns. */
  lemma RecentReportsSpec(reports: seq<Report>, owner: Id)
    ensures var r := RecentReports(reports, owner);
      var mine := Filter(reports, ReportOwnedBy(owner));
      && |r| == (if |mine| < RecentLimit then |mine| else RecentLimit)
      && (forall i :: 0 <= i < |r| ==> r[i] in reports && r[i].user == owner)
      && (forall i, j :: 0 <= i < j < |r| ==> r[i].createdAt >= r[j].createdAt)
      && (forall x :: x in reports && x.user == owner && x !in r ==>
            forall i :: 0 <= i < |r| ==> x.createdAt <= r[i].createdAt)
    ensures multiset(RecentReports(reports, owner)) <= multiset(Filter(reports, ReportOwnedBy(owner)))
  {
    var mine := Filter(reports, ReportOwnedBy(owner));
    var sorted := SortBy(mine, NewestReportFirst);
    var r := RecentReports(reports, owner);
    SortBySorted(mine, NewestReportFirst);
    SortByMembers(mine, NewestReportFirst);
    forall i | 0 <= i < |r| ensures r[i] in reports && r[i].user == owner {
      assert r[i] == sorted[i];
      assert sorted[i] in mine;
    }
    RecentReportsOmitOlder(reports, owner);
    RecentReportsFromMine(reports, owner);
  }

  // ---------------------------------------------------------------------------
  // GET /download/:id

  /** `Report.findOne({ _id: id, user: owner })`: the first report with that id
      owned by the caller. */
  function FindReport(reports: seq<Report>, id: Id, owner: Id): (r: Option<Report>)
    ensures r.None? <==> forall i :: 0 <= i < |reports| ==> !(reports[i].id == id && reports[i].user == owner)
    ensures r.Some? ==> r.value in reports && r.value.id == id && r.value.user == owner
  {
    if reports == [] then None
    else if reports[0].id == id && reports[0].user == owner then Some(reports[0])
    else
      var rest := FindReport(reports[1..], id, owner);
      assert forall i :: 1 <= i < |reports| ==> reports[i] == reports[1..][i - 1];
      rest
  }

  /** `GET /download/:id`: 404 unless the caller owns a report with that id;
      otherwise the data is built again from the collections as they stand now,
      with the stored type and range. */
  function Download(reports: seq<Report>, sales: seq<Sale>, medicines: map<Id, Medicine>, bound: nat,
                    owner: Id, id: Id): (r: Result<Downloaded, ReportError>)
    requires KeyedById(medicines)
    requires forall k :: k in medicines ==> k < bound
    ensures r.Err? <==> FindReport(reports, id, owner).None?
    ensures r.Err? ==> r.error == NotFound
    ensures r.Ok? ==>
      var report := FindReport(reports, id, owner).value;
      && r.value.fileName == report.name && r.value.rtype == report.rtype && r.value.format == report.format
      && r.value.data == ReportDataFor(report.rtype, sales, medicines, owner, bound, report.startDate, report.endDate)
  {
    match FindReport(reports, id, owner)
    case None => Err(NotFound)
    case Some(report) =>
      Ok(Downloaded(ReportDataFor(report.rtype, sales, medicines, owner, bound, report.startDate, report.endDate),
                    report.name, report.rtype, report.format))
  }

  /** Downloading a report right after generating it, with the sales and the
      catalog unchanged, returns the data, the file name, the type and the format
      the generation produced: the new report's id is fresh, so the lookup finds
      it and no older report. */
  lemma DownloadAfterGenerate(reports: seq<Report>, sales: seq<Sale>, medicines: map<Id, Medicine>, bound: nat,
                              report: Report)
    requires KeyedById(medicines)
    requires forall k :: k in medicines ==> k < bound
    requires forall i :: 0 <= i < |reports| ==> reports[i].id < report.id
    ensures Download(reports + [report], sales, medicines, bound, report.user, report.id) ==
      Ok(Downloaded(ReportDataFor(report.rtype, sales, medicines, report.user, bound, report.startDate, report.endDate),
                    report.name, report.rtype, report.format))
  {
    var all := reports + [report];
    var found := FindReport(all, report.id, report.user);
    assert all[|reports|] == report;
    assert found.Some?;
    assert found.value == report by {
      var k :| 0 <= k < |all| && all[k] == found.value;
      if k < |reports| {
        assert all[k] == reports[k];
      }
    }
  }
}
