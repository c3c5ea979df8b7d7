/** The Report history document (medimind-backend/models/Report.js): a report
    type and a file format drawn from two fixed enumerations. */
module ReportModel {
  import opened Common

  datatype ReportType = SalesReport | InventoryStatus

  datatype ReportFormat = Pdf | Csv

  function TypeName(t: ReportType): string
  {
    match t
    case SalesReport => "Sales Report"
    case InventoryStatus => "Inventory Status"
  }

  function FormatName(f: ReportFormat): string
  {
    match f
    case Pdf => "PDF"
    case Csv => "CSV"
  }

  /** The enum check of the `type` path: exactly the two listed strings. */
  function ParseType(s: string): (r: Option<ReportType>)
    ensures r.Some? <==> s == "Sales Report" || s == "Inventory Status"
    ensures r.Some? ==> TypeName(r.value) == s
  {
    if s == "Sales Report" then Some(SalesReport)
    else if s == "Inventory Status" then Some(InventoryStatus)
    else None
  }

  /** The enum check of the `format` path: exactly "PDF" or "CSV", case included. */
  function ParseFormat(s: string): (r: Option<ReportFormat>)
    ensures r.Some? <==> s == "PDF" || s == "CSV"
    ensures r.Some? ==> FormatName(r.value) == s
  {
    if s == "PDF" then Some(Pdf)
    else if s == "CSV" then Some(Csv)
    else None
  }

  lemma TypeNamesRoundTrip(t: ReportType)
    ensures ParseType(TypeName(t)) == Some(t)
  {
  }

  lemma FormatNamesRoundTrip(f: ReportFormat)
    ensures ParseFormat(FormatName(f)) == Some(f)
  {
  }

  datatype Report = Report(
    id: Id,
    user: Id,
    name: string,
    rtype: ReportType,
    format: ReportFormat,
    startDate: Option<Time>,
    endDate: Option<Time>,
    createdAt: Time)

  /** The paths of a new report that fail validation, in schema order. */
  function InvalidPaths(name: string, rtype: string, format: string): (r: seq<string>)
    ensures r == [] <==> name != "" && ParseType(rtype).Some? && ParseFormat(format).Some?
  {
    (if name != "" then [] else ["name"]) +
    (if ParseType(rtype).Some? then [] else ["type"]) +
    (if ParseFormat(format).Some? then [] else ["format"])
  }

  /** Builds the document `newReport.save()` stores, with `createdAt` defaulted to
      `now`; fails with the invalid paths when a required path is empty or an
      enum value is not one of the listed strings. */
  function NewReport(id: Id, user: Id, name: string, rtype: string, format: string,
                     startDate: Option<Time>, endDate: Option<Time>, now: Time): (r: Result<Report, seq<string>>)
    ensures r.Ok? <==> name != "" && ParseType(rtype).Some? && ParseFormat(format).Some?
    ensures r.Err? ==> r.error == InvalidPaths(name, rtype, format) && r.error != []
    ensures r.Ok? ==>
      && r.value.id == id && r.value.user == user && r.value.name == name
      && TypeName(r.value.rtype) == rtype && FormatName(r.value.format) == format
      && r.value.startDate == startDate && r.value.endDate == endDate
      && r.value.createdAt == now
  {
    var invalid := InvalidPaths(name, rtype, format);
    if invalid != [] then Err(invalid)
    else Ok(Report(id, user, name, ParseType(rtype).value, ParseFormat(format).value, startDate, endDate, now))
  }
}
