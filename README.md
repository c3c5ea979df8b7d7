# Medimind pharmacy inventory and sales, modelled in Dafny

Medimind is a small pharmacy back office. A user keeps a catalog of medicines,
records sales against it and generates report histories. Every request is
scoped to the calling user. This project models the parts of it that hold its
logic:

- the checkout route `POST /api/sales`, with its validation loop, stock
  decrement loop and sale append, and `GET /api/sales`;
- the owner-scoped catalog routes (list, create, update, delete);
- the dashboard statistics;
- report generation, the recent-report list and report download;
- the record shapes of `Medicine`, `Sale` and `Report`;
- two front-end pages: the sales page, with its cart, and the inventory page,
  with its search, its dashboard filters and its local delete.

It then proves what the code promises about each of them.

The MongoDB store is a `Store.Database` object holding three collections:

- `medicines`, a map from id to `Medicine`;
- `sales`, a sequence of `Sale`;
- `reports`, a sequence of `Report`.

A counter `nextId` stands for ObjectId generation. The routes that write are
methods over the database; the read-only routes are functions of the
collections. The two pages are classes whose fields are the React component's
state. Request outcomes that depend on the network (an axios call that fails,
the refreshed list) are parameters of their methods.

Representation choices:

- Prices and totals are integers (minor currency units).
- Times are milliseconds (`nat`).
- Identifiers are `nat`.
- "Now" is a parameter.

The catalog scan visits ids in ascending order, which stands for insertion
order. Sorts are stable, so ties keep the scan order.

Three behaviours of the code are easy to miss, and the model keeps them:

- The checkout route does not merge duplicate cart lines. Each line is checked
  against the stock it reads. Each pending write stores the document it read,
  minus that line's quantity, so for a medicine listed twice the last write
  that changes it wins (`SalesRoutes.DuplicateLinesOversell`). A line of zero
  units changes nothing, and Mongoose sends no write for an unchanged
  document, so such a line does not undo an earlier line's decrement
  (`SalesRoutes.ZeroLineKeepsEarlierWrite`).
- The route does not reject zero or negative quantities. A negative quantity
  passes the stock check and raises the stock
  (`SalesRoutes.NegativeQuantityRestocks`).
- No write done before a later failure is undone. Each `save()` validates the
  fetched document again, and an update can store a document with an empty
  name or category, because `findOneAndUpdate` runs no validators. Such a
  document passes the validation loop, which only reads, but its save is
  refused, so the request answers 500 with the earlier lines' writes kept and
  no sale recorded (`SalesRoutes.BlankedMedicineHalfCommits`).

The modules:

| file | module | models |
|---|---|---|
| common.dfy | `Common` | ids, times, `Option`, `Result` |
| seqs.dfy | `Seqs` | filter, sum, stable sort and `limit`, the collection operations the code uses |
| text.dfy | `Text` | `toLowerCase`, `includes`, `replace`, number-to-decimal, string order |
| medicine_model.dfy | `MedicineModel` | `models/Medicine.js` |
| sale_model.dfy | `SaleModel` | `models/Sale.js` |
| report_model.dfy | `ReportModel` | `models/Report.js` |
| store.dfy | `Store` | the three collections and owner-scoped lookups |
| sales_routes.dfy | `SalesRoutes` | `routes/salesRoutes.js` |
| medicine_routes.dfy | `MedicineRoutes` | `routes/medicineRoutes.js` |
| dashboard_routes.dfy | `DashboardRoutes` | `routes/dashboardRoutes.js` |
| report_routes.dfy | `ReportRoutes` | `routes/reportRoutes.js` |
| sales_page.dfy | `SalesPage` | `src/pages/Sales.js` |
| inventory_page.dfy | `InventoryPage` | `src/pages/Inventory.js` |

## Model

| member | source | states |
|---|---|---|
| MedicineModel.MissingPaths | medimind-backend/models/Medicine.js:4-11 | no path is reported exactly when name and category are present and non-empty and price, quantity and expiry date are present; "name" and "price" are reported exactly when those fields are missing |
| MedicineModel.NewMedicine | medimind-backend/models/Medicine.js:3-13 | a document is created exactly when no required path is missing, otherwise the error lists the missing paths; a created document carries the given id and owner, `createdAt` is now, the required fields are the body's, description and supplier are optional and copied as given, and the document passes validation again when it is later saved |
| MedicineModel.Saveable | medimind-backend/models/Medicine.js:4-7 | a stored document passes the validators `save()` runs again exactly when its required name and category are non-empty |
| ReportModel.ParseType | medimind-backend/models/Report.js:13-17 | accepts exactly "Sales Report" and "Inventory Status", and the accepted value names the string |
| ReportModel.ParseFormat | medimind-backend/models/Report.js:18-22 | accepts exactly "PDF" and "CSV", and the accepted value names the string |
| ReportModel.TypeNamesRoundTrip | medimind-backend/models/Report.js:15 | parsing a type's name gives the type back |
| ReportModel.FormatNamesRoundTrip | medimind-backend/models/Report.js:20 | parsing a format's name gives the format back |
| ReportModel.InvalidPaths | medimind-backend/models/Report.js:9-22 | no path is invalid exactly when the name is non-empty and type and format are in their enums |
| ReportModel.NewReport | medimind-backend/models/Report.js:3-33 | a report is built exactly when name, type and format are valid, otherwise it is refused with the invalid paths; a built report keeps the id, owner, name, type, format and the optional dates as given, and `createdAt` is now |
| Store.Database.NewId | medimind-backend/routes/medicineRoutes.js:27 | a fresh id is not in use by any medicine, and the store stays valid |
| Store.FindOwned | medimind-backend/routes/medicineRoutes.js:50 | a medicine is found exactly when it exists and the caller owns it |
| Store.OwnedRange | medimind-backend/routes/medicineRoutes.js:12 | the scan yields only stored medicines of the caller within the id range, yields all of them, and in ascending id order |
| Store.Owned | medimind-backend/routes/dashboardRoutes.js:19 | all of the caller's stored medicines, each once, and nothing else |
| Store.OwnedRangeCount | medimind-backend/routes/medicineRoutes.js:12 | each of the caller's medicines in range occurs exactly once in the scan, and any other value never |
| Store.OwnedRangeFrame | medimind-backend/routes/medicineRoutes.js:12 | two catalogs that agree on the caller's medicines give the caller the same scan |
| SalesRoutes.Validate | medimind-backend/routes/salesRoutes.js:37-57 | the validation loop as a function of the catalog: it stops at the first line whose medicine the caller does not own or whose stock is short, and otherwise accumulates the total, the snapshot lines and the pending writes (its properties are the `Validate` lemmas below) |
| SalesRoutes.Step | medimind-backend/routes/salesRoutes.js:38-56 | one pass of the loop: the owner-scoped lookup, the stock check, and one more snapshot line and pending write |
| SalesRoutes.Checkout | medimind-backend/routes/salesRoutes.js:26-57 | a missing or empty `items` is refused before any lookup; otherwise the validation loop decides |
| SalesRoutes.Save | medimind-backend/routes/salesRoutes.js:61-62 | a line of zero units writes nothing: Mongoose sends no update for an unchanged document |
| SalesRoutes.SavedCount | medimind-backend/routes/salesRoutes.js:60-63 | the number of documents saved before `save()` refuses one: every document before that point passes validation, and the one at it does not |
| SalesRoutes.Commit | medimind-backend/routes/salesRoutes.js:60-63 | the pending writes saved in order (its effect is stated by `CommitLastWriteWins`) |
| SalesRoutes.LastPending | medimind-backend/routes/salesRoutes.js:60-63 | the quantity of the last pending write for a medicine that changes it (stated by `LastPendingIsLastRequested`) |
| SalesRoutes.ListSales | medimind-backend/routes/salesRoutes.js:13 | the caller's sales sorted by date, newest first (stated by `ListSalesExact`) |
| SalesRoutes.Status | medimind-backend/routes/salesRoutes.js:27-76 | a missing medicine answers 404, a document refused by `save()` 500, and every other refusal 400 |
| SalesRoutes.ValidateErrPersists | medimind-backend/routes/salesRoutes.js:37-46 | once a prefix of the cart is refused, the whole cart is refused with the same error, whatever later lines hold |
| SalesRoutes.ValidateAcceptsIff | medimind-backend/routes/salesRoutes.js:37-46 | the cart is accepted exactly when every line names an owned medicine with enough stock |
| SalesRoutes.ValidateRejectsFirstBadLine | medimind-backend/routes/salesRoutes.js:40-46 | a refusal is the error of the first bad line: every earlier line was acceptable |
| SalesRoutes.ValidateSnapshots | medimind-backend/routes/salesRoutes.js:49-56 | an accepted cart gives one snapshot line and one pending write per cart line, in cart order; each snapshot holds the medicine's name and price at validation time, and each line's medicine is owned and has enough stock |
| SalesRoutes.ValidateTotal | medimind-backend/routes/salesRoutes.js:48 | the accumulated total is the sum of price times quantity over the snapshot lines |
| SalesRoutes.LastRequested | medimind-backend/routes/salesRoutes.js:60-63 | no quantity is found exactly when no line names the medicine with a non-zero quantity, and a found quantity is never zero |
| SalesRoutes.CommitLastWriteWins | medimind-backend/routes/salesRoutes.js:60-63 | the commit loop keeps the catalog's keys, and each medicine ends as its fetched document lowered by the last pending write for it with a non-zero quantity; a zero write changes nothing |
| SalesRoutes.LastPendingIsLastRequested | medimind-backend/routes/salesRoutes.js:56 | the last pending write with a non-zero quantity for a medicine carries the quantity of the last non-zero cart line naming it |
| SalesRoutes.CheckoutStock | medimind-backend/routes/salesRoutes.js:37-63 | after an accepted checkout whose saves all pass, each medicine's stock is its old stock minus the quantity of the last non-zero line naming it, and is unchanged when no such line names it |
| SalesRoutes.LastRequestedDistinct | medimind-backend/routes/salesRoutes.js:56 | in a cart without duplicate medicines, a medicine's only line gives its quantity, or nothing when that quantity is zero |
| SalesRoutes.CheckoutDecrementsEachLine | medimind-backend/routes/salesRoutes.js:44-63 | with distinct medicines, each line's medicine loses exactly that line's quantity, and medicines no line names are unchanged |
| SalesRoutes.CheckoutStockNonNegative | medimind-backend/routes/salesRoutes.js:44-63 | after an accepted checkout no named medicine's stock is negative, and a catalog without negative stock stays so |
| SalesRoutes.LastRequestedAt | medimind-backend/routes/salesRoutes.js:37 | the found quantity is that of a line naming the medicine |
| SalesRoutes.TwoUnitsExample | medimind-backend/routes/salesRoutes.js:44-63 | two units at 1050 out of five give a total of 2100, one snapshot line, and three units left |
| SalesRoutes.DuplicateLinesOversell | medimind-backend/routes/salesRoutes.js:38-62 | two lines of four units against a stock of five are both accepted, total eight units, and leave a stock of one: the last save wins |
| SalesRoutes.ZeroLineKeepsEarlierWrite | medimind-backend/routes/salesRoutes.js:60-62 | lines of four and then zero units against a stock of five are accepted and leave one: the zero line's save writes nothing |
| SalesRoutes.NegativeQuantityRestocks | medimind-backend/routes/salesRoutes.js:26-48 | a line of minus three units is accepted, gives a negative total and raises the stock by three |
| SalesRoutes.CheckoutSaves | medimind-backend/routes/salesRoutes.js:60-63 | the commit loop saves the lines up to the first whose stored medicine fails validation, and the sale is recorded exactly when every line's medicine passes |
| SalesRoutes.BlankedMedicineHalfCommits | medimind-backend/routes/salesRoutes.js:37-63 | a medicine whose name was blanked passes the validation loop, but its save is refused after the earlier line's two units were already taken off |
| SalesRoutes.ValidateExtend | medimind-backend/routes/salesRoutes.js:37-57 | one more pass of the validation loop keeps an earlier refusal, and otherwise takes one step |
| SalesRoutes.ValidateCart | medimind-backend/routes/salesRoutes.js:32-57 | the loop over the cart, with its accumulators and early returns, computes the validation result |
| SalesRoutes.ApplyUpdates | medimind-backend/routes/salesRoutes.js:60-63 | the decrement loop saves the pending writes in order until `save()` refuses a document, returns how many it saved, and leaves the catalog as the commit of those writes and the store valid |
| SalesRoutes.RecordSale | medimind-backend/routes/salesRoutes.js:25-77 | a refusal by the checks (no items, missing medicine, short stock) changes no collection; a document refused by `save()` keeps the writes saved before it and records no sale; otherwise all writes are committed and exactly one sale is appended, owned by the caller, with the snapshot lines and the total |
| SalesRoutes.ListSalesExact | medimind-backend/routes/salesRoutes.js:13 | `GET /` lists exactly the caller's sales, each as often as stored, newest first |
| MedicineRoutes.Status | medimind-backend/routes/medicineRoutes.js:38-81 | "not found" answers 404 and a refused document 500 |
| MedicineRoutes.Edited | medimind-backend/routes/medicineRoutes.js:49-61 | an update overwrites the seven edited fields and keeps the id, the owner and `createdAt` |
| MedicineRoutes.ListMedicines | medimind-backend/routes/medicineRoutes.js:12 | the caller's medicines sorted by creation time, newest first (stated by `ListMedicinesExact`) |
| MedicineRoutes.ListMedicinesExact | medimind-backend/routes/medicineRoutes.js:12 | the list holds each of the caller's medicines exactly once, as stored, nothing else, newest first |
| MedicineRoutes.ListIsolated | medimind-backend/routes/medicineRoutes.js:12 | catalogs that agree on a user's medicines list the same for that user |
| MedicineRoutes.CreateMedicine | medimind-backend/routes/medicineRoutes.js:24-42 | a refused document leaves the catalog as it was; otherwise exactly one new medicine, owned by the caller, is stored under a fresh id |
| MedicineRoutes.UpdateMedicine | medimind-backend/routes/medicineRoutes.js:45-71 | without an owned match the result is "not found" and nothing changes; otherwise only that medicine changes, to the edited document, which is returned |
| MedicineRoutes.DeleteMedicine | medimind-backend/routes/medicineRoutes.js:74-87 | without an owned match the result is "not found" and nothing changes; otherwise exactly that medicine is removed |
| MedicineRoutes.UpdateIsolated | medimind-backend/routes/medicineRoutes.js:49-50 | an update keeps the medicine's owner and leaves every other user's list unchanged |
| MedicineRoutes.DeleteIsolated | medimind-backend/routes/medicineRoutes.js:77 | a deletion removes the medicine from its owner's list and leaves every other user's list unchanged |
| MedicineRoutes.CreateIsolated | medimind-backend/routes/medicineRoutes.js:27-36 | a creation adds the medicine to its owner's list and leaves every other user's list unchanged |
| DashboardRoutes.TotalSales | medimind-backend/routes/dashboardRoutes.js:13-17 | the `$match`/`$group` sum of the caller's sale totals, or 0 when no group comes back (stated by `TotalSalesIsOwnedTotal`) |
| DashboardRoutes.CountOwned | medimind-backend/routes/dashboardRoutes.js:19-29 | `countDocuments` over the caller's medicines with an extra condition (stated by `CountOwnedIsSetSize`) |
| DashboardRoutes.RecentSales | medimind-backend/routes/dashboardRoutes.js:32-36 | the caller's sales dated seven days ago or later, oldest first (stated by `RecentSalesExact`) |
| DashboardRoutes.OwnedSumIsOwnedTotal | medimind-backend/routes/dashboardRoutes.js:13-16 | the sum of totals over the caller's sales, matched then summed, equals the running total over the caller's sales |
| DashboardRoutes.TotalSalesIsOwnedTotal | medimind-backend/routes/dashboardRoutes.js:13-17 | `totalSales` is the sum of the caller's sale totals, and 0 when the caller has no sales |
| DashboardRoutes.RecordedSaleCounts | medimind-backend/routes/dashboardRoutes.js:13-17 | appending a sale raises the owner's `totalSales` by its total and leaves other users' totals unchanged |
| DashboardRoutes.OwnedIdsWhereStep | medimind-backend/routes/dashboardRoutes.js:21 | the set of matching owned ids in a range is that of the range without its first id, plus that id when it matches |
| DashboardRoutes.CountRangeStep | medimind-backend/routes/dashboardRoutes.js:21 | one step of the count: the count over a range equals the size of its set of matching owned ids, given that holds for the shorter range |
| DashboardRoutes.CountRange | medimind-backend/routes/dashboardRoutes.js:21 | the number of matching medicines in a scan is the number of matching owned ids |
| DashboardRoutes.CountOwnedIsSetSize | medimind-backend/routes/dashboardRoutes.js:19-29 | each count is the number of the caller's stored medicines meeting its condition |
| DashboardRoutes.RecentSalesExact | medimind-backend/routes/dashboardRoutes.js:32-36 | `recentSales` holds exactly the caller's sales dated seven days ago or later, each as often as stored, oldest first |
| DashboardRoutes.Dashboard | medimind-backend/routes/dashboardRoutes.js:11-49 | `totalMedicines` counts the caller's medicines, and neither `lowStock` nor `nearExpiry` exceeds it |
| ReportRoutes.Status | medimind-backend/routes/reportRoutes.js:27-86 | an unknown type answers 400, a missing report 404, and the other failures 500 |
| ReportRoutes.SalesInRange | medimind-backend/routes/reportRoutes.js:17-23 | the caller's sales, within the inclusive range when both dates are given, newest first (stated by `SalesInRangeExact`) |
| ReportRoutes.Inventory | medimind-backend/routes/reportRoutes.js:25 | the caller's medicines sorted by name (stated by `InventoryExact`) |
| ReportRoutes.ReportDataFor | medimind-backend/routes/reportRoutes.js:19-28 | a sales report yields sales data and an inventory report yields medicine data |
| ReportRoutes.SalesInRangeExact | medimind-backend/routes/reportRoutes.js:17-23 | the sales data holds exactly the caller's sales, limited to the inclusive range only when both dates are given, each as often as stored, newest first |
| ReportRoutes.OpenRangeIsHistory | medimind-backend/routes/reportRoutes.js:20 | without both dates the sales data is the caller's whole sales history, as `GET /api/sales` lists it |
| ReportRoutes.ByNameTotalPreorder | medimind-backend/routes/reportRoutes.js:25 | name order is a total preorder, so sorting by it is well defined |
| ReportRoutes.InventoryExact | medimind-backend/routes/reportRoutes.js:25 | the inventory data holds each of the caller's medicines exactly once, as stored, sorted by name |
| ReportRoutes.SlugIsReplaceFirst | medimind-backend/routes/reportRoutes.js:30 | the file-name prefix is the type name with its first space replaced by "_" |
| ReportRoutes.FileName | medimind-backend/routes/reportRoutes.js:30 | the file name is never empty |
| ReportRoutes.SalesPdfName | medimind-backend/routes/reportRoutes.js:30 | a PDF sales report at time t is named "Sales_Report_t.pdf" |
| ReportRoutes.InventoryCsvName | medimind-backend/routes/reportRoutes.js:30 | a CSV inventory report at time t is named "Inventory_Status_t.csv" |
| ReportRoutes.FileNameInjective | medimind-backend/routes/reportRoutes.js:30 | reports of one type and format generated at different times get different file names |
| ReportRoutes.GenerateReport | medimind-backend/routes/reportRoutes.js:12-53 | an unknown type is refused with nothing saved; a missing format fails and saves nothing; a format outside the enum is refused by the schema and saves nothing; otherwise exactly one report owned by the caller is appended, with the dates as given, and the response carries the data, the file name and the new id |
| ReportRoutes.RecentReports | medimind-backend/routes/reportRoutes.js:58-60 | the caller's reports, newest first, at most ten (stated by `RecentReportsSpec`) |
| ReportRoutes.RecentReportsFromMine | medimind-backend/routes/reportRoutes.js:58-60 | `/recent` returns a sub-multiset of the caller's reports: none is repeated beyond its stored occurrences |
| ReportRoutes.RecentReportsOmitOlder | medimind-backend/routes/reportRoutes.js:58-60 | no report of the caller that `/recent` leaves out is newer than any report it returns |
| ReportRoutes.RecentReportsSpec | medimind-backend/routes/reportRoutes.js:58-60 | `/recent` returns only the caller's reports, each at most as often as stored, min(10, their number) of them (so all of them when they are fewer than ten), newest first, and no report left out is newer than one returned |
| ReportRoutes.FindReport | medimind-backend/routes/reportRoutes.js:83 | a report is found exactly when the caller owns one with that id |
| ReportRoutes.Download | medimind-backend/routes/reportRoutes.js:81-104 | 404 exactly when the caller owns no report with that id; otherwise the stored name, type and format, with the data rebuilt from the current collections for the stored type and range |
| ReportRoutes.DownloadAfterGenerate | medimind-backend/routes/reportRoutes.js:33-104 | downloading a just-generated report, with the collections unchanged, returns the data, file name, type and format the generation produced |
| Text.Lower | medimind-frontend/src/pages/Inventory.js:74 | lower-casing keeps the length, maps each character, and leaves no capital letter |
| Text.LowerIdempotent | medimind-frontend/src/pages/Sales.js:41 | lower-casing twice is lower-casing once |
| Text.ContainsAt | medimind-frontend/src/pages/Sales.js:41 | `includes` holds exactly when the term occurs at some position |
| Text.EmptyTermMatches | medimind-frontend/src/pages/Inventory.js:74 | an empty search term matches every name |
| Text.MatchesSearchAt | medimind-frontend/src/pages/Inventory.js:74 | a name matches exactly when the lower-cased term occurs in the lower-cased name |
| Text.IndexOf | medimind-backend/routes/reportRoutes.js:30 | the first position of a character, or -1 exactly when it does not occur |
| Text.ReplaceFirst | medimind-backend/routes/reportRoutes.js:30 | replacing with a string pattern changes only the first occurrence, and nothing when there is none |
| Text.ReplaceFirstAt | medimind-backend/routes/reportRoutes.js:30 | the occurrence replaced is the first one |
| Text.Decimal | medimind-backend/routes/reportRoutes.js:30 | a timestamp prints as a non-empty string of digits without a leading zero |
| Text.DecimalRoundTrip | medimind-backend/routes/reportRoutes.js:30 | reading the printed digits back gives the timestamp |
| Text.DecimalInjective | medimind-backend/routes/reportRoutes.js:30 | different timestamps print differently |
| Text.DecimalThenNonDigit | medimind-backend/routes/reportRoutes.js:30 | a timestamp followed by the same non-digit suffix can be read back uniquely |
| Text.StrLeTotal | medimind-backend/routes/reportRoutes.js:25 | any two names are ordered one way or the other |
| Text.StrLeTransitive | medimind-backend/routes/reportRoutes.js:25 | the name order is transitive |
| Text.StrLeAntisymmetric | medimind-backend/routes/reportRoutes.js:25 | names ordered both ways are equal |
| SalesPage.FindMedicine | medimind-frontend/src/pages/Sales.js:46 | a medicine is found exactly when one is listed with the id, and the one found is listed with that id |
| SalesPage.SearchResults | medimind-frontend/src/pages/Sales.js:40-42 | the dropdown offers only listed medicines whose name matches the search, and every such medicine |
| SalesPage.MergeInto | medimind-frontend/src/pages/Sales.js:61-67 | the merge keeps the cart's length and raises by q exactly the lines of that medicine |
| SalesPage.AddLine | medimind-frontend/src/pages/Sales.js:59-78 | the cart after adding: merged into the medicine's line when it has one, else a new line at the end (stated by `AddLineMerges`, `AddLineAppends` and `AddLineKeepsDistinct`) |
| SalesPage.AddLineMerges | medimind-frontend/src/pages/Sales.js:59-67 | adding a medicine already in the cart grows only its line, which keeps its place, name and price |
| SalesPage.AddLineAppends | medimind-frontend/src/pages/Sales.js:68-78 | adding a new medicine appends one line with its id, name, price and the quantity |
| SalesPage.AddLineKeepsDistinct | medimind-frontend/src/pages/Sales.js:59-78 | the cart never holds a medicine twice, and holds the added one afterwards |
| SalesPage.MergedLineCanExceedStock | medimind-frontend/src/pages/Sales.js:49-64 | the stock check sees only the added quantity, so four more units on a line of four pass against a stock of five and leave a line of eight |
| SalesPage.RemoveLine | medimind-frontend/src/pages/Sales.js:84-86 | the cart without that medicine's lines (stated by `RemoveLineSpec`) |
| SalesPage.RemoveLineSpec | medimind-frontend/src/pages/Sales.js:84-86 | removal drops exactly the lines of that medicine and keeps the others, as often as before and in order |
| SalesPage.RemoveLineKeepsDistinct | medimind-frontend/src/pages/Sales.js:85 | removal keeps the cart free of duplicate medicines |
| SalesPage.CartItems | medimind-frontend/src/pages/Sales.js:94 | the posted items are the cart's lines, one per line in order, with their medicine ids and quantities |
| SalesPage.TotalAmount | medimind-frontend/src/pages/Sales.js:117 | the sum of price times quantity over the cart's lines (related to the recorded total by `CheckoutTotalIsCartTotal`) |
| SalesPage.CheckoutTotalIsCartTotal | medimind-frontend/src/pages/Sales.js:117 | when the cart's prices are the catalog's, the total the route records is the total the page shows |
| SalesPage.CartCheckoutStock | medimind-frontend/src/pages/Sales.js:92-96 | an accepted cart built by the page lowers each of its medicines' stock by exactly its line's quantity |
| SalesPage.OverStockLineRefused | medimind-frontend/src/pages/Sales.js:64-96 | a cart line above the medicine's stock makes the route refuse the whole cart |
| SalesPage.SalesPageState.constructor | medimind-frontend/src/pages/Sales.js:7-37 | the page starts with the fetched list, an empty cart, no selection, quantity 1 and an empty search |
| SalesPage.SalesPageState.AddToCart | medimind-frontend/src/pages/Sales.js:44-82 | nothing changes without a selection, with a quantity of 0 or less, or when the selection is not listed; a quantity above stock only shows the stock notice; otherwise the line is added or merged, the form resets, and the cart stays free of duplicates |
| SalesPage.SalesPageState.RemoveFromCart | medimind-frontend/src/pages/Sales.js:84-86 | the cart loses that medicine's lines and stays free of duplicates |
| SalesPage.SalesPageState.HandleCheckout | medimind-frontend/src/pages/Sales.js:88-115 | an empty cart posts nothing and changes nothing; otherwise the cart's items are posted, and on success the cart empties, the list refreshes and the success notice shows; on failure the cart stays and the error notice shows |
| InventoryPage.ViewOf | medimind-frontend/src/pages/Inventory.js:76-80 | "lowStock" and "nearExpiry" select their views, and any other filter selects neither |
| InventoryPage.Shown | medimind-frontend/src/pages/Inventory.js:73-89 | the table's test: the search match, plus the stock limit or the expiry window under the two filters |
| InventoryPage.Visible | medimind-frontend/src/pages/Inventory.js:73-89 | `filteredMedicines`: the fetched list filtered by that test (stated by `VisibleExact`) |
| InventoryPage.VisibleExact | medimind-frontend/src/pages/Inventory.js:73-89 | the table is a subsequence of the fetched list, and holds each medicine that passes the view's test as often as listed and nothing else |
| InventoryPage.LowStockVisible | medimind-frontend/src/pages/Inventory.js:76-78 | under "lowStock" the table holds exactly the matching listed medicines with fewer than 10 units |
| InventoryPage.NearExpiryVisible | medimind-frontend/src/pages/Inventory.js:80-86 | under "nearExpiry" the table holds exactly the matching listed medicines expiring between now and 30 days from now |
| InventoryPage.UnfilteredVisible | medimind-frontend/src/pages/Inventory.js:74-88 | without either filter the search alone decides, and an empty search shows the fetched list whole |
| InventoryPage.CardCountsMatchTables | medimind-frontend/src/pages/Inventory.js:73-89 | with the caller's list and an empty search, the "lowStock" and "nearExpiry" tables have as many rows as the dashboard's `lowStock` and `nearExpiry` counts |
| InventoryPage.PageTitle | medimind-frontend/src/pages/Inventory.js:91-95 | the title is "Low Stock Inventory", "Near Expiry Inventory" or, for any other filter, "Inventory Management" |
| InventoryPage.DeleteRemovesOnly | medimind-frontend/src/pages/Inventory.js:65 | after a deletion the list loses every entry with that id and keeps every other entry, in order and as often as before |
| InventoryPage.FilterSplitCount | medimind-frontend/src/pages/Inventory.js:65 | the entries kept and the entries removed together are the whole list |
| InventoryPage.InventoryPageState.constructor | medimind-frontend/src/pages/Inventory.js:8-29 | the page starts with the fetched list, an empty search and the filter the navigation passed |
| InventoryPage.InventoryPageState.HandleDelete | medimind-frontend/src/pages/Inventory.js:59-71 | a successful deletion drops the entries with that id from the local list; a failed one leaves it as it was |

## Left out

- Authentication (password hashing, tokens, the auth middleware): the caller's id is a parameter.
- MongoDB plumbing and HTTP: connection, routing, JSON bodies and status mechanics. Responses are result values; status codes are given by the `Status` functions.
- Storage failures and concurrency. The model is sequential and the database itself never fails a write; only schema validation refuses one (`SalesRoutes.SavedCount`). Two concurrent checkouts reading the same stock are not modelled.
- SalesRoutes.RecordSale: cart quantities are integers. A line whose quantity is missing or not a number passes the stock check (`n < undefined` is false), and its save then fails the Number cast. The request answers 500 after the earlier lines' writes, with no sale recorded. This path is not modelled.
- Floating-point prices and totals, and `parseFloat`/`parseInt`: prices, totals and quantities are integers.
- Strings that arrive where numbers are expected (JavaScript coercion): every field has its model type.
- Calendar arithmetic: `setDate(+30)` and `setDate(-7)` become fixed windows of 30 and 7 days in milliseconds, which differ across a daylight-saving change. The several `new Date()` calls in one request are one instant `now`.
- Date-string parsing of `expiryDate`, `startDate` and `endDate`: these arrive as times.
- `toLowerCase` is modelled on ASCII letters only.
- Name order is the order of character codes: JavaScript compares UTF-16 code units, MongoDB compares UTF-8 bytes, and the two agree for the characters modelled.
- Malformed ids: the cast error (400 on download, 500 elsewhere) is not modelled, because ids are numbers.
- MedicineRoutes.UpdateMedicine: takes a complete `MedicineEdit`. Update requests that omit fields are not modelled. An omitted `name`, `description`, `category` or `supplier` is left unchanged (or set to null when sent as null). An omitted `price`, `quantity` or `expiryDate` becomes NaN or an invalid date, which the cast rejects, so such a request is answered 500 and changes nothing.
- ReportRoutes.GenerateReport: a request without a type is modelled as an unknown type string (the code also answers 400).
- The scan bound: `Store.Owned` and the functions built on it scan ids below a bound that covers the catalog. It stands for the whole collection.
- Sort ties: MongoDB does not fix the order of equal keys. The model keeps the scan order, which is one of the orders MongoDB may return.
- UI rendering: modal text, the report PDF and CSV rendering, `toLocaleDateString` on `/recent`, and the dropdown and table markup. Notices are values.
- Fetches made by the pages: the fetched list and the outcome of each request are method parameters.
- The `/recent` response renames and formats fields. The model returns the stored reports, which hold those fields.
