/** The dashboard statistics (medimind-backend/routes/dashboardRoutes.js): sums
    and counts over the caller's sales and medicines. Read only. */
module DashboardRoutes {
  import opened Common
  import opened Seqs
  import opened MedicineModel
  import opened SaleModel
  import opened Store
  import opened SalesRoutes

  /** A medicine is low on stock below this many units. */
  const LowStockLimit: int := 10

  /** The look-ahead window for expiry, and the look-back window for recent sales. */
  const ExpiryWindow: nat := 30 * DayMs
  const RecentWindow: nat := 7 * DayMs

  /** The response of `GET /stats`. */
  datatype Stats = Stats(totalSales: int, totalMedicines: nat, lowStock: nat, nearExpiry: nat, recentSales: seq<Sale>)

  function SaleTotal(s: Sale): int
  {
    s.total
  }

  /** The `$match`/`$group` aggregate: the sum of `total` over the caller's
      sales, where an empty match yields no group and the route answers 0. */
  function TotalSales(sales: seq<Sale>, owner: Id): int
  {
    var mine := Filter(sales, OwnedBy(owner));
    if |mine| > 0 then SumOf(mine, SaleTotal) else 0
  }

  /** The caller's sales total, counted sale by sale over the whole ledger. */
  function OwnedTotal(sales: seq<Sale>, owner: Id): int
    decreases |sales|
  {
    if sales == [] then 0
    else OwnedTotal(sales[..|sales| - 1], owner) + (if sales[|sales| - 1].user == owner then sales[|sales| - 1].total else 0)
  }

  /** The sum over the caller's sales, counted sale by sale. */
  lemma {:induction false} OwnedSumIsOwnedTotal(sales: seq<Sale>, owner: Id)
    ensures SumOf(Filter(sales, OwnedBy(owner)), SaleTotal) == OwnedTotal(sales, owner)
    decreases |sales|
  {
    if sales != [] {
      var init, last := sales[..|sales| - 1], sales[|sales| - 1];
      assert sales == init + [last];
      OwnedSumIsOwnedTotal(init, owner);
      FilterAppend(init, last, OwnedBy(owner));
      var mine := Filter(init, OwnedBy(owner));
      if last.user == owner {
        SumOfAppend(mine, last, SaleTotal);
        assert Filter(sales, OwnedBy(owner)) == mine + [last];
        assert OwnedTotal(sales, owner) == OwnedTotal(init, owner) + last.total;
      } else {
        assert Filter(sales, OwnedBy(owner)) == mine + [];
        assert mine + [] == mine;
        assert OwnedTotal(sales, owner) == OwnedTotal(init, owner);
      }
    }
  }

  /** `totalSales` is the sum of `total` over exactly the caller's sales, and 0
      when the caller has none. */
  lemma TotalSalesIsOwnedTotal(sales: seq<Sale>, owner: Id)
    ensures TotalSales(sales, owner) == OwnedTotal(sales, owner)
    ensures (forall i :: 0 <= i < |sales| ==> sales[i].user != owner) ==> TotalSales(sales, owner) == 0
  {
    OwnedSumIsOwnedTotal(sales, owner);
  }

  /** A sale recorded for the caller raises the caller's `totalSales` by its
      total and leaves every other user's unchanged. */
  lemma RecordedSaleCounts(sales: seq<Sale>, sale: Sale, user: Id)
    ensures TotalSales(sales + [sale], user) ==
      TotalSales(sales, user) + (if sale.user == user then sale.total else 0)
  {
    TotalSalesIsOwnedTotal(sales + [sale], user);
    TotalSalesIsOwnedTotal(sales, user);
    assert (sales + [sale])[..|sales|] == sales;
  }

  function AnyMedicine(): Medicine -> bool
  {
    (m: Medicine) => true
  }

  function LowStock(): Medicine -> bool
  {
    (m: Medicine) => m.quantity < LowStockLimit
  }

  /** Expires between now and thirty days from now, both ends included. */
  function NearExpiry(now: Time): Medicine -> bool
  {
    (m: Medicine) => now <= m.expiryDate <= now + ExpiryWindow
  }

  /** `Medicine.countDocuments({ user: owner, ... })` with the extra condition `p`. */
  function CountOwned(medicines: map<Id, Medicine>, owner: Id, bound: nat, p: Medicine -> bool): nat
    requires KeyedById(medicines)
    requires forall k :: k in medicines ==> k < bound
  {
    |Filter(Owned(medicines, owner, bound), p)|
  }

  /** The ids from `lo` up to `hi` of the caller's medicines that satisfy `p`. */
  ghost function OwnedIdsWhere(medicines: map<Id, Medicine>, owner: Id, lo: nat, hi: nat, p: Medicine -> bool): set<Id>
  {
    set k | k in medicines && lo <= k < hi && medicines[k].user == owner && p(medicines[k])
  }

  lemma OwnedIdsWhereStep(medicines: map<Id, Medicine>, owner: Id, lo: nat, hi: nat, p: Medicine -> bool)
    requires lo < hi
    ensures lo !in OwnedIdsWhere(medicines, owner, lo + 1, hi, p)
    ensures OwnedIdsWhere(medicines, owner, lo, hi, p) ==
      OwnedIdsWhere(medicines, owner, lo + 1, hi, p) +
      (if lo in medicines && medicines[lo].user == owner && p(medicines[lo]) then {lo} else {})
  {
  }

  /** One step of the scan: the id `lo` is counted exactly when the scan keeps its medicine. */
  lemma CountRangeStep(medicines: map<Id, Medicine>, owner: Id, lo: nat, hi: nat, p: Medicine -> bool)
    requires KeyedById(medicines) && lo < hi
    requires |Filter(OwnedRange(medicines, owner, lo + 1, hi), p)| == |OwnedIdsWhere(medicines, owner, lo + 1, hi, p)|
    ensures |Filter(OwnedRange(medicines, owner, lo, hi), p)| == |OwnedIdsWhere(medicines, owner, lo, hi, p)|
  {
    OwnedIdsWhereStep(medicines, owner, lo, hi, p);
    var tail := OwnedRange(medicines, owner, lo + 1, hi);
    if lo in medicines && medicines[lo].user == owner {
      var m := medicines[lo];
      assert OwnedRange(medicines, owner, lo, hi) == [m] + tail;
      FilterCons(m, tail, p);
    } else {
      assert OwnedRange(medicines, owner, lo, hi) == tail;
    }
  }

  lemma {:induction false} CountRange(medicines: map<Id, Medicine>, owner: Id, lo: nat, hi: nat, p: Medicine -> bool)
    requires KeyedById(medicines)
    ensures |Filter(OwnedRange(medicines, owner, lo, hi), p)| == |OwnedIdsWhere(medicines, owner, lo, hi, p)|
    decreases hi - lo
  {
    if lo < hi {
      CountRange(medicines, owner, lo + 1, hi, p);
      CountRangeStep(medicines, owner, lo, hi, p);
    } else {
      assert OwnedIdsWhere(medicines, owner, lo, hi, p) == {};
    }
  }

  /** Each count is the number of the caller's medicines meeting its condition. */
  lemma CountOwnedIsSetSize(medicines: map<Id, Medicine>, owner: Id, bound: nat, p: Medicine -> bool)
    requires KeyedById(medicines)
    requires forall k :: k in medicines ==> k < bound
    ensures CountOwned(medicines, owner, bound, p) ==
      |set k | k in medicines && medicines[k].user == owner && p(medicines[k])|
  {
    CountRange(medicines, owner, 0, bound, p);
    assert OwnedIdsWhere(medicines, owner, 0, bound, p) ==
      (set k | k in medicines && medicines[k].user == owner && p(medicines[k]));
  }

  function RecentOwned(owner: Id, since: int): Sale -> bool
  {
    (s: Sale) => s.user == owner && s.date >= since
  }

  const OldestFirst: (Sale, Sale) -> bool := (a: Sale, b: Sale) => a.date <= b.date

  /** `Sale.find({ user: owner, date: { $gte: sevenDaysAgo } }).sort({ date: 1 })`. */
  function RecentSales(sales: seq<Sale>, owner: Id, now: Time): seq<Sale>
  {
    SortBy(Filter(sales, RecentOwned(owner, now - RecentWindow)), OldestFirst)
  }

  /** `recentSales` holds exactly the caller's sales of the last seven days, each
      as often as it is stored, oldest first. */
  lemma RecentSalesExact(sales: seq<Sale>, owner: Id, now: Time)
    ensures var r := RecentSales(sales, owner, now);
      && (forall s :: s in r <==> s in sales && s.user == owner && s.date >= now - RecentWindow)
      && (forall s :: multiset(r)[s] ==
            if s.user == owner && s.date >= now - RecentWindow then multiset(sales)[s] else 0)
      && (forall i, j :: 0 <= i < j < |r| ==> r[i].date <= r[j].date)
  {
    var p := RecentOwned(owner, now - RecentWindow);
    var r := RecentSales(sales, owner, now);
    forall s: Sale ensures multiset(r)[s] == if p(s) then multiset(sales)[s] else 0 {
      FilterMultiset(sales, p, s);
    }
    forall s: Sale ensures s in r <==> s in sales && p(s) {
      assert s in r <==> multiset(r)[s] > 0;
      assert s in sales <==> multiset(sales)[s] > 0;
    }
    SortBySorted(Filter(sales, p), OldestFirst);
  }

  /** `GET /stats`. */
  function Dashboard(sales: seq<Sale>, medicines: map<Id, Medicine>, owner: Id, bound: nat, now: Time): (r: Stats)
    requires KeyedById(medicines)
    requires forall k :: k in medicines ==> k < bound
    ensures r.lowStock <= r.totalMedicines && r.nearExpiry <= r.totalMedicines
    ensures r.totalMedicines == |Owned(medicines, owner, bound)|
  {
    FilterKeepsAll(Owned(medicines, owner, bound), AnyMedicine());
    Stats(TotalSales(sales, owner),
          CountOwned(medicines, owner, bound, AnyMedicine()),
          CountOwned(medicines, owner, bound, LowStock()),
          CountOwned(medicines, owner, bound, NearExpiry(now)),
          RecentSales(sales, owner, now))
  }
}
