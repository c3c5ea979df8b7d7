/** The inventory page (medimind-frontend/src/pages/Inventory.js): the fetched
    list of the caller's medicines, narrowed by the search box and by the
    filter the dashboard's cards pass along, and the local list update after a
    deletion. */
module InventoryPage {
  import opened Common
  import opened Seqs
  import opened Text
  import opened MedicineModel
  import opened Store
  import opened MedicineRoutes
  import opened DashboardRoutes

  /** What `location.state?.filter` selects: "lowStock", "nearExpiry", or
      anything else (including no filter at all), which narrows nothing. */
  datatype View = LowStockView | NearExpiryView | AllView

  function ViewOf(filter: Option<string>): (v: View)
    ensures v.LowStockView? <==> filter == Some("lowStock")
    ensures v.NearExpiryView? <==> filter == Some("nearExpiry")
  {
    assert "lowStock"[0] != "nearExpiry"[0];
    if filter == Some("lowStock") then LowStockView
    else if filter == Some("nearExpiry") then NearExpiryView
    else AllView
  }

  /** The predicate of `filteredMedicines`: the search match, and under the
      two filters the stock limit or the expiry window as well. `today` and
      thirty days after it are taken at the one instant `now`. */
  function Shown(term: string, view: View, now: Time): Medicine -> bool
  {
    (m: Medicine) =>
      match view
      case LowStockView => MatchesSearch(m.name, term) && m.quantity < LowStockLimit
      case NearExpiryView => MatchesSearch(m.name, term) && m.expiryDate <= now + ExpiryWindow && m.expiryDate >= now
      case AllView => MatchesSearch(m.name, term)
  }

  /** `filteredMedicines`. */
  function Visible(medicines: seq<Medicine>, term: string, filter: Option<string>, now: Time): seq<Medicine>
  {
    Filter(medicines, Shown(term, ViewOf(filter), now))
  }

  /** The table shows medicines of the fetched list, in its order, each as
      often as it is listed when it passes the view's test and not at all
      otherwise. */
  lemma VisibleExact(medicines: seq<Medicine>, term: string, filter: Option<string>, now: Time)
    ensures var r := Visible(medicines, term, filter, now);
      && IsSubseq(r, medicines)
      && (forall m :: multiset(r)[m] ==
            if Shown(term, ViewOf(filter), now)(m) then multiset(medicines)[m] else 0)
      && (forall m :: m in r <==> m in medicines && Shown(term, ViewOf(filter), now)(m))
  {
    var p := Shown(term, ViewOf(filter), now);
    FilterIsSubseq(medicines, p);
    forall m ensures multiset(Filter(medicines, p))[m] == if p(m) then multiset(medicines)[m] else 0 {
      FilterMultiset(medicines, p, m);
    }
  }

  /** Under "lowStock" the table holds exactly the listed medicines that match
      the search and have fewer than ten units. */
  lemma LowStockVisible(medicines: seq<Medicine>, term: string, now: Time)
    ensures forall m :: m in Visible(medicines, term, Some("lowStock"), now) <==>
      m in medicines && MatchesSearch(m.name, term) && m.quantity < 10
  {
    VisibleExact(medicines, term, Some("lowStock"), now);
  }

  /** Under "nearExpiry" the table holds exactly the listed medicines that match
      the search and expire between now and thirty days from now. */
  lemma NearExpiryVisible(medicines: seq<Medicine>, term: string, now: Time)
    ensures forall m :: m in Visible(medicines, term, Some("nearExpiry"), now) <==>
      m in medicines && MatchesSearch(m.name, term) && now <= m.expiryDate <= now + 30 * DayMs
  {
    VisibleExact(medicines, term, Some("nearExpiry"), now);
  }

  /** Without one of the two filters the search alone decides, and an empty
      search shows the whole list as fetched. */
  lemma UnfilteredVisible(medicines: seq<Medicine>, term: string, filter: Option<string>, now: Time)
    requires filter != Some("lowStock") && filter != Some("nearExpiry")
    ensures forall m :: m in Visible(medicines, term, filter, now) <==> m in medicines && MatchesSearch(m.name, term)
    ensures term == "" ==> Visible(medicines, term, filter, now) == medicines
  {
    VisibleExact(medicines, term, filter, now);
    if term == "" {
      forall i | 0 <= i < |medicines| ensures Shown(term, AllView, now)(medicines[i]) {
        EmptyTermMatches(medicines[i].name);
      }
      FilterKeepsAll(medicines, Shown(term, AllView, now));
    }
  }

  /** A dashboard card and the page it opens agree: with the caller's list as
      the route returns it and an empty search, the "lowStock" and
      "nearExpiry" tables have as many rows as the card counts. */
  lemma CardCountsMatchTables(medicines: map<Id, Medicine>, owner: Id, bound: nat, now: Time)
    requires KeyedById(medicines)
    requires forall k :: k in medicines ==> k < bound
    ensures |Visible(ListMedicines(medicines, owner, bound), "", Some("lowStock"), now)|
      == CountOwned(medicines, owner, bound, LowStock())
    ensures |Visible(ListMedicines(medicines, owner, bound), "", Some("nearExpiry"), now)|
      == CountOwned(medicines, owner, bound, NearExpiry(now))
  {
    var owned := Owned(medicines, owner, bound);
    var listed := ListMedicines(medicines, owner, bound);
    forall i | 0 <= i < |owned| ensures MatchesSearch(owned[i].name, "") {
      EmptyTermMatches(owned[i].name);
    }
    FilterEquiv(owned, Shown("", LowStockView, now), LowStock());
    FilterEquiv(owned, Shown("", NearExpiryView, now), NearExpiry(now));
    FilterCountPermutation(listed, owned, Shown("", LowStockView, now));
    FilterCountPermutation(listed, owned, Shown("", NearExpiryView, now));
  }

  /** `getPageTitle`. */
  function PageTitle(filter: Option<string>): (title: string)
    ensures filter == Some("lowStock") ==> title == "Low Stock Inventory"
    ensures filter == Some("nearExpiry") ==> title == "Near Expiry Inventory"
    ensures filter != Some("lowStock") && filter != Some("nearExpiry") ==> title == "Inventory Management"
  {
    match ViewOf(filter)
    case LowStockView => "Low Stock Inventory"
    case NearExpiryView => "Near Expiry Inventory"
    case AllView => "Inventory Management"
  }

  /** `m => m.id !== id`. */
  function OtherThan(id: Id): Medicine -> bool
  {
    (m: Medicine) => m.id != id
  }

  /** After a deletion the list loses every entry with that id and keeps every
      other entry, in order and as often as before. */
  lemma DeleteRemovesOnly(medicines: seq<Medicine>, id: Id)
    ensures var after := Filter(medicines, OtherThan(id));
      && IsSubseq(after, medicines)
      && (forall m :: multiset(after)[m] == if m.id == id then 0 else multiset(medicines)[m])
      && |after| == |medicines| - |Filter(medicines, (m: Medicine) => m.id == id)|
  {
    FilterIsSubseq(medicines, OtherThan(id));
    forall m ensures multiset(Filter(medicines, OtherThan(id)))[m] == if m.id == id then 0 else multiset(medicines)[m] {
      FilterMultiset(medicines, OtherThan(id), m);
    }
    FilterSplitCount(medicines, id);
  }

  lemma {:induction false} FilterSplitCount(medicines: seq<Medicine>, id: Id)
    ensures |Filter(medicines, OtherThan(id))| + |Filter(medicines, (m: Medicine) => m.id == id)| == |medicines|
  {
    if medicines != [] {
      FilterSplitCount(medicines[1..], id);
    }
  }

  class InventoryPageState {
    var medicines: seq<Medicine>
    var searchTerm: string
    var filter: Option<string>

    /** The page after the list has been fetched, opened with the filter the
        navigation passed (`None` when it passed none). */
    constructor (fetched: seq<Medicine>, navigationFilter: Option<string>)
      ensures medicines == fetched && searchTerm == "" && filter == navigationFilter
    {
      medicines, searchTerm, filter := fetched, "", navigationFilter;
    }

    /** The rows of the table at the instant `now`. */
    function FilteredMedicines(now: Time): seq<Medicine>
      reads this
    {
      Visible(medicines, searchTerm, filter, now)
    }

    /** The heading above the table. */
    function Title(): string
      reads this
    {
      PageTitle(filter)
    }

    /** `handleDelete(id)`: once the route has `deleted` the medicine, the
        local list drops every entry with that id; when the request fails the
        list stays as it was. */
    method HandleDelete(id: Id, deleted: bool)
      modifies this`medicines
      ensures deleted ==> medicines == Filter(old(medicines), OtherThan(id))
      ensures !deleted ==> medicines == old(medicines)
    {
      if deleted {
        medicines := Filter(medicines, OtherThan(id));
      }
    }
  }
}
