/** The document store the routes share: the `medicines`, `sales` and
    `reports` collections, with the owner-scoped lookups the routes issue. */
module Store {
  import opened Common
  import opened MedicineModel
  import opened SaleModel
  import opened ReportModel

  /** Every catalog entry is stored under its own id. */
  ghost predicate KeyedById(medicines: map<Id, Medicine>)
  {
    forall k :: k in medicines ==> medicines[k].id == k
  }

  /** The database. `nextId` stands for ObjectId generation: every id handed out
      so far is below it, so a new id is never one already in use. */
  class Database {
    var medicines: map<Id, Medicine>
    var sales: seq<Sale>
    var reports: seq<Report>
    var nextId: Id

    ghost predicate Valid()
      reads this
    {
      && KeyedById(medicines)
      && (forall k :: k in medicines ==> k < nextId)
      && (forall i :: 0 <= i < |sales| ==> sales[i].id < nextId)
      && (forall i :: 0 <= i < |reports| ==> reports[i].id < nextId)
    }

    constructor ()
      ensures Valid()
      ensures medicines == map[] && sales == [] && reports == [] && nextId == 0
    {
      medicines, sales, reports, nextId := map[], [], [], 0;
    }

    /** Allocates a fresh document id. */
    method NewId() returns (id: Id)
      requires Valid()
      modifies this`nextId
      ensures Valid()
      ensures id == old(nextId) && nextId == id + 1
      ensures id !in medicines
    {
      id := nextId;
      nextId := nextId + 1;
    }
  }

  /** `Medicine.findOne({ _id: id, user: owner })`: the medicine only when the caller owns it. */
  function FindOwned(medicines: map<Id, Medicine>, id: Id, owner: Id): (r: Option<Medicine>)
    ensures r.Some? <==> id in medicines && medicines[id].user == owner
    ensures r.Some? ==> r.value == medicines[id]
  {
    if id in medicines && medicines[id].user == owner then Some(medicines[id]) else None
  }

  /** `Medicine.find({ user: owner })` over the ids `lo` up to `hi`, in id order
      (the order documents were inserted in): each of the caller's medicines in
      that range exactly once, and nothing else. */
  function OwnedRange(medicines: map<Id, Medicine>, owner: Id, lo: nat, hi: nat): (r: seq<Medicine>)
    requires KeyedById(medicines)
    ensures forall i :: 0 <= i < |r| ==>
      lo <= r[i].id < hi && r[i].id in medicines && medicines[r[i].id] == r[i] && r[i].user == owner
    ensures forall k :: lo <= k < hi && k in medicines && medicines[k].user == owner ==> medicines[k] in r
    ensures forall i, j :: 0 <= i < j < |r| ==> r[i].id < r[j].id
    decreases hi - lo
  {
    if lo >= hi then []
    else
      var rest := OwnedRange(medicines, owner, lo + 1, hi);
      if lo in medicines && medicines[lo].user == owner then
        assert medicines[lo].id == lo;
        [medicines[lo]] + rest
      else rest
  }

  /** `Medicine.find({ user: owner })`: all of the caller's medicines, when every
      id is below `bound`, each once. */
  function Owned(medicines: map<Id, Medicine>, owner: Id, bound: nat): (r: seq<Medicine>)
    requires KeyedById(medicines)
    requires forall k :: k in medicines ==> k < bound
    ensures forall i :: 0 <= i < |r| ==> r[i].id in medicines && medicines[r[i].id] == r[i] && r[i].user == owner
    ensures forall k :: k in medicines && medicines[k].user == owner ==> medicines[k] in r
    ensures forall i, j :: 0 <= i < j < |r| ==> r[i].id != r[j].id
  {
    OwnedRange(medicines, owner, 0, bound)
  }

  /** The scan yields each of the caller's medicines in range exactly once. */
  lemma {:induction false} OwnedRangeCount(medicines: map<Id, Medicine>, owner: Id, lo: nat, hi: nat, m: Medicine)
    requires KeyedById(medicines)
    ensures multiset(OwnedRange(medicines, owner, lo, hi))[m] ==
      if lo <= m.id < hi && m.id in medicines && medicines[m.id] == m && m.user == owner then 1 else 0
    decreases hi - lo
  {
    if lo < hi {
      OwnedRangeCount(medicines, owner, lo + 1, hi, m);
      var rest := OwnedRange(medicines, owner, lo + 1, hi);
      if lo in medicines && medicines[lo].user == owner {
        var here := medicines[lo];
        assert here.id == lo;
        assert multiset(OwnedRange(medicines, owner, lo, hi)) == multiset{here} + multiset(rest);
      } else {
        assert OwnedRange(medicines, owner, lo, hi) == rest;
      }
    }
  }

  /** Two catalogs that agree on the medicines `owner` holds give `owner` the
      same scan, whatever they hold for anyone else. */
  lemma {:induction false} OwnedRangeFrame(a: map<Id, Medicine>, b: map<Id, Medicine>, owner: Id, lo: nat, hi: nat)
    requires KeyedById(a) && KeyedById(b)
    requires forall k :: k in a && a[k].user == owner ==> k in b && b[k] == a[k]
    requires forall k :: k in b && b[k].user == owner ==> k in a && a[k] == b[k]
    ensures OwnedRange(a, owner, lo, hi) == OwnedRange(b, owner, lo, hi)
    decreases hi - lo
  {
    if lo < hi {
      OwnedRangeFrame(a, b, owner, lo + 1, hi);
    }
  }
}
