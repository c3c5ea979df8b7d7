/** The catalog routes (medimind-backend/routes/medicineRoutes.js): list, create,
    update and delete, each scoped to the calling user. A request naming a
    medicine the caller does not own is answered exactly as one naming a
    medicine that does not exist. */
module MedicineRoutes {
  import opened Common
  import opened Seqs
  import opened MedicineModel
  import opened Store

  /** The rejections of the catalog routes. */
  datatype CatalogError =
    | Invalid(paths: seq<string>)   // 500: the schema refused the document
    | NotFound                      // 404 "Medicine not found or unauthorized"

  function Status(e: CatalogError): (code: int)
    ensures code == 404 <==> e.NotFound?
    ensures code == 404 || code == 500
  {
    match e
    case Invalid(_) => 500
    case NotFound => 404
  }

  /** The fields an update request sets, already parsed. */
  datatype MedicineEdit = MedicineEdit(
    name: string,
    description: Option<string>,
    category: string,
    price: int,
    quantity: int,
    expiryDate: Time,
    supplier: Option<string>)

  /** The document `findOneAndUpdate` returns with `{ new: true }`: the seven
      edited fields overwritten, the id, the owner and `createdAt` kept. */
  function Edited(m: Medicine, e: MedicineEdit): (r: Medicine)
    ensures r.id == m.id && r.user == m.user && r.createdAt == m.createdAt
    ensures r.name == e.name && r.description == e.description && r.category == e.category
    ensures r.price == e.price && r.quantity == e.quantity && r.expiryDate == e.expiryDate
    ensures r.supplier == e.supplier
  {
    m.(name := e.name, description := e.description, category := e.category, price := e.price,
       quantity := e.quantity, expiryDate := e.expiryDate, supplier := e.supplier)
  }

  // ---------------------------------------------------------------------------
  // GET /

  const NewestCreatedFirst: (Medicine, Medicine) -> bool :=
    (a: Medicine, b: Medicine) => a.createdAt >= b.createdAt

  /** `Medicine.find({ user: owner }).sort({ createdAt: -1 })`, scanning the ids
      below `bound`. */
  function ListMedicines(medicines: map<Id, Medicine>, owner: Id, bound: nat): seq<Medicine>
    requires KeyedById(medicines)
    requires forall k :: k in medicines ==> k < bound
  {
    SortBy(Owned(medicines, owner, bound), NewestCreatedFirst)
  }

  /** The list holds each of the caller's medicines exactly once, as stored,
      and nothing else, newest first. */
  lemma ListMedicinesExact(medicines: map<Id, Medicine>, owner: Id, bound: nat)
    requires KeyedById(medicines)
    requires forall k :: k in medicines ==> k < bound
    ensures var r := ListMedicines(medicines, owner, bound);
      && (forall m :: multiset(r)[m] ==
            if m.id in medicines && medicines[m.id] == m && m.user == owner then 1 else 0)
      && (forall k :: k in medicines && medicines[k].user == owner ==> medicines[k] in r)
      && (forall i :: 0 <= i < |r| ==> r[i].user == owner && r[i].id in medicines && medicines[r[i].id] == r[i])
      && (forall i, j :: 0 <= i < j < |r| ==> r[i].createdAt >= r[j].createdAt)
  {
    var r := ListMedicines(medicines, owner, bound);
    forall m: Medicine ensures multiset(r)[m] ==
      if m.id in medicines && medicines[m.id] == m && m.user == owner then 1 else 0
    {
      OwnedRangeCount(medicines, owner, 0, bound, m);
    }
    forall i | 0 <= i < |r| ensures r[i].user == owner && r[i].id in medicines && medicines[r[i].id] == r[i] {
      assert multiset(r)[r[i]] > 0;
    }
    forall k | k in medicines && medicines[k].user == owner ensures medicines[k] in r {
      assert multiset(r)[medicines[k]] == 1;
    }
    SortBySorted(Owned(medicines, owner, bound), NewestCreatedFirst);
  }

  /** What one user does to their own medicines never changes what another
      user lists: two catalogs that agree on `other`'s medicines list the same. */
  lemma ListIsolated(a: map<Id, Medicine>, b: map<Id, Medicine>, other: Id, bound: nat)
    requires KeyedById(a) && KeyedById(b)
    requires forall k :: k in a ==> k < bound
    requires forall k :: k in b ==> k < bound
    requires forall k :: k in a && a[k].user == other ==> k in b && b[k] == a[k]
    requires forall k :: k in b && b[k].user == other ==> k in a && a[k] == b[k]
    ensures ListMedicines(a, other, bound) == ListMedicines(b, other, bound)
  {
    OwnedRangeFrame(a, b, other, 0, bound);
  }

  // ---------------------------------------------------------------------------
  // POST /, PUT /:id, DELETE /:id

  /** `POST /`: `Medicine.create` with the caller as owner. The document gets a
      fresh id; a document the schema refuses is not stored. */
  method CreateMedicine(db: Database, owner: Id, body: MedicineBody, now: Time) returns (r: Result<Medicine, CatalogError>)
    requires db.Valid()
    modifies db`medicines, db`nextId
    ensures db.Valid()
    ensures db.nextId == old(db.nextId) + 1
    ensures MissingPaths(body) != [] ==> r == Err(Invalid(MissingPaths(body))) && db.medicines == old(db.medicines)
    ensures MissingPaths(body) == [] ==>
      && NewMedicine(body, old(db.nextId), owner, now).Ok?
      && r == Ok(NewMedicine(body, old(db.nextId), owner, now).value)
      && r.value.user == owner
      && r.value.id !in old(db.medicines)
      && db.medicines == old(db.medicines)[r.value.id := r.value]
  {
    var id := db.NewId();
    var created := NewMedicine(body, id, owner, now);
    if created.Err? {
      return Err(Invalid(created.error));
    }
    db.medicines := db.medicines[id := created.value];
    r := Ok(created.value);
  }

  /** `PUT /:id`: `findOneAndUpdate({ _id: id, user: owner }, edit, { new: true })`.
      Changes the one matching document or nothing. */
  method UpdateMedicine(db: Database, owner: Id, id: Id, edit: MedicineEdit) returns (r: Result<Medicine, CatalogError>)
    requires db.Valid()
    modifies db`medicines
    ensures db.Valid()
    ensures FindOwned(old(db.medicines), id, owner).None? ==> r == Err(NotFound) && db.medicines == old(db.medicines)
    ensures FindOwned(old(db.medicines), id, owner).Some? ==>
      && r == Ok(Edited(old(db.medicines)[id], edit))
      && db.medicines == old(db.medicines)[id := r.value]
  {
    var found := FindOwned(db.medicines, id, owner);
    if found.None? {
      return Err(NotFound);
    }
    var medicine := Edited(found.value, edit);
    db.medicines := db.medicines[id := medicine];
    r := Ok(medicine);
  }

  /** `DELETE /:id`: `findOneAndDelete({ _id: id, user: owner })`. Removes the one
      matching document or nothing; recorded sales keep their snapshot lines. */
  method DeleteMedicine(db: Database, owner: Id, id: Id) returns (r: Result<Medicine, CatalogError>)
    requires db.Valid()
    modifies db`medicines
    ensures db.Valid()
    ensures FindOwned(old(db.medicines), id, owner).None? ==> r == Err(NotFound) && db.medicines == old(db.medicines)
    ensures FindOwned(old(db.medicines), id, owner).Some? ==>
      && r == Ok(old(db.medicines)[id])
      && db.medicines == old(db.medicines) - {id}
  {
    var found := FindOwned(db.medicines, id, owner);
    if found.None? {
      return Err(NotFound);
    }
    db.medicines := db.medicines - {id};
    r := Ok(found.value);
  }

  /** An update keeps the medicine with its owner and keeps every other
      user's list as it was. */
  lemma UpdateIsolated(medicines: map<Id, Medicine>, owner: Id, id: Id, edit: MedicineEdit, other: Id, bound: nat)
    requires KeyedById(medicines)
    requires forall k :: k in medicines ==> k < bound
    requires FindOwned(medicines, id, owner).Some? && other != owner
    ensures var after := medicines[id := Edited(medicines[id], edit)];
      && KeyedById(after) && after[id].user == owner
      && ListMedicines(after, other, bound) == ListMedicines(medicines, other, bound)
  {
    var after := medicines[id := Edited(medicines[id], edit)];
    ListIsolated(after, medicines, other, bound);
  }

  /** A deletion removes the medicine from its owner's list and keeps every
      other user's list as it was. */
  lemma DeleteIsolated(medicines: map<Id, Medicine>, owner: Id, id: Id, other: Id, bound: nat)
    requires KeyedById(medicines)
    requires forall k :: k in medicines ==> k < bound
    requires FindOwned(medicines, id, owner).Some? && other != owner
    ensures var after := medicines - {id};
      && KeyedById(after)
      && (forall i :: 0 <= i < |ListMedicines(after, owner, bound)| ==> ListMedicines(after, owner, bound)[i].id != id)
      && ListMedicines(after, other, bound) == ListMedicines(medicines, other, bound)
  {
    var after := medicines - {id};
    ListIsolated(after, medicines, other, bound);
    ListMedicinesExact(after, owner, bound);
  }

  /** A creation adds the new medicine to its owner's list and keeps every
      other user's list as it was. */
  lemma CreateIsolated(medicines: map<Id, Medicine>, m: Medicine, other: Id, bound: nat)
    requires KeyedById(medicines)
    requires forall k :: k in medicines ==> k < bound
    requires m.id !in medicines && m.id < bound && m.user != other
    ensures var after := medicines[m.id := m];
      && KeyedById(after)
      && m in ListMedicines(after, m.user, bound)
      && ListMedicines(after, other, bound) == ListMedicines(medicines, other, bound)
  {
    var after := medicines[m.id := m];
    ListIsolated(after, medicines, other, bound);
    ListMedicinesExact(after, m.user, bound);
  }
}
