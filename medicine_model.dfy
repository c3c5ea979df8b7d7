/** The Medicine document of the catalog (medimind-backend/models/Medicine.js)
    and the schema validation a create request passes through. */
module MedicineModel {
  import opened Common

  /** A stored medicine. Prices are in paise. The schema puts no lower bound
      on `price` or `quantity`, so both are plain integers. */
  datatype Medicine = Medicine(
    id: Id,
    name: string,
    description: Option<string>,
    category: string,
    price: int,
    quantity: int,
    expiryDate: Time,
    supplier: Option<string>,
    user: Id,
    createdAt: Time)

  /** The fields of a create request as they arrive: any of them may be absent
      (`price`, `quantity` and `expiryDate` are absent too when they do not parse). */
  datatype MedicineBody = MedicineBody(
    name: Option<string>,
    description: Option<string>,
    category: Option<string>,
    price: Option<int>,
    quantity: Option<int>,
    expiryDate: Option<Time>,
    supplier: Option<string>)

  /** A required string path is satisfied by a present, non-empty string. */
  predicate PresentText(s: Option<string>)
  {
    s.Some? && s.value != ""
  }

  /** The required paths of the schema that `body` leaves unset, in schema order. */
  function MissingPaths(body: MedicineBody): (r: seq<string>)
    ensures r == [] <==>
      PresentText(body.name) && PresentText(body.category) &&
      body.price.Some? && body.quantity.Some? && body.expiryDate.Some?
    ensures "name" in r <==> !PresentText(body.name)
    ensures "price" in r <==> body.price.None?
  {
    (if PresentText(body.name) then [] else ["name"]) +
    (if PresentText(body.category) then [] else ["category"]) +
    (if body.price.Some? then [] else ["price"]) +
    (if body.quantity.Some? then [] else ["quantity"]) +
    (if body.expiryDate.Some? then [] else ["expiryDate"])
  }

  /** Builds the document `Medicine.create` saves, owned by `user`, with
      `createdAt` defaulted to `now`; fails with the missing paths when a
      required path is unset. */
  function NewMedicine(body: MedicineBody, id: Id, user: Id, now: Time): (r: Result<Medicine, seq<string>>)
    ensures r.Ok? <==> MissingPaths(body) == []
    ensures r.Err? ==> r.error == MissingPaths(body) && r.error != []
    ensures r.Ok? ==> Saveable(r.value)
    ensures r.Ok? ==>
      && r.value.id == id && r.value.user == user && r.value.createdAt == now
      && body.name == Some(r.value.name) && body.category == Some(r.value.category)
      && body.price == Some(r.value.price) && body.quantity == Some(r.value.quantity)
      && body.expiryDate == Some(r.value.expiryDate)
      && r.value.description == body.description && r.value.supplier == body.supplier
  {
    var missing := MissingPaths(body);
    if missing != [] then Err(missing)
    else Ok(Medicine(id, body.name.value, body.description, body.category.value,
                     body.price.value, body.quantity.value, body.expiryDate.value,
                     body.supplier, user, now))
  }

  /** Whether a stored document passes the schema's required validators when
      `save()` validates it again: its required strings are non-empty (the other
      required paths always hold a value in this model). An update through
      `findOneAndUpdate` runs no validators, so it can store a document that
      fails this. */
  predicate Saveable(m: Medicine)
  {
    m.name != "" && m.category != ""
  }
}
