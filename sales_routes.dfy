/** The sales routes (medimind-backend/routes/salesRoutes.js): the checkout
    that records a sale, and the caller's sale history.

    The checkout runs in two phases. The validation loop reads each cart line's
    medicine, scoped to the caller, and stops the whole request at the first line
    whose medicine is missing or short of stock; it only reads. The commit loop
    then writes each fetched medicine back with its quantity lowered, and one
    Sale is appended. As in the source, duplicate lines are not merged (each line
    is checked against the stock it read, and the last write for a medicine
    that changes it wins) and line quantities are not checked for sign. Each
    save validates the fetched document again; the first one refused ends the
    request with the earlier writes kept and no sale recorded. */
module SalesRoutes {
  import opened Common
  import opened Seqs
  import opened MedicineModel
  import opened SaleModel
  import opened Store

  /** One line of `req.body.items`. */
  datatype CartItem = CartItem(medicineId: Id, quantity: int)

  /** An entry of `medicinesToUpdate`: the document as fetched and the quantity to take off. */
  datatype Pending = Pending(medicine: Medicine, quantity: int)

  /** What the validation loop has accumulated: `total`, `saleItemsData`, `medicinesToUpdate`. */
  datatype Validated = Validated(total: int, items: seq<SaleItem>, updates: seq<Pending>)

  /** The rejections of the checkout. */
  datatype SaleError =
    | NoItems                                     // 400 "No items in sale"
    | MedicineNotFound                            // 404 "Medicine not found"
    | InsufficientStock(name: string, available: int)  // 400, naming the medicine and its stock
    | SaveRefused                                 // 500: `save()` refused a fetched document

  function Status(e: SaleError): (code: int)
    ensures code == 404 <==> e == MedicineNotFound
    ensures code == 500 <==> e == SaveRefused
    ensures code == 400 || code == 404 || code == 500
  {
    match e
    case NoItems => 400
    case MedicineNotFound => 404
    case InsufficientStock(_, _) => 400
    case SaveRefused => 500
  }

  /** The snapshot line stored in the sale for a line of `quantity` units of `m`. */
  function Snapshot(m: Medicine, quantity: int): SaleItem
  {
    SaleItem(m.id, Some(m.name), quantity, m.price)
  }

  /** How a single cart line fares against the catalog, on its own. */
  function LineError(medicines: map<Id, Medicine>, owner: Id, item: CartItem): Option<SaleError>
  {
    if item.medicineId !in medicines || medicines[item.medicineId].user != owner then Some(MedicineNotFound)
    else if medicines[item.medicineId].quantity < item.quantity then
      Some(InsufficientStock(medicines[item.medicineId].name, medicines[item.medicineId].quantity))
    else None
  }

  /** The validation loop over `items`, as a function of the catalog it reads. */
  function Validate(medicines: map<Id, Medicine>, owner: Id, items: seq<CartItem>): Result<Validated, SaleError>
    decreases |items|
  {
    if items == [] then Ok(Validated(0, [], []))
    else
      var item := items[|items| - 1];
      match Validate(medicines, owner, items[..|items| - 1])
      case Err(e) => Err(e)
      case Ok(v) => Step(medicines, owner, v, item)
  }

  /** One pass of the validation loop: look the line's medicine up for the
      caller, check its stock, and extend the accumulators. */
  function Step(medicines: map<Id, Medicine>, owner: Id, v: Validated, item: CartItem): Result<Validated, SaleError>
  {
    match FindOwned(medicines, item.medicineId, owner)
    case None => Err(MedicineNotFound)
    case Some(m) =>
      if m.quantity < item.quantity then Err(InsufficientStock(m.name, m.quantity))
      else Ok(Validated(v.total + m.price * item.quantity,
                        v.items + [Snapshot(m, item.quantity)],
                        v.updates + [Pending(m, item.quantity)]))
  }

  /** The whole checkout decision: a missing or empty `items` is refused before
      any lookup, otherwise the validation loop decides. */
  function Checkout(medicines: map<Id, Medicine>, owner: Id, items: Option<seq<CartItem>>): Result<Validated, SaleError>
  {
    if items.None? || items.value == [] then Err(NoItems) else Validate(medicines, owner, items.value)
  }

  /** `update.medicine.quantity -= update.quantity; await update.medicine.save()`
      on a document that passes validation. Mongoose sends only the paths that
      changed, and assigning a path the value it already holds changes nothing,
      so a line of zero units writes nothing. */
  function Save(medicines: map<Id, Medicine>, u: Pending): (r: map<Id, Medicine>)
    ensures u.quantity == 0 ==> r == medicines
  {
    var lowered := u.medicine.(quantity := u.medicine.quantity - u.quantity);
    if lowered == u.medicine then medicines else medicines[u.medicine.id := lowered]
  }

  /** How many pending writes the commit loop saves before `save()` refuses a
      document: the index of the first document that fails validation, or all
      of them. */
  function SavedCount(updates: seq<Pending>): (n: nat)
    ensures n <= |updates|
    ensures forall k :: 0 <= k < n ==> Saveable(updates[k].medicine)
    ensures n < |updates| ==> !Saveable(updates[n].medicine)
    decreases |updates|
  {
    if updates == [] || !Saveable(updates[0].medicine) then 0
    else 1 + SavedCount(updates[1..])
  }

  /** The commit loop: the pending writes applied in order. */
  function Commit(medicines: map<Id, Medicine>, updates: seq<Pending>): map<Id, Medicine>
    decreases |updates|
  {
    if updates == [] then medicines
    else Save(Commit(medicines, updates[..|updates| - 1]), updates[|updates| - 1])
  }

  // ---------------------------------------------------------------------------
  // The validation phase

  /** Once a prefix of the cart is refused, the whole cart is refused with the same error. */
  lemma {:induction false} ValidateErrPersists(medicines: map<Id, Medicine>, owner: Id, items: seq<CartItem>, k: nat)
    requires k <= |items|
    requires Validate(medicines, owner, items[..k]).Err?
    ensures Validate(medicines, owner, items) == Validate(medicines, owner, items[..k])
    decreases |items| - k
  {
    if k < |items| {
      var next := items[..k + 1];
      assert next[..|next| - 1] == items[..k];
      ValidateErrPersists(medicines, owner, items, k + 1);
    } else {
      assert items[..k] == items;
    }
  }

  /** The cart is accepted exactly when every line, checked on its own, is acceptable. */
  lemma {:induction false} ValidateAcceptsIff(medicines: map<Id, Medicine>, owner: Id, items: seq<CartItem>)
    ensures Validate(medicines, owner, items).Ok? <==>
      forall k :: 0 <= k < |items| ==> LineError(medicines, owner, items[k]).None?
  {
    if items != [] {
      var init := items[..|items| - 1];
      ValidateAcceptsIff(medicines, owner, init);
      assert forall k :: 0 <= k < |init| ==> init[k] == items[k];
    }
  }

  /** A refusal is the error of the first unacceptable line: every earlier line
      passed, and the refusal names that line's problem (a missing or not-owned
      medicine, or the medicine's name and available stock). */
  lemma {:induction false} ValidateRejectsFirstBadLine(medicines: map<Id, Medicine>, owner: Id, items: seq<CartItem>)
    requires Validate(medicines, owner, items).Err?
    ensures exists k :: (
      && 0 <= k < |items|
      && (forall j :: 0 <= j < k ==> LineError(medicines, owner, items[j]).None?)
      && LineError(medicines, owner, items[k]) == Some(Validate(medicines, owner, items).error))
  {
    var init := items[..|items| - 1];
    assert forall j :: 0 <= j < |init| ==> init[j] == items[j];
    if Validate(medicines, owner, init).Err? {
      ValidateRejectsFirstBadLine(medicines, owner, init);
      var k :| 0 <= k < |init|
        && (forall j :: 0 <= j < k ==> LineError(medicines, owner, init[j]).None?)
        && LineError(medicines, owner, init[k]) == Some(Validate(medicines, owner, init).error);
      assert LineError(medicines, owner, items[k]) == Some(Validate(medicines, owner, items).error);
    } else {
      ValidateAcceptsIff(medicines, owner, init);
      var k := |items| - 1;
      assert LineError(medicines, owner, items[k]) == Some(Validate(medicines, owner, items).error);
    }
  }

  /** On success there is one snapshot line and one pending write per cart line,
      in cart order: the line's medicine as the caller owns it, the requested
      quantity, and the name and price the medicine had when it was read. */
  lemma {:induction false} ValidateSnapshots(medicines: map<Id, Medicine>, owner: Id, items: seq<CartItem>)
    requires KeyedById(medicines)
    requires Validate(medicines, owner, items).Ok?
    ensures var v := Validate(medicines, owner, items).value;
      && |v.items| == |items| && |v.updates| == |items|
      && forall k :: 0 <= k < |items| ==>
           && items[k].medicineId in medicines
           && medicines[items[k].medicineId].user == owner
           && items[k].quantity <= medicines[items[k].medicineId].quantity
           && v.items[k] == SaleItem(items[k].medicineId, Some(medicines[items[k].medicineId].name),
                                     items[k].quantity, medicines[items[k].medicineId].price)
           && v.updates[k] == Pending(medicines[items[k].medicineId], items[k].quantity)
  {
    if items != [] {
      var init := items[..|items| - 1];
      ValidateSnapshots(medicines, owner, init);
      assert forall j :: 0 <= j < |init| ==> init[j] == items[j];
    }
  }

  /** The stored total equals the sum of price times quantity over the snapshot lines. */
  lemma {:induction false} ValidateTotal(medicines: map<Id, Medicine>, owner: Id, items: seq<CartItem>)
    requires Validate(medicines, owner, items).Ok?
    ensures Validate(medicines, owner, items).value.total == ItemsTotal(Validate(medicines, owner, items).value.items)
  {
    if items != [] {
      var init := items[..|items| - 1];
      ValidateTotal(medicines, owner, init);
      var v := Validate(medicines, owner, init).value;
      var m := medicines[items[|items| - 1].medicineId];
      SumOfAppend(v.items, Snapshot(m, items[|items| - 1].quantity), LineAmount);
    }
  }

  // ---------------------------------------------------------------------------
  // The commit phase

  /** `m` with its stock lowered by `taken`, when there is something taken. */
  function Lowered(m: Medicine, taken: Option<int>): Medicine
  {
    match taken
    case None => m
    case Some(q) => m.(quantity := m.quantity - q)
  }

  /** The quantity of the last pending write for medicine `id` that changes
      it (a non-zero quantity), if there is one. */
  function LastPending(updates: seq<Pending>, id: Id): Option<int>
    decreases |updates|
  {
    if updates == [] then None
    else if updates[|updates| - 1].medicine.id == id && updates[|updates| - 1].quantity != 0 then
      Some(updates[|updates| - 1].quantity)
    else LastPending(updates[..|updates| - 1], id)
  }

  /** The quantity of the last cart line naming medicine `id` with a non-zero
      quantity, if there is one. */
  function LastRequested(items: seq<CartItem>, id: Id): (r: Option<int>)
    ensures r.None? <==> forall k :: 0 <= k < |items| ==> items[k].medicineId != id || items[k].quantity == 0
    ensures r.Some? ==> r.value != 0
    decreases |items|
  {
    if items == [] then None
    else if items[|items| - 1].medicineId == id && items[|items| - 1].quantity != 0 then
      Some(items[|items| - 1].quantity)
    else LastRequested(items[..|items| - 1], id)
  }

  /** When every pending write carries the stored document, each medicine ends
      with its stored quantity minus the quantity of the LAST write for it that
      changes it (earlier writes for the same medicine are overwritten, and a
      zero write is never sent); the others are untouched, and no medicine is
      added or removed. */
  lemma {:induction false} CommitLastWriteWins(medicines: map<Id, Medicine>, updates: seq<Pending>)
    requires forall k :: 0 <= k < |updates| ==>
      updates[k].medicine.id in medicines && medicines[updates[k].medicine.id] == updates[k].medicine
    ensures Commit(medicines, updates).Keys == medicines.Keys
    ensures forall id :: id in medicines ==>
      Commit(medicines, updates)[id] == Lowered(medicines[id], LastPending(updates, id))
  {
    if updates != [] {
      var init := updates[..|updates| - 1];
      assert forall k :: 0 <= k < |init| ==> init[k] == updates[k];
      CommitLastWriteWins(medicines, init);
    }
  }

  /** The pending writes name the cart's medicines line by line. */
  lemma {:induction false} LastPendingIsLastRequested(medicines: map<Id, Medicine>, items: seq<CartItem>,
                                                      updates: seq<Pending>, id: Id)
    requires KeyedById(medicines)
    requires |updates| == |items|
    requires forall k :: 0 <= k < |items| ==>
      items[k].medicineId in medicines && updates[k] == Pending(medicines[items[k].medicineId], items[k].quantity)
    ensures LastPending(updates, id) == LastRequested(items, id)
  {
    if items != [] {
      var n := |items| - 1;
      assert updates[n].medicine.id == items[n].medicineId;
      LastPendingIsLastRequested(medicines, items[..n], updates[..n], id);
    }
  }

  /** After a successful checkout whose saves all pass, each medicine named in
      the cart by a non-zero line holds its old stock minus the quantity of the
      last such line; every other medicine, and every other field, is unchanged. */
  lemma CheckoutStock(medicines: map<Id, Medicine>, owner: Id, items: Option<seq<CartItem>>)
    requires KeyedById(medicines)
    requires Checkout(medicines, owner, items).Ok?
    ensures var after := Commit(medicines, Checkout(medicines, owner, items).value.updates);
      && after.Keys == medicines.Keys
      && forall id :: id in medicines ==> after[id] == Lowered(medicines[id], LastRequested(items.value, id))
  {
    var v := Checkout(medicines, owner, items).value;
    ValidateSnapshots(medicines, owner, items.value);
    CommitLastWriteWins(medicines, v.updates);
    forall id | id in medicines ensures LastPending(v.updates, id) == LastRequested(items.value, id) {
      LastPendingIsLastRequested(medicines, items.value, v.updates, id);
    }
  }

  predicate DistinctMedicines(items: seq<CartItem>)
  {
    forall i, j :: 0 <= i < j < |items| ==> items[i].medicineId != items[j].medicineId
  }

  lemma {:induction false} LastRequestedDistinct(items: seq<CartItem>, k: nat)
    requires DistinctMedicines(items) && k < |items|
    ensures LastRequested(items, items[k].medicineId) ==
      if items[k].quantity == 0 then None else Some(items[k].quantity)
  {
    if k < |items| - 1 {
      LastRequestedDistinct(items[..|items| - 1], k);
    }
  }

  /** With no medicine named twice, a successful checkout lowers each named
      medicine's stock by exactly its line's quantity and leaves every medicine
      the cart does not name unchanged. */
  lemma CheckoutDecrementsEachLine(medicines: map<Id, Medicine>, owner: Id, items: seq<CartItem>)
    requires KeyedById(medicines)
    requires DistinctMedicines(items)
    requires Checkout(medicines, owner, Some(items)).Ok?
    ensures var after := Commit(medicines, Checkout(medicines, owner, Some(items)).value.updates);
      && after.Keys == medicines.Keys
      && (forall k :: 0 <= k < |items| ==> items[k].medicineId in medicines)
      && (forall k :: 0 <= k < |items| ==>
            after[items[k].medicineId].quantity == medicines[items[k].medicineId].quantity - items[k].quantity)
      && (forall id :: id in medicines && (forall k :: 0 <= k < |items| ==> items[k].medicineId != id) ==>
            after[id] == medicines[id])
  {
    CheckoutStock(medicines, owner, Some(items));
    ValidateSnapshots(medicines, owner, items);
    forall k | 0 <= k < |items| ensures
      LastRequested(items, items[k].medicineId) == if items[k].quantity == 0 then None else Some(items[k].quantity)
    {
      LastRequestedDistinct(items, k);
    }
  }

  /** A successful checkout never leaves a medicine it touched with negative
      stock, even with duplicate lines or non-positive quantities: each write is
      the stock that was read minus a line quantity checked against it. So a
      catalog without negative stock keeps none. */
  lemma CheckoutStockNonNegative(medicines: map<Id, Medicine>, owner: Id, items: Option<seq<CartItem>>)
    requires KeyedById(medicines)
    requires Checkout(medicines, owner, items).Ok?
    ensures items.Some?
    ensures var after := Commit(medicines, Checkout(medicines, owner, items).value.updates);
      && after.Keys == medicines.Keys
      && (forall k :: 0 <= k < |items.value| ==> items.value[k].medicineId in medicines)
      && (forall k :: 0 <= k < |items.value| ==> after[items.value[k].medicineId].quantity >= 0)
      && ((forall id :: id in medicines ==> medicines[id].quantity >= 0) ==>
            forall id :: id in after ==> after[id].quantity >= 0)
  {
    CheckoutStock(medicines, owner, items);
    ValidateSnapshots(medicines, owner, items.value);
    var after := Commit(medicines, Checkout(medicines, owner, items).value.updates);
    forall id | id in medicines && LastRequested(items.value, id).Some?
      ensures after[id].quantity >= 0
    {
      LastRequestedAt(items.value, id);
    }
    forall k | 0 <= k < |items.value| ensures after[items.value[k].medicineId].quantity >= 0 {
      var id := items.value[k].medicineId;
      if LastRequested(items.value, id).None? {
        assert items.value[k].quantity == 0;
      }
    }
  }

  /** The index of the last cart line naming `id` with a non-zero quantity. */
  function LastRequestedIndex(items: seq<CartItem>, id: Id): nat
    requires LastRequested(items, id).Some?
    decreases |items|
  {
    if items[|items| - 1].medicineId == id && items[|items| - 1].quantity != 0 then |items| - 1
    else LastRequestedIndex(items[..|items| - 1], id)
  }

  lemma {:induction false} LastRequestedAt(items: seq<CartItem>, id: Id)
    requires LastRequested(items, id).Some?
    ensures var k := LastRequestedIndex(items, id);
      k < |items| && items[k].medicineId == id && items[k].quantity == LastRequested(items, id).value
  {
    if items[|items| - 1].medicineId != id || items[|items| - 1].quantity == 0 {
      LastRequestedAt(items[..|items| - 1], id);
    }
  }

  /** Two units of a medicine priced 1050 paise with 5 in stock: the sale totals
      2100 paise and 3 remain. */
  lemma TwoUnitsExample(a: Medicine, owner: Id)
    requires a.user == owner && a.price == 1050 && a.quantity == 5
    ensures var catalog := map[a.id := a];
      var c := Checkout(catalog, owner, Some([CartItem(a.id, 2)]));
      && c.Ok? && c.value.total == 2100
      && c.value.items == [SaleItem(a.id, Some(a.name), 2, 1050)]
      && Commit(catalog, c.value.updates)[a.id].quantity == 3
  {
    var catalog := map[a.id := a];
    var items := [CartItem(a.id, 2)];
    assert items[..|items| - 1] == [];
    assert FindOwned(catalog, a.id, owner) == Some(a);
    var updates := [Pending(a, 2)];
    assert Validate(catalog, owner, []) == Ok(Validated(0, [], []));
    assert [] + [Snapshot(a, 2)] == [Snapshot(a, 2)];
    assert [] + updates == updates;
    assert Step(catalog, owner, Validated(0, [], []), items[0]) == Ok(Validated(2100, [Snapshot(a, 2)], updates));
    assert Validate(catalog, owner, items) == Ok(Validated(2100, [Snapshot(a, 2)], updates));
    assert updates[..|updates| - 1] == [];
    assert Commit(catalog, updates) == Save(catalog, updates[0]);
  }

  /** Duplicate lines are not added up: two lines of 4 against a stock of 5 are
      both accepted, 8 units are billed, and the stock only drops to 1 because
      the second write overwrites the first. */
  lemma DuplicateLinesOversell(a: Medicine, owner: Id)
    requires a.user == owner && a.quantity == 5
    ensures var catalog := map[a.id := a];
      var c := Checkout(catalog, owner, Some([CartItem(a.id, 4), CartItem(a.id, 4)]));
      && c.Ok? && c.value.total == 8 * a.price
      && Commit(catalog, c.value.updates)[a.id].quantity == 1
  {
    var catalog := map[a.id := a];
    var items := [CartItem(a.id, 4), CartItem(a.id, 4)];
    var first := items[..|items| - 1];
    assert first == [CartItem(a.id, 4)];
    assert first[..|first| - 1] == [];
    assert FindOwned(catalog, a.id, owner) == Some(a);
    var once := [Pending(a, 4)];
    var updates := [Pending(a, 4), Pending(a, 4)];
    assert Validate(catalog, owner, []) == Ok(Validated(0, [], []));
    assert [] + [Snapshot(a, 4)] == [Snapshot(a, 4)];
    assert [] + once == once;
    assert Step(catalog, owner, Validated(0, [], []), first[0]) == Ok(Validated(a.price * 4, [Snapshot(a, 4)], once));
    assert Validate(catalog, owner, first) == Ok(Validated(a.price * 4, [Snapshot(a, 4)], once));
    assert [Snapshot(a, 4)] + [Snapshot(a, 4)] == [Snapshot(a, 4), Snapshot(a, 4)];
    assert once + once == updates;
    assert Step(catalog, owner, Validated(a.price * 4, [Snapshot(a, 4)], once), items[1]) ==
      Ok(Validated(a.price * 4 + a.price * 4, [Snapshot(a, 4), Snapshot(a, 4)], updates));
    assert Validate(catalog, owner, items) ==
      Ok(Validated(a.price * 4 + a.price * 4, [Snapshot(a, 4), Snapshot(a, 4)], updates));
    assert updates[..|updates| - 1] == once;
    assert once[..|once| - 1] == [];
    assert Commit(catalog, once) == Save(catalog, once[0]);
    assert Commit(catalog, updates) == Save(Commit(catalog, once), updates[1]);
  }

  /** A zero line does not undo an earlier line for the same medicine: after
      lines of 4 and 0 against a stock of 5 the stock is 1, because the second
      document's quantity is unchanged and its save writes nothing. */
  lemma ZeroLineKeepsEarlierWrite(a: Medicine, owner: Id)
    requires a.user == owner && a.quantity == 5
    ensures var catalog := map[a.id := a];
      var c := Checkout(catalog, owner, Some([CartItem(a.id, 4), CartItem(a.id, 0)]));
      && c.Ok? && c.value.total == 4 * a.price
      && a.id in Commit(catalog, c.value.updates)
      && Commit(catalog, c.value.updates)[a.id].quantity == 1
  {
    var catalog := map[a.id := a];
    var items := [CartItem(a.id, 4), CartItem(a.id, 0)];
    var first := items[..|items| - 1];
    assert first == [CartItem(a.id, 4)];
    assert first[..|first| - 1] == [];
    assert FindOwned(catalog, a.id, owner) == Some(a);
    var once := [Pending(a, 4)];
    var updates := [Pending(a, 4), Pending(a, 0)];
    assert Validate(catalog, owner, []) == Ok(Validated(0, [], []));
    assert [] + [Snapshot(a, 4)] == [Snapshot(a, 4)];
    assert [] + once == once;
    assert Step(catalog, owner, Validated(0, [], []), first[0]) == Ok(Validated(a.price * 4, [Snapshot(a, 4)], once));
    assert Validate(catalog, owner, first) == Ok(Validated(a.price * 4, [Snapshot(a, 4)], once));
    assert [Snapshot(a, 4)] + [Snapshot(a, 0)] == [Snapshot(a, 4), Snapshot(a, 0)];
    assert once + [Pending(a, 0)] == updates;
    assert Step(catalog, owner, Validated(a.price * 4, [Snapshot(a, 4)], once), items[1]) ==
      Ok(Validated(a.price * 4 + a.price * 0, [Snapshot(a, 4), Snapshot(a, 0)], updates));
    assert Validate(catalog, owner, items) ==
      Ok(Validated(a.price * 4 + a.price * 0, [Snapshot(a, 4), Snapshot(a, 0)], updates));
    assert updates[..|updates| - 1] == once;
    assert once[..|once| - 1] == [];
    assert Commit(catalog, once) == Save(catalog, once[0]);
    assert Commit(catalog, updates) == Save(Commit(catalog, once), updates[1]);
  }

  /** Line quantities are not checked for sign: a line of -3 against an empty
      stock is accepted, bills a negative amount and raises the stock to 3. */
  lemma NegativeQuantityRestocks(a: Medicine, owner: Id)
    requires a.user == owner && a.quantity == 0
    ensures var catalog := map[a.id := a];
      var c := Checkout(catalog, owner, Some([CartItem(a.id, -3)]));
      && c.Ok? && c.value.total == -3 * a.price
      && Commit(catalog, c.value.updates)[a.id].quantity == 3
  {
    var catalog := map[a.id := a];
    var items := [CartItem(a.id, -3)];
    assert items[..|items| - 1] == [];
    assert FindOwned(catalog, a.id, owner) == Some(a);
    var updates := [Pending(a, -3)];
    assert Validate(catalog, owner, []) == Ok(Validated(0, [], []));
    assert [] + [Snapshot(a, -3)] == [Snapshot(a, -3)];
    assert [] + updates == updates;
    assert Step(catalog, owner, Validated(0, [], []), items[0]) == Ok(Validated(a.price * -3, [Snapshot(a, -3)], updates));
    assert Validate(catalog, owner, items) == Ok(Validated(a.price * -3, [Snapshot(a, -3)], updates));
    assert updates[..|updates| - 1] == [];
    assert Commit(catalog, updates) == Save(catalog, updates[0]);
  }

  /** After an accepted validation, the commit loop saves the lines in cart
      order up to the first line whose medicine, as stored, fails validation:
      every line before it has a valid document, and the sale is recorded
      exactly when every line's document is valid. */
  lemma CheckoutSaves(medicines: map<Id, Medicine>, owner: Id, items: Option<seq<CartItem>>)
    requires KeyedById(medicines)
    requires Checkout(medicines, owner, items).Ok?
    ensures items.Some?
    ensures var n := SavedCount(Checkout(medicines, owner, items).value.updates);
      && n <= |items.value|
      && (forall k :: 0 <= k < |items.value| ==> items.value[k].medicineId in medicines)
      && (forall k :: 0 <= k < n ==> Saveable(medicines[items.value[k].medicineId]))
      && (n < |items.value| ==> !Saveable(medicines[items.value[n].medicineId]))
      && (n == |items.value| <==> forall k :: 0 <= k < |items.value| ==> Saveable(medicines[items.value[k].medicineId]))
  {
    ValidateSnapshots(medicines, owner, items.value);
  }

  /** A catalog line whose medicine was blanked by an update (its name set to
      "") passes the validation loop, which only reads, but its save is refused:
      with lines of 2 units of `a` and 1 of `b`, `a` has already lost 2 units
      when the request fails. */
  lemma BlankedMedicineHalfCommits(a: Medicine, b: Medicine, owner: Id)
    requires a.id != b.id && a.user == owner && b.user == owner
    requires a.quantity == 5 && Saveable(a) && b.quantity == 5 && b.name == ""
    ensures var catalog := map[a.id := a, b.id := b];
      var c := Checkout(catalog, owner, Some([CartItem(a.id, 2), CartItem(b.id, 1)]));
      && c.Ok? && SavedCount(c.value.updates) == 1
      && Commit(catalog, c.value.updates[..1]) == catalog[a.id := a.(quantity := 3)]
  {
    var catalog := map[a.id := a, b.id := b];
    var items := [CartItem(a.id, 2), CartItem(b.id, 1)];
    var first := items[..|items| - 1];
    assert first == [CartItem(a.id, 2)];
    assert first[..|first| - 1] == [];
    assert FindOwned(catalog, a.id, owner) == Some(a);
    assert FindOwned(catalog, b.id, owner) == Some(b);
    var once := [Pending(a, 2)];
    var updates := [Pending(a, 2), Pending(b, 1)];
    assert Validate(catalog, owner, []) == Ok(Validated(0, [], []));
    assert [] + [Snapshot(a, 2)] == [Snapshot(a, 2)];
    assert [] + once == once;
    assert Step(catalog, owner, Validated(0, [], []), first[0]) == Ok(Validated(a.price * 2, [Snapshot(a, 2)], once));
    assert Validate(catalog, owner, first) == Ok(Validated(a.price * 2, [Snapshot(a, 2)], once));
    assert once + [Pending(b, 1)] == updates;
    assert Validate(catalog, owner, items).value.updates == updates;
    assert updates[1..][1..] == [];
    assert updates[..1] == once;
    assert once[..|once| - 1] == [];
    assert Commit(catalog, once) == Save(catalog, once[0]);
  }

  // ---------------------------------------------------------------------------
  // The route

  lemma ValidateExtend(medicines: map<Id, Medicine>, owner: Id, items: seq<CartItem>, i: nat)
    requires i < |items|
    ensures Validate(medicines, owner, items[..i]).Err? ==>
      Validate(medicines, owner, items[..i + 1]) == Validate(medicines, owner, items[..i])
    ensures Validate(medicines, owner, items[..i]).Ok? ==>
      Validate(medicines, owner, items[..i + 1]) == Step(medicines, owner, Validate(medicines, owner, items[..i]).value, items[i])
  {
    assert items[..i + 1][..i] == items[..i];
  }

  /** Phase 1 of `POST /sales`: walks the cart in order, reading each line's
      medicine for the caller, and stops at the first line that fails. Reads only. */
  method ValidateCart(db: Database, owner: Id, cart: seq<CartItem>) returns (r: Result<Validated, SaleError>)
    ensures r == Validate(db.medicines, owner, cart)
  {
    var total := 0;
    var saleItemsData: seq<SaleItem> := [];
    var medicinesToUpdate: seq<Pending> := [];
    var i := 0;
    while i < |cart|
      invariant 0 <= i <= |cart|
      invariant Validate(db.medicines, owner, cart[..i]) == Ok(Validated(total, saleItemsData, medicinesToUpdate))
    {
      var item := cart[i];
      ValidateExtend(db.medicines, owner, cart, i);
      var found := FindOwned(db.medicines, item.medicineId, owner);
      if found.None? {
        ValidateErrPersists(db.medicines, owner, cart, i + 1);
        return Err(MedicineNotFound);
      }
      var medicine := found.value;
      if medicine.quantity < item.quantity {
        ValidateErrPersists(db.medicines, owner, cart, i + 1);
        return Err(InsufficientStock(medicine.name, medicine.quantity));
      }
      total := total + medicine.price * item.quantity;
      saleItemsData := saleItemsData + [Snapshot(medicine, item.quantity)];
      medicinesToUpdate := medicinesToUpdate + [Pending(medicine, item.quantity)];
      i := i + 1;
    }
    assert cart[..i] == cart;
    r := Ok(Validated(total, saleItemsData, medicinesToUpdate));
  }

  /** One more pass of the commit loop saves one more pending write. */
  lemma CommitExtend(medicines: map<Id, Medicine>, updates: seq<Pending>, j: nat)
    requires j < |updates|
    ensures Commit(medicines, updates[..j + 1]) == Save(Commit(medicines, updates[..j]), updates[j])
  {
    assert updates[..j + 1][..j] == updates[..j];
  }

  /** The commit loop stops at `j` exactly when every earlier document passed
      validation and the one at `j`, if any, does not. */
  lemma SavedCountAt(updates: seq<Pending>, j: nat)
    requires j <= |updates|
    requires forall k :: 0 <= k < j ==> Saveable(updates[k].medicine)
    requires j < |updates| ==> !Saveable(updates[j].medicine)
    ensures SavedCount(updates) == j
  {
  }

  /** Saving a document of the catalog keeps the catalog's ids and keeps every
      entry under its own id. */
  lemma SaveKeepsKeys(medicines: map<Id, Medicine>, u: Pending)
    requires KeyedById(medicines) && u.medicine.id in medicines
    ensures Save(medicines, u).Keys == medicines.Keys && KeyedById(Save(medicines, u))
  {
  }

  /** Phase 2 of `POST /sales`: writes each fetched document back with its
      quantity lowered, in order, until `save()` refuses a document; returns how
      many were saved. A document whose quantity did not change is validated but
      not written. */
  method ApplyUpdates(db: Database, updates: seq<Pending>) returns (saved: nat)
    requires db.Valid()
    requires forall k :: 0 <= k < |updates| ==> updates[k].medicine.id in db.medicines
    modifies db`medicines
    ensures db.Valid()
    ensures saved == SavedCount(updates)
    ensures db.medicines == Commit(old(db.medicines), updates[..saved])
  {
    var j := 0;
    while j < |updates|
      invariant 0 <= j <= |updates|
      invariant forall k :: 0 <= k < j ==> Saveable(updates[k].medicine)
      invariant db.medicines == Commit(old(db.medicines), updates[..j])
      invariant db.medicines.Keys == old(db.medicines).Keys
      invariant db.Valid()
    {
      var update := updates[j];
      if !Saveable(update.medicine) {
        SavedCountAt(updates, j);
        return j;
      }
      CommitExtend(old(db.medicines), updates, j);
      SaveKeepsKeys(db.medicines, update);
      db.medicines := Save(db.medicines, update);
      j := j + 1;
    }
    SavedCountAt(updates, j);
    assert updates[..j] == updates;
    return j;
  }

  /** `POST /sales`: records a sale for `owner`, or refuses it. A refusal in the
      validation loop touches neither the catalog nor the ledger; a document
      refused by `save()` leaves the writes made before it and records no sale. */
  method RecordSale(db: Database, owner: Id, items: Option<seq<CartItem>>, now: Time) returns (r: Result<Sale, SaleError>)
    requires db.Valid()
    modifies db
    ensures db.Valid()
    ensures db.reports == old(db.reports)
    ensures match Checkout(old(db.medicines), owner, items)
      case Err(e) =>
        && r == Err(e)
        && db.medicines == old(db.medicines) && db.sales == old(db.sales) && db.nextId == old(db.nextId)
      case Ok(v) =>
        && db.medicines == Commit(old(db.medicines), v.updates[..SavedCount(v.updates)])
        && if SavedCount(v.updates) < |v.updates| then
             && r == Err(SaveRefused)
             && db.sales == old(db.sales) && db.nextId == old(db.nextId)
           else
             && r == Ok(Sale(old(db.nextId), v.items, v.total, owner, now))
             && db.sales == old(db.sales) + [r.value]
             && db.nextId == old(db.nextId) + 1
  {
    if items.None? || |items.value| == 0 {
      return Err(NoItems);
    }
    var checked := ValidateCart(db, owner, items.value);
    if checked.Err? {
      return Err(checked.error);
    }
    var v := checked.value;
    ValidateSnapshots(db.medicines, owner, items.value);
    var saved := ApplyUpdates(db, v.updates);
    if saved < |v.updates| {
      return Err(SaveRefused);
    }
    var id := db.NewId();
    var sale := Sale(id, v.items, v.total, owner, now);
    db.sales := db.sales + [sale];
    r := Ok(sale);
  }

  // ---------------------------------------------------------------------------
  // The history

  function OwnedBy(owner: Id): Sale -> bool
  {
    (s: Sale) => s.user == owner
  }

  const NewestFirst: (Sale, Sale) -> bool := (a: Sale, b: Sale) => a.date >= b.date

  /** `GET /sales`: `Sale.find({ user: owner }).sort({ date: -1 })`. */
  function ListSales(sales: seq<Sale>, owner: Id): seq<Sale>
  {
    SortBy(Filter(sales, OwnedBy(owner)), NewestFirst)
  }

  /** The history holds exactly the caller's sales, each as often as it is
      stored, latest first. */
  lemma ListSalesExact(sales: seq<Sale>, owner: Id)
    ensures var r := ListSales(sales, owner);
      && (forall s :: s in r <==> s in sales && s.user == owner)
      && (forall s :: multiset(r)[s] == if s.user == owner then multiset(sales)[s] else 0)
      && (forall i, j :: 0 <= i < j < |r| ==> r[i].date >= r[j].date)
  {
    var mine := Filter(sales, OwnedBy(owner));
    var r := ListSales(sales, owner);
    forall s: Sale ensures multiset(r)[s] == if s.user == owner then multiset(sales)[s] else 0 {
      FilterMultiset(sales, OwnedBy(owner), s);
    }
    forall s: Sale ensures s in r <==> s in sales && s.user == owner {
      assert s in r <==> multiset(r)[s] > 0;
      assert s in sales <==> multiset(sales)[s] > 0;
    }
    SortBySorted(mine, NewestFirst);
  }
}
