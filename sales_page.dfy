/** The point-of-sale page (medimind-frontend/src/pages/Sales.js): a cart of
    lines built from the fetched medicine list, merged by medicine, and posted
    to the checkout route. */
module SalesPage {
  import opened Common
  import opened Seqs
  import opened Text
  import opened MedicineModel
  import opened SaleModel
  import opened Store
  import opened SalesRoutes

  /** A cart line: the medicine, its name and price as listed when it was
      first added, and the quantity. */
  datatype CartLine = CartLine(medicineId: Id, name: string, price: int, quantity: int)

  /** The modal the page shows. */
  datatype Notice =
    | StockNotice(available: int, name: string)   // "Insufficient Stock"
    | SaleRecorded                                // "Success"
    | SaleFailed                                  // "Error"

  /** `medicines.find(m => m.id === id)`: the first listed medicine with that id. */
  function FindMedicine(medicines: seq<Medicine>, id: Id): (r: Option<Medicine>)
    ensures r.None? <==> forall i :: 0 <= i < |medicines| ==> medicines[i].id != id
    ensures r.Some? ==> r.value in medicines && r.value.id == id
  {
    if medicines == [] then None
    else if medicines[0].id == id then Some(medicines[0])
    else
      assert forall i :: 1 <= i < |medicines| ==> medicines[i] == medicines[1..][i - 1];
      FindMedicine(medicines[1..], id)
  }

  /** The medicines whose name contains the search term, ignoring case, in list order. */
  function SearchResults(medicines: seq<Medicine>, term: string): (r: seq<Medicine>)
    ensures forall i :: 0 <= i < |r| ==> r[i] in medicines && MatchesSearch(r[i].name, term)
    ensures forall i :: 0 <= i < |medicines| && MatchesSearch(medicines[i].name, term) ==> medicines[i] in r
  {
    Filter(medicines, (m: Medicine) => MatchesSearch(m.name, term))
  }

  // ---------------------------------------------------------------------------
  // The cart

  predicate HasLine(cart: seq<CartLine>, id: Id)
  {
    exists i :: 0 <= i < |cart| && cart[i].medicineId == id
  }

  /** No medicine has two lines. */
  predicate DistinctLines(cart: seq<CartLine>)
  {
    forall i, j :: 0 <= i < j < |cart| ==> cart[i].medicineId != cart[j].medicineId
  }

  /** `cart.map(...)` raising the quantity of the lines for medicine `id` by `q`. */
  function MergeInto(cart: seq<CartLine>, id: Id, q: int): (r: seq<CartLine>)
    ensures |r| == |cart|
    ensures forall i :: 0 <= i < |cart| ==>
      r[i] == if cart[i].medicineId == id then cart[i].(quantity := cart[i].quantity + q) else cart[i]
  {
    if cart == [] then []
    else [if cart[0].medicineId == id then cart[0].(quantity := cart[0].quantity + q) else cart[0]]
         + MergeInto(cart[1..], id, q)
  }

  /** The cart after adding `q` units of `m`: merged into its line when it has
      one, otherwise a new line at the end. */
  function AddLine(cart: seq<CartLine>, m: Medicine, q: int): seq<CartLine>
  {
    if HasLine(cart, m.id) then MergeInto(cart, m.id, q) else cart + [CartLine(m.id, m.name, m.price, q)]
  }

  /** Adding a medicine the cart already holds grows that line only: the length
      stays, the line keeps its place, name and price, and every other line is
      unchanged. */
  lemma AddLineMerges(cart: seq<CartLine>, m: Medicine, q: int)
    requires HasLine(cart, m.id)
    ensures var r := AddLine(cart, m, q);
      && |r| == |cart|
      && (forall i :: 0 <= i < |cart| && cart[i].medicineId == m.id ==>
            r[i] == CartLine(m.id, cart[i].name, cart[i].price, cart[i].quantity + q))
      && (forall i :: 0 <= i < |cart| && cart[i].medicineId != m.id ==> r[i] == cart[i])
  {
  }

  /** Adding a medicine the cart does not hold appends one line with its id,
      name, price and the quantity. */
  lemma AddLineAppends(cart: seq<CartLine>, m: Medicine, q: int)
    requires !HasLine(cart, m.id)
    ensures AddLine(cart, m, q) == cart + [CartLine(m.id, m.name, m.price, q)]
  {
  }

  /** Adding keeps the cart free of duplicate medicines, and the medicine is in it afterwards. */
  lemma AddLineKeepsDistinct(cart: seq<CartLine>, m: Medicine, q: int)
    requires DistinctLines(cart)
    ensures DistinctLines(AddLine(cart, m, q)) && HasLine(AddLine(cart, m, q), m.id)
  {
    var r := AddLine(cart, m, q);
    if HasLine(cart, m.id) {
      var k :| 0 <= k < |cart| && cart[k].medicineId == m.id;
      assert r[k].medicineId == m.id;
    } else {
      assert r[|cart|].medicineId == m.id;
    }
  }

  /** The stock check looks only at the quantity being added: with 4 units in
      the cart and 5 in stock, adding 4 more passes the check and leaves a line
      of 8. */
  lemma MergedLineCanExceedStock(m: Medicine)
    requires m.quantity == 5
    ensures var cart := [CartLine(m.id, m.name, m.price, 4)];
      && !(m.quantity < 4)
      && AddLine(cart, m, 4) == [CartLine(m.id, m.name, m.price, 8)]
      && AddLine(cart, m, 4)[0].quantity > m.quantity
  {
    var cart := [CartLine(m.id, m.name, m.price, 4)];
    assert cart[0].medicineId == m.id;
    assert HasLine(cart, m.id);
  }

  function NotFor(id: Id): CartLine -> bool
  {
    (l: CartLine) => l.medicineId != id
  }

  /** `cart.filter(item => item.medicineId !== id)`. */
  function RemoveLine(cart: seq<CartLine>, id: Id): seq<CartLine>
  {
    Filter(cart, NotFor(id))
  }

  /** Removing drops exactly the lines of that medicine and keeps the others,
      each as often as before, in their order. */
  lemma RemoveLineSpec(cart: seq<CartLine>, id: Id)
    ensures var r := RemoveLine(cart, id);
      && !HasLine(r, id)
      && IsSubseq(r, cart)
      && (forall l :: multiset(r)[l] == if l.medicineId == id then 0 else multiset(cart)[l])
  {
    var r := RemoveLine(cart, id);
    FilterIsSubseq(cart, NotFor(id));
    forall l: CartLine ensures multiset(r)[l] == if l.medicineId == id then 0 else multiset(cart)[l] {
      FilterMultiset(cart, NotFor(id), l);
    }
  }

  /** A cart without duplicates stays so when lines are removed. */
  lemma {:induction false} RemoveLineKeepsDistinct(cart: seq<CartLine>, id: Id)
    requires DistinctLines(cart)
    ensures DistinctLines(RemoveLine(cart, id))
  {
    if cart != [] {
      var rest := cart[1..];
      assert DistinctLines(rest) by {
        forall i, j | 0 <= i < j < |rest| ensures rest[i].medicineId != rest[j].medicineId {
          assert rest[i] == cart[i + 1] && rest[j] == cart[j + 1];
        }
      }
      RemoveLineKeepsDistinct(rest, id);
      var tail := RemoveLine(rest, id);
      forall i | 0 <= i < |tail| ensures tail[i].medicineId != cart[0].medicineId {
        var j :| 0 <= j < |rest| && rest[j] == tail[i];
        assert cart[j + 1] == tail[i];
      }
    }
  }

  function LineTotal(l: CartLine): int
  {
    l.price * l.quantity
  }

  /** `cart.reduce((sum, item) => sum + item.price * item.quantity, 0)`. */
  function TotalAmount(cart: seq<CartLine>): int
  {
    SumOf(cart, LineTotal)
  }

  /** The body of the checkout request: `{ items: cart }`, of which the route
      reads each line's medicine id and quantity. */
  function CartItems(cart: seq<CartLine>): (r: seq<CartItem>)
    ensures |r| == |cart|
    ensures forall i :: 0 <= i < |cart| ==> r[i] == CartItem(cart[i].medicineId, cart[i].quantity)
  {
    if cart == [] then [] else CartItems(cart[..|cart| - 1]) + [CartItem(cart[|cart| - 1].medicineId, cart[|cart| - 1].quantity)]
  }

  // ---------------------------------------------------------------------------
  // The cart against the checkout route

  /** When the cart's prices are the catalog's current prices, the total the
      route records is the total the page shows. */
  lemma {:induction false} CheckoutTotalIsCartTotal(medicines: map<Id, Medicine>, owner: Id, cart: seq<CartLine>)
    requires KeyedById(medicines)
    requires Checkout(medicines, owner, Some(CartItems(cart))).Ok?
    requires forall i :: 0 <= i < |cart| && cart[i].medicineId in medicines ==>
      cart[i].price == medicines[cart[i].medicineId].price
    ensures Checkout(medicines, owner, Some(CartItems(cart))).value.total == TotalAmount(cart)
  {
    var items := CartItems(cart);
    var v := Validate(medicines, owner, items).value;
    ValidateTotal(medicines, owner, items);
    ValidateSnapshots(medicines, owner, items);
    SumOfPointwise(v.items, LineAmount, cart, LineTotal);
  }

  /** A cart the page built (no medicine twice) lowers each medicine's stock by
      exactly its line's quantity when the route accepts it. */
  lemma {:induction false} CartCheckoutStock(medicines: map<Id, Medicine>, owner: Id, cart: seq<CartLine>)
    requires KeyedById(medicines)
    requires DistinctLines(cart)
    requires Checkout(medicines, owner, Some(CartItems(cart))).Ok?
    ensures var after := Commit(medicines, Checkout(medicines, owner, Some(CartItems(cart))).value.updates);
      && after.Keys == medicines.Keys
      && (forall i :: 0 <= i < |cart| ==> cart[i].medicineId in medicines)
      && (forall i :: 0 <= i < |cart| ==>
            after[cart[i].medicineId].quantity == medicines[cart[i].medicineId].quantity - cart[i].quantity)
  {
    var items := CartItems(cart);
    assert DistinctMedicines(items);
    CheckoutDecrementsEachLine(medicines, owner, items);
  }

  /** A line asking for more than the medicine's stock (a merged line, say) makes
      the route refuse the whole cart. */
  lemma {:induction false} OverStockLineRefused(medicines: map<Id, Medicine>, owner: Id, cart: seq<CartLine>, k: nat)
    requires k < |cart|
    requires cart[k].medicineId in medicines
    requires medicines[cart[k].medicineId].quantity < cart[k].quantity
    ensures Checkout(medicines, owner, Some(CartItems(cart))).Err?
  {
    var items := CartItems(cart);
    ValidateAcceptsIff(medicines, owner, items);
    assert LineError(medicines, owner, items[k]).Some?;
  }

  // ---------------------------------------------------------------------------
  // The page

  class SalesPageState {
    var medicines: seq<Medicine>
    var cart: seq<CartLine>
    var selected: Option<Id>
    var quantity: int
    var searchTerm: string
    var notice: Option<Notice>

    ghost predicate Valid()
      reads this
    {
      DistinctLines(cart)
    }

    /** The page after the medicine list has been fetched. */
    constructor (fetched: seq<Medicine>)
      ensures Valid()
      ensures medicines == fetched && cart == [] && selected == None && quantity == 1
      ensures searchTerm == "" && notice == None
    {
      medicines, cart, selected, quantity, searchTerm, notice := fetched, [], None, 1, "", None;
    }

    /** The medicines the dropdown offers. */
    function FilteredMedicines(): seq<Medicine>
      reads this
    {
      SearchResults(medicines, searchTerm)
    }

    /** The amount the page shows. */
    function Total(): int
      reads this
    {
      TotalAmount(cart)
    }

    /** `addToCart`: does nothing without a selection, with a non-positive
        quantity or when the selection is not listed; shows the stock notice
        when the quantity exceeds the medicine's stock; otherwise adds the line
        and resets the form. */
    method AddToCart()
      requires Valid()
      modifies this
      ensures Valid()
      ensures medicines == old(medicines)
      ensures old(selected).None? || old(quantity) <= 0 || FindMedicine(old(medicines), old(selected).value).None? ==>
        && cart == old(cart) && selected == old(selected) && quantity == old(quantity)
        && searchTerm == old(searchTerm) && notice == old(notice)
      ensures old(selected).Some? && old(quantity) > 0 && FindMedicine(old(medicines), old(selected).value).Some? ==>
        var m := FindMedicine(old(medicines), old(selected).value).value;
        if m.quantity < old(quantity) then
          && cart == old(cart) && selected == old(selected) && quantity == old(quantity)
          && searchTerm == old(searchTerm) && notice == Some(StockNotice(m.quantity, m.name))
        else
          && cart == AddLine(old(cart), m, old(quantity))
          && selected == None && quantity == 1 && searchTerm == "" && notice == old(notice)
    {
      if selected.None? || quantity <= 0 {
        return;
      }
      var found := FindMedicine(medicines, selected.value);
      if found.None? {
        return;
      }
      var medicine := found.value;
      if medicine.quantity < quantity {
        notice := Some(StockNotice(medicine.quantity, medicine.name));
        return;
      }
      AddLineKeepsDistinct(cart, medicine, quantity);
      cart := AddLine(cart, medicine, quantity);
      quantity := 1;
      selected := None;
      searchTerm := "";
    }

    /** `removeFromCart(id)`. */
    method RemoveFromCart(id: Id)
      requires Valid()
      modifies this`cart
      ensures Valid()
      ensures cart == RemoveLine(old(cart), id)
    {
      RemoveLineKeepsDistinct(cart, id);
      cart := RemoveLine(cart, id);
    }

    /** `handleCheckout`: does nothing on an empty cart; otherwise posts the cart
        (returned as the request body) and, on `accepted`, shows the success
        notice, empties the cart and takes the `refreshed` medicine list; on a
        refusal shows the error notice and keeps the cart. */
    method HandleCheckout(accepted: bool, refreshed: seq<Medicine>) returns (posted: Option<seq<CartItem>>)
      requires Valid()
      modifies this`cart, this`notice, this`medicines
      ensures Valid()
      ensures old(cart) == [] ==>
        posted == None && cart == old(cart) && notice == old(notice) && medicines == old(medicines)
      ensures old(cart) != [] ==> posted == Some(CartItems(old(cart)))
      ensures old(cart) != [] && accepted ==> cart == [] && notice == Some(SaleRecorded) && medicines == refreshed
      ensures old(cart) != [] && !accepted ==>
        cart == old(cart) && notice == Some(SaleFailed) && medicines == old(medicines)
    {
      if |cart| == 0 {
        return None;
      }
      posted := Some(CartItems(cart));
      if accepted {
        notice := Some(SaleRecorded);
        cart := [];
        medicines := refreshed;
      } else {
        notice := Some(SaleFailed);
      }
    }
  }
}
