/** The Sale document of the ledger (medimind-backend/models/Sale.js). */
module SaleModel {
  import opened Common
  import opened Seqs

  /** One sold line. `medicineId` is a plain reference that may dangle once the
      medicine is deleted; `name` and `price` are copies taken at sale time. */
  datatype SaleItem = SaleItem(medicineId: Id, name: Option<string>, quantity: int, price: int)

  /** A recorded sale; `date` defaults to the time of creation. */
  datatype Sale = Sale(id: Id, items: seq<SaleItem>, total: int, user: Id, date: Time)

  function LineAmount(item: SaleItem): int
  {
    item.price * item.quantity
  }

  /** The sum of price times quantity over the lines, recomputed from the snapshots. */
  function ItemsTotal(items: seq<SaleItem>): int
  {
    SumOf(items, LineAmount)
  }
}
