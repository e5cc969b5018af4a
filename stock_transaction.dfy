/** The ledger entry of the inventory. */
module Transactions {
  import opened Identity

  /** The five kinds of stock movement. The service itself only ever records the first three. */
  datatype TransactionType = Restock | Sale | Adjustment | Return | Damage

  /** One ledger entry: a signed change `quantity` to the stock of `productId`. */
  datatype StockTransaction = StockTransaction(
    id: Id,
    productId: Id,
    kind: TransactionType,
    quantity: int,
    reason: string,
    transactionDate: Time,
    performedBy: string)
}
