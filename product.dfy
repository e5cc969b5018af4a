/** The `Product` record of the inventory and the one predicate derived from it. */
module Products {
  import opened Wrappers
  import opened Identity

  /**
   * A catalogue entry with its current stock. `price` is a C# `decimal`, held
   * exactly as a real number; `quantityInStock` and `reorderLevel` are `int`s.
   */
  datatype Product = Product(
    id: Id,
    name: string,
    sku: string,
    category: string,
    price: real,
    quantityInStock: int,
    reorderLevel: int,
    createdAt: Time,
    lastRestockedAt: Option<Time>,
    isDiscontinued: bool)
  {
    /** Stock is at or below the reorder threshold and the product is still sold: computed, never stored. */
    predicate NeedsReorder() {
      quantityInStock <= reorderLevel && !isDiscontinued
    }
  }

  /** `new Product()`: every property at its default, the strings empty, never restocked, not discontinued. */
  const Blank: Product := Product(EmptyId, "", "", "", 0.0, 0, 0, 0, None, false)

  /**
   * What the derived flag implies: the threshold is inclusive, a discontinued
   * product never needs reorder, and raising the stock above the threshold
   * clears the flag with no other update.
   */
  lemma NeedsReorderFacts(p: Product, q: int)
    ensures !p.isDiscontinued && p.quantityInStock == p.reorderLevel ==> p.NeedsReorder()
    ensures p.isDiscontinued ==> !p.NeedsReorder()
    ensures q > p.reorderLevel ==> !p.(quantityInStock := q).NeedsReorder()
    ensures p.NeedsReorder() && q <= p.quantityInStock ==> p.(quantityInStock := q).NeedsReorder()
  {
  }
}
