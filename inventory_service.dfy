/**
 * `InventoryService` as an object: its two lists are fields the methods
 * update in place, and every method is proved to leave exactly the state the
 * corresponding step function of `Inventory` describes, keeping the invariant.
 * The id counter and the clock stand for `Guid.NewGuid` and `DateTime.Now`.
 */
module InventoryServices {
  import opened Wrappers
  import opened Identity
  import opened Text
  import opened Products
  import opened Transactions
  import opened Inventory
  import opened InventoryInvariants

  class InventoryService {
    var products: seq<Product>
    var transactions: seq<StockTransaction>
    var nextId: Id
    var clock: Time

    /** The service's state as a value. */
    function State(): Store
      reads this
    {
      Store(products, transactions, nextId, clock)
    }

    ghost predicate Valid()
      reads this
    {
      Inventory.Valid(State())
    }

    /** Seeds the registry with the three sample products and an empty ledger. */
    constructor()
      ensures State() == Initial()
      ensures Valid()
    {
      products := Seed();
      transactions := [];
      nextId := |Seed()| + 1;
      clock := 1;
      InitialValid();
    }

    /** `Guid.NewGuid`: a fresh id from the counter. */
    method NewGuid() returns (id: Id)
      modifies this
      ensures id == old(nextId) && nextId == old(nextId) + 1
      ensures products == old(products) && transactions == old(transactions) && clock == old(clock)
    {
      id := nextId;
      nextId := nextId + 1;
    }

    /** `DateTime.Now`: the current time; every reading is later than the one before. */
    method Now() returns (t: Time)
      modifies this
      ensures t == old(clock) && clock == old(clock) + 1
      ensures products == old(products) && transactions == old(transactions) && nextId == old(nextId)
    {
      t := clock;
      clock := clock + 1;
    }

    /** `RecordTransaction`: appends one ledger entry with a fresh id and the current time. */
    method RecordTransaction(productId: Id, kind: TransactionType, quantity: int, reason: string, performedBy: string)
      modifies this
      ensures State() == Inventory.RecordTransaction(old(State()), productId, kind, quantity, reason, performedBy)
    {
      var id := NewGuid();
      var now := Now();
      transactions := transactions + [StockTransaction(id, productId, kind, quantity, reason, now, performedBy)];
    }

    method AddProduct(name: string, sku: string, category: string, price: real, quantity: int, reorderLevel: int)
      returns (r: Result<Product, InventoryError>)
      requires Valid()
      modifies this
      ensures Valid()
      ensures Step(r, State()) == Inventory.AddProduct(old(State()), name, sku, category, price, quantity, reorderLevel)
    {
      ghost var s := State();
      if IsBlank(name) {
        return Err(EmptyName);
      }
      if IsBlank(sku) {
        return Err(EmptySku);
      }
      if price < 0.0 {
        return Err(NegativePrice);
      }
      if quantity < 0 {
        return Err(NegativeQuantity);
      }
      if SkuTaken(products, sku) {
        return Err(DuplicateSku(sku));
      }
      var id := NewGuid();
      var now := Now();
      var product := Blank.(id := id, name := name, sku := sku, category := category, price := price,
                            quantityInStock := quantity, reorderLevel := reorderLevel, createdAt := now);
      products := products + [product];
      if quantity > 0 {
        RecordTransaction(product.id, Restock, quantity, "Initial stock", "System");
      }
      r := Ok(product);
      assert Step(r, State()) == Inventory.AddProduct(s, name, sku, category, price, quantity, reorderLevel);
      AddProductKeepsValid(s, name, sku, category, price, quantity, reorderLevel);
    }

    method RestockProduct(productId: Id, quantity: int, performedBy: string) returns (r: Result<(), InventoryError>)
      requires Valid()
      modifies this
      ensures Valid()
      ensures Step(r, State()) == Inventory.RestockProduct(old(State()), productId, quantity, performedBy)
    {
      ghost var s := State();
      if quantity <= 0 {
        return Err(NonPositiveQuantity);
      }
      var found := IndexOfProduct(products, productId);
      if found.None? {
        return Err(ProductNotFound(productId));
      }
      var i := found.value;
      var product := products[i];
      if product.isDiscontinued {
        return Err(RestockDiscontinued);
      }
      var now := Now();
      products := products[i := product.(quantityInStock := product.quantityInStock + quantity, lastRestockedAt := Some(now))];
      RecordTransaction(productId, Restock, quantity, "Restock", performedBy);
      r := Ok(());
      assert Step(r, State()) == Inventory.RestockProduct(s, productId, quantity, performedBy);
      RestockKeepsValid(s, productId, quantity, performedBy);
    }

    method RecordSale(productId: Id, quantity: int, performedBy: string) returns (r: Result<(), InventoryError>)
      requires Valid()
      modifies this
      ensures Valid()
      ensures Step(r, State()) == Inventory.RecordSale(old(State()), productId, quantity, performedBy)
    {
      ghost var s := State();
      if quantity <= 0 {
        return Err(NonPositiveQuantity);
      }
      var found := IndexOfProduct(products, productId);
      if found.None? {
        return Err(ProductNotFound(productId));
      }
      var i := found.value;
      var product := products[i];
      if product.quantityInStock < quantity {
        return Err(InsufficientStock(product.quantityInStock));
      }
      products := products[i := product.(quantityInStock := product.quantityInStock - quantity)];
      RecordTransaction(productId, Sale, -quantity, "Sale", performedBy);
      r := Ok(());
      assert Step(r, State()) == Inventory.RecordSale(s, productId, quantity, performedBy);
      SaleKeepsValid(s, productId, quantity, performedBy);
    }

    method AdjustStock(productId: Id, adjustment: int, reason: string, performedBy: string)
      returns (r: Result<(), InventoryError>)
      requires Valid()
      modifies this
      ensures Valid()
      ensures Step(r, State()) == Inventory.AdjustStock(old(State()), productId, adjustment, reason, performedBy)
    {
      ghost var s := State();
      var found := IndexOfProduct(products, productId);
      if found.None? {
        return Err(ProductNotFound(productId));
      }
      var i := found.value;
      var product := products[i];
      var newQuantity := product.quantityInStock + adjustment;
      if newQuantity < 0 {
        return Err(NegativeStock);
      }
      products := products[i := product.(quantityInStock := newQuantity)];
      RecordTransaction(productId, Adjustment, adjustment, reason, performedBy);
      r := Ok(());
      assert Step(r, State()) == Inventory.AdjustStock(s, productId, adjustment, reason, performedBy);
      AdjustKeepsValid(s, productId, adjustment, reason, performedBy);
    }

    method DiscontinueProduct(productId: Id) returns (r: Result<(), InventoryError>)
      requires Valid()
      modifies this
      ensures Valid()
      ensures Step(r, State()) == Inventory.DiscontinueProduct(old(State()), productId)
    {
      ghost var s := State();
      var found := IndexOfProduct(products, productId);
      if found.None? {
        return Err(ProductNotFound(productId));
      }
      var i := found.value;
      products := products[i := products[i].(isDiscontinued := true)];
      r := Ok(());
      assert Step(r, State()) == Inventory.DiscontinueProduct(s, productId);
      DiscontinueKeepsValid(s, productId);
    }
  }
}
