/**
 * Properties of the inventory across operations: any sequence of operations
 * from the seeded store keeps the invariant; the ledger only grows; a product
 * is never removed and only its stock, restock date and discontinued flag ever
 * change; discontinuation is idempotent, permanent and bars every later
 * restock; and the reorder report follows restocks and sales.
 */
module InventoryProperties {
  import opened Wrappers
  import opened Identity
  import opened Text
  import opened Seqs
  import opened Products
  import opened Transactions
  import opened Inventory
  import opened InventoryInvariants

  /** One call of a mutating operation of the service, with its arguments. */
  datatype Operation =
    | AddOp(name: string, sku: string, category: string, price: real, quantity: int, reorderLevel: int)
    | RestockOp(productId: Id, quantity: int, performedBy: string)
    | SaleOp(productId: Id, quantity: int, performedBy: string)
    | AdjustOp(productId: Id, adjustment: int, reason: string, performedBy: string)
    | DiscontinueOp(productId: Id)

  /** The store an operation leaves behind, whether it succeeded or was rejected. */
  function Apply(s: Store, op: Operation): Store {
    match op
    case AddOp(name, sku, category, price, quantity, reorderLevel) =>
      AddProduct(s, name, sku, category, price, quantity, reorderLevel).after
    case RestockOp(productId, quantity, performedBy) => RestockProduct(s, productId, quantity, performedBy).after
    case SaleOp(productId, quantity, performedBy) => RecordSale(s, productId, quantity, performedBy).after
    case AdjustOp(productId, adjustment, reason, performedBy) =>
      AdjustStock(s, productId, adjustment, reason, performedBy).after
    case DiscontinueOp(productId) => DiscontinueProduct(s, productId).after
  }

  /** The store after running `ops` in order from `s`. */
  function Run(s: Store, ops: seq<Operation>): Store
    decreases |ops|
  {
    if ops == [] then s else Run(Apply(s, ops[0]), ops[1..])
  }

  lemma ApplyKeepsValid(s: Store, op: Operation)
    requires Valid(s)
    ensures Valid(Apply(s, op))
  {
    match op
    case AddOp(name, sku, category, price, quantity, reorderLevel) =>
      AddProductKeepsValid(s, name, sku, category, price, quantity, reorderLevel);
    case RestockOp(productId, quantity, performedBy) => RestockKeepsValid(s, productId, quantity, performedBy);
    case SaleOp(productId, quantity, performedBy) => SaleKeepsValid(s, productId, quantity, performedBy);
    case AdjustOp(productId, adjustment, reason, performedBy) =>
      AdjustKeepsValid(s, productId, adjustment, reason, performedBy);
    case DiscontinueOp(productId) => DiscontinueKeepsValid(s, productId);
  }

  /** Every store reachable from the constructor satisfies the invariant. */
  lemma {:induction false} RunKeepsValid(s: Store, ops: seq<Operation>)
    requires Valid(s)
    ensures Valid(Run(s, ops))
    decreases |ops|
  {
    if ops != [] {
      ApplyKeepsValid(s, ops[0]);
      RunKeepsValid(Apply(s, ops[0]), ops[1..]);
    }
  }

  lemma ReachableValid(ops: seq<Operation>)
    ensures Valid(Run(Initial(), ops))
  {
    InitialValid();
    RunKeepsValid(Initial(), ops);
  }

  // ---------------------------------------------------------------------------
  // What never changes

  /** `q` is `p` with at most its stock, restock date and discontinued flag changed, and still discontinued if `p` was. */
  predicate SameProduct(p: Product, q: Product) {
    && q == p.(quantityInStock := q.quantityInStock, lastRestockedAt := q.lastRestockedAt, isDiscontinued := q.isDiscontinued)
    && (p.isDiscontinued ==> q.isDiscontinued)
  }

  /**
   * `r` extends `s`: the ledger of `s` is a prefix of the ledger of `r`, and
   * every product of `s` is still at its position in `r`, as the same product.
   */
  predicate Extends(s: Store, r: Store) {
    && s.transactions <= r.transactions
    && |s.products| <= |r.products|
    && forall k :: 0 <= k < |s.products| ==> SameProduct(s.products[k], r.products[k])
  }

  lemma ExtendsTransitive(s: Store, m: Store, r: Store)
    requires Extends(s, m) && Extends(m, r)
    ensures Extends(s, r)
  {
    assert forall k :: 0 <= k < |s.products| ==> SameProduct(m.products[k], r.products[k]);
  }

  /** Products and ledger entries are only ever appended, and a product is never edited beyond stock, restock date and flag. */
  lemma ApplyExtends(s: Store, op: Operation)
    ensures Extends(s, Apply(s, op))
  {
    var r := Apply(s, op);
    match op
    case AddOp(name, sku, category, price, quantity, reorderLevel) =>
      var step := AddProduct(s, name, sku, category, price, quantity, reorderLevel);
      if step.result.Ok? {
        assert forall k :: 0 <= k < |s.products| ==> r.products[k] == s.products[k];
      }
    case RestockOp(productId, quantity, performedBy) =>
    case SaleOp(productId, quantity, performedBy) =>
    case AdjustOp(productId, adjustment, reason, performedBy) =>
    case DiscontinueOp(productId) =>
  }

  lemma {:induction false} RunExtends(s: Store, ops: seq<Operation>)
    ensures Extends(s, Run(s, ops))
    decreases |ops|
  {
    if ops == [] {
      assert forall k :: 0 <= k < |s.products| ==> SameProduct(s.products[k], s.products[k]);
    } else {
      ApplyExtends(s, ops[0]);
      RunExtends(Apply(s, ops[0]), ops[1..]);
      ExtendsTransitive(s, Apply(s, ops[0]), Run(s, ops));
    }
  }

  /** Extending a product list keeps the position `FindProductById` finds for every id already present. */
  lemma IndexStable(ps: seq<Product>, qs: seq<Product>, id: Id)
    requires |ps| <= |qs| && forall k :: 0 <= k < |ps| ==> qs[k].id == ps[k].id
    requires id in Ids(ps)
    ensures IndexOfProduct(qs, id) == IndexOfProduct(ps, id)
  {
    var i := IndexOfProduct(ps, id).value;
    assert qs[i].id == id;
    assert id in Ids(qs) by {
      assert Ids(qs)[i] == id;
    }
  }

  /** Once discontinued, a product stays discontinued whatever happens next. */
  lemma DiscontinuedPersists(s: Store, ops: seq<Operation>, productId: Id)
    requires FindProductById(s, productId).Some? && FindProductById(s, productId).value.isDiscontinued
    ensures FindProductById(Run(s, ops), productId).Some?
    ensures FindProductById(Run(s, ops), productId).value.isDiscontinued
  {
    var r := Run(s, ops);
    RunExtends(s, ops);
    IndexStable(s.products, r.products, productId);
    var i := IndexOfProduct(s.products, productId).value;
    assert SameProduct(s.products[i], r.products[i]);
  }

  /** After a product is discontinued, every later restock of it fails, whatever happened in between. */
  lemma DiscontinueBarsRestock(s: Store, productId: Id, ops: seq<Operation>, quantity: int, performedBy: string)
    requires DiscontinueProduct(s, productId).result.Ok?
    ensures RestockProduct(Run(DiscontinueProduct(s, productId).after, ops), productId, quantity, performedBy).result.Err?
  {
    var d := DiscontinueProduct(s, productId).after;
    IndexStable(s.products, d.products, productId);
    DiscontinuedPersists(d, ops, productId);
  }

  /** Discontinuing twice is the same as discontinuing once. */
  lemma DiscontinueIdempotent(s: Store, productId: Id)
    ensures var once := DiscontinueProduct(s, productId);
      DiscontinueProduct(once.after, productId) == once
  {
    var once := DiscontinueProduct(s, productId);
    if once.result.Ok? {
      var i := IndexOfProduct(s.products, productId).value;
      IndexStable(s.products, once.after.products, productId);
      assert once.after.products[i := once.after.products[i].(isDiscontinued := true)] == once.after.products;
    }
  }

  // ---------------------------------------------------------------------------
  // The reorder report after a stock change

  /** With unique ids, the product at position `i` is the only product with its id. */
  lemma OnlyOneWithId(s: Store, i: nat, p: Product)
    requires Valid(s) && i < |s.products| && p in s.products && p.id == s.products[i].id
    ensures p == s.products[i]
  {
  }

  /** A restock that lifts the stock above the reorder level takes the product off the reorder report. */
  lemma RestockClearsReorder(s: Store, productId: Id, quantity: int, performedBy: string)
    requires Valid(s)
    requires var r := RestockProduct(s, productId, quantity, performedBy);
      r.result.Ok? && FindProductById(r.after, productId).value.quantityInStock > FindProductById(r.after, productId).value.reorderLevel
    ensures forall p :: p in GetProductsNeedingReorder(RestockProduct(s, productId, quantity, performedBy).after) ==> p.id != productId
  {
    var r := RestockProduct(s, productId, quantity, performedBy).after;
    RestockKeepsValid(s, productId, quantity, performedBy);
    var i := IndexOfProduct(r.products, productId).value;
    forall p | p in GetProductsNeedingReorder(r)
      ensures p.id != productId
    {
      if p.id == productId {
        OnlyOneWithId(r, i, p);
      }
    }
  }

  /** A sale that leaves the stock at or below the reorder level of a product still carried puts it on the reorder report. */
  lemma SaleRaisesReorder(s: Store, productId: Id, quantity: int, performedBy: string)
    requires var r := RecordSale(s, productId, quantity, performedBy);
      var p := FindProductById(r.after, productId);
      r.result.Ok? && p.value.quantityInStock <= p.value.reorderLevel && !p.value.isDiscontinued
    ensures FindProductById(RecordSale(s, productId, quantity, performedBy).after, productId).value
            in GetProductsNeedingReorder(RecordSale(s, productId, quantity, performedBy).after)
  {
  }

  // ---------------------------------------------------------------------------
  // Lookups after AddProduct

  /** A product just added is what `FindProductBySku` finds for its SKU, in any letter case. */
  lemma AddThenFindBySku(s: Store, name: string, sku: string, category: string, price: real,
                         quantity: int, reorderLevel: int, query: string)
    requires var r := AddProduct(s, name, sku, category, price, quantity, reorderLevel);
      r.result.Ok? && EqualsIgnoreCase(query, sku)
    ensures var r := AddProduct(s, name, sku, category, price, quantity, reorderLevel);
      FindProductBySku(r.after, query) == Some(r.result.value)
  {
    var r := AddProduct(s, name, sku, category, price, quantity, reorderLevel);
    var p := r.result.value;
    var n := |s.products|;
    assert r.after.products[n] == p;
    BlankIgnoresCase(sku, query);
    assert !SkuTaken(s.products, sku);
    assert SkuTaken(r.after.products, query) by {
      assert EqualsIgnoreCase(r.after.products[n].sku, query);
    }
    var found := FindProductBySku(r.after, query).value;
    var k :| 0 <= k < |r.after.products| && r.after.products[k] == found;
    if k < n {
      assert EqualsIgnoreCase(s.products[k].sku, sku);
    }
  }

  /** A product just added is what `FindProductById` finds for its id. */
  lemma AddThenFindById(s: Store, name: string, sku: string, category: string, price: real,
                        quantity: int, reorderLevel: int)
    requires Valid(s)
    requires AddProduct(s, name, sku, category, price, quantity, reorderLevel).result.Ok?
    ensures var r := AddProduct(s, name, sku, category, price, quantity, reorderLevel);
      FindProductById(r.after, r.result.value.id) == Some(r.result.value)
  {
    var r := AddProduct(s, name, sku, category, price, quantity, reorderLevel);
    AddProductKeepsValid(s, name, sku, category, price, quantity, reorderLevel);
    var p := r.result.value;
    assert r.after.products[|s.products|] == p;
    assert Ids(r.after.products)[|s.products|] == p.id;
    var found := FindProductById(r.after, p.id).value;
    OnlyOneWithId(r.after, |s.products|, found);
  }
  // ---------------------------------------------------------------------------
  // Scenarios

  /** A second product whose SKU equals the first one's ignoring case is rejected as a duplicate. */
  lemma DuplicateSkuRejected(s: Store, name: string, sku: string, category: string, price: real,
                             quantity: int, reorderLevel: int,
                             name': string, sku': string, category': string, price': real,
                             quantity': int, reorderLevel': int)
    requires AddProduct(s, name, sku, category, price, quantity, reorderLevel).result.Ok?
    requires EqualsIgnoreCase(sku', sku) && !IsBlank(name') && price' >= 0.0 && quantity' >= 0
    ensures var after := AddProduct(s, name, sku, category, price, quantity, reorderLevel).after;
      AddProduct(after, name', sku', category', price', quantity', reorderLevel').result == Err(DuplicateSku(sku'))
  {
    var after := AddProduct(s, name, sku, category, price, quantity, reorderLevel).after;
    var n := |s.products|;
    BlankIgnoresCase(sku', sku);
    assert after.products[n].sku == sku;
    assert EqualsIgnoreCase(after.products[n].sku, sku');
  }

  /** A product whose only ledger entries are the last two sees them newest first. */
  lemma HistoryOfTwo(r: Store, earlier: seq<StockTransaction>, t1: StockTransaction, t2: StockTransaction, productId: Id)
    requires r.transactions == earlier + [t1] + [t2]
    requires forall k :: 0 <= k < |earlier| ==> earlier[k].productId != productId
    requires t1.productId == productId && t2.productId == productId
    ensures GetTransactionHistory(r, productId) == [t2, t1]
  {
    FilterNone(earlier, ForProduct(productId));
    FilterAppend(earlier, t1, ForProduct(productId));
    FilterAppend(earlier + [t1], t2, ForProduct(productId));
    assert Filter(r.transactions, ForProduct(productId)) == [t1, t2];
  }

  /** Restocking a product just added succeeds and adds to its initial stock. */
  lemma RestockAfterAdd(s: Store, name: string, sku: string, category: string, price: real,
                        quantity: int, reorderLevel: int, more: int, performedBy: string)
    requires Valid(s) && more > 0
    requires AddProduct(s, name, sku, category, price, quantity, reorderLevel).result.Ok?
    ensures var a := AddProduct(s, name, sku, category, price, quantity, reorderLevel);
      var id := a.result.value.id;
      var r := RestockProduct(a.after, id, more, performedBy);
      && r.result.Ok?
      && FindProductById(r.after, id).Some?
      && FindProductById(r.after, id).value.quantityInStock == quantity + more
  {
    var a := AddProduct(s, name, sku, category, price, quantity, reorderLevel);
    var p := a.result.value;
    AddThenFindById(s, name, sku, category, price, quantity, reorderLevel);
    var r := RestockProduct(a.after, p.id, more, performedBy);
    var i := IndexOfProduct(a.after.products, p.id).value;
    assert r.after.products[i].quantityInStock == quantity + more;
    IndexStable(a.after.products, r.after.products, p.id);
  }

  /**
   * A product added with initial stock `quantity` and then restocked by
   * `more` holds `quantity + more`, and its history is the restock followed by
   * the initial-stock entry, newest first.
   */
  lemma AddThenRestock(s: Store, name: string, sku: string, category: string, price: real,
                       quantity: int, reorderLevel: int, more: int, performedBy: string)
    requires Valid(s) && quantity > 0 && more > 0
    requires AddProduct(s, name, sku, category, price, quantity, reorderLevel).result.Ok?
    ensures var a := AddProduct(s, name, sku, category, price, quantity, reorderLevel);
      var id := a.result.value.id;
      var r := RestockProduct(a.after, id, more, performedBy);
      var h := GetTransactionHistory(r.after, id);
      && r.result.Ok?
      && FindProductById(r.after, id).Some?
      && FindProductById(r.after, id).value.quantityInStock == quantity + more
      && |h| == 2
      && Entry(h[0], id, Restock, more, "Restock", performedBy)
      && Entry(h[1], id, Restock, quantity, "Initial stock", "System")
  {
    var a := AddProduct(s, name, sku, category, price, quantity, reorderLevel);
    var p := a.result.value;
    RestockAfterAdd(s, name, sku, category, price, quantity, reorderLevel, more, performedBy);
    var r := RestockProduct(a.after, p.id, more, performedBy);
    var t1 := a.after.transactions[|s.transactions|];
    var t2 := r.after.transactions[|a.after.transactions|];
    assert a.after.transactions == s.transactions + [t1];
    assert r.after.transactions == s.transactions + [t1] + [t2];
    // the new id is fresh, so none of the old entries is about it
    assert p.id !in Ids(s.products);
    HistoryOfTwo(r.after, s.transactions, t1, t2, p.id);
  }

  // ---------------------------------------------------------------------------
  // The summary after a stock change

  /** Adding a product counts one more product, adds its value, and one more entry when it has initial stock. */
  lemma SummaryAfterAdd(s: Store, name: string, sku: string, category: string, price: real,
                        quantity: int, reorderLevel: int)
    requires AddProduct(s, name, sku, category, price, quantity, reorderLevel).result.Ok?
    ensures var before, after := GetSummary(s), GetSummary(AddProduct(s, name, sku, category, price, quantity, reorderLevel).after);
      && after.totalProducts == before.totalProducts + 1
      && after.totalValue == before.totalValue + Worth(price, quantity)
      && after.totalTransactions == before.totalTransactions + (if quantity > 0 then 1 else 0)
  {
    var r := AddProduct(s, name, sku, category, price, quantity, reorderLevel);
    StockValueAppend(s.products, r.result.value);
  }

  /** A sale of `quantity` lowers the total value by the worth of `quantity` units at the product's price, and logs one entry. */
  lemma SummaryAfterSale(s: Store, productId: Id, quantity: int, performedBy: string)
    requires RecordSale(s, productId, quantity, performedBy).result.Ok?
    ensures var p := FindProductById(s, productId).value;
      var before, after := GetSummary(s), GetSummary(RecordSale(s, productId, quantity, performedBy).after);
      && after.totalProducts == before.totalProducts
      && after.totalValue == before.totalValue - Worth(p.price, quantity)
      && after.totalTransactions == before.totalTransactions + 1
  {
    var r := RecordSale(s, productId, quantity, performedBy);
    var i := IndexOfProduct(s.products, productId).value;
    var p := s.products[i];
    var sold := r.after.products[i];
    assert r.after.products == s.products[i := sold];
    StockValueUpdate(s.products, i, sold);
    WorthDifference(p.price, p.quantityInStock, quantity);
    assert sold.price == p.price && sold.quantityInStock == p.quantityInStock - quantity;
    assert ItemValue(sold) == ItemValue(p) - Worth(p.price, quantity);
    assert p == FindProductById(s, productId).value;
    assert StockValue(r.after.products) == StockValue(s.products) - Worth(p.price, quantity);
  }
}
