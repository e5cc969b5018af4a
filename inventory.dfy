/**
 * The inventory service as a value: the product registry and the transaction
 * ledger, the invariant they keep, every operation as a step from one store to
 * the next, and every query as a function of the store.
 */
module Inventory {
  import opened Wrappers
  import opened Identity
  import opened Text
  import opened Seqs
  import opened Products
  import opened Transactions

  /** The service's state: its two lists, the id counter behind `Guid.NewGuid` and the clock behind `DateTime.Now`. */
  datatype Store = Store(
    products: seq<Product>,
    transactions: seq<StockTransaction>,
    nextId: Id,
    clock: Time)

  /** The ways an operation can fail; `IsArgumentError` separates `ArgumentException` from `InvalidOperationException`. */
  datatype InventoryError =
    | EmptyName
    | EmptySku
    | NegativePrice
    | NegativeQuantity
    | NonPositiveQuantity
    | EmptyCategory
    | DuplicateSku(sku: string)
    | ProductNotFound(productId: Id)
    | RestockDiscontinued
    | InsufficientStock(available: int)
    | NegativeStock
  {
    predicate IsArgumentError() {
      EmptyName? || EmptySku? || NegativePrice? || NegativeQuantity? || NonPositiveQuantity? || EmptyCategory?
    }
  }

  /** What an operation returns (or throws), together with the store it leaves behind. */
  datatype Step<+R> = Step(result: Result<R, InventoryError>, after: Store)

  /** `InventorySummary`. */
  datatype InventorySummary = InventorySummary(
    totalProducts: nat,
    totalValue: real,
    productsNeedingReorder: nat,
    discontinuedProducts: nat,
    totalTransactions: nat)

  // ---------------------------------------------------------------------------
  // The seeded store

  /** The three products the constructor seeds the registry with; they get the first three ids. */
  function Seed(): seq<Product> {
    [ Blank.(id := 1, name := "Wireless Mouse", sku := "ELEC-001", category := "Electronics",
             price := 29.99, quantityInStock := 45, reorderLevel := 10),
      Blank.(id := 2, name := "USB-C Cable", sku := "ELEC-002", category := "Electronics",
             price := 12.99, quantityInStock := 5, reorderLevel := 20),
      Blank.(id := 3, name := "Office Chair", sku := "FURN-001", category := "Furniture",
             price := 199.99, quantityInStock := 12, reorderLevel := 5) ]
  }

  /** The store right after construction: the seed, an empty ledger. */
  function Initial(): Store {
    Store(Seed(), [], |Seed()| + 1, 1)
  }

  /**
   * The stock a product had before any ledger entry: its seed quantity for a
   * seeded product, zero for one created by `AddProduct` (whose initial stock
   * is itself a ledger entry).
   */
  function OpeningBalance(id: Id): int {
    if 1 <= id <= |Seed()| then Seed()[id - 1].quantityInStock else 0
  }

  // ---------------------------------------------------------------------------
  // The invariant

  function Ids(ps: seq<Product>): seq<Id> {
    seq(|ps|, i requires 0 <= i < |ps| => ps[i].id)
  }

  /** Sum of the ledger's deltas for one product. */
  function Delta(ts: seq<StockTransaction>, id: Id): int {
    if ts == [] then 0
    else (if ts[0].productId == id then ts[0].quantity else 0) + Delta(ts[1..], id)
  }

  predicate NonNegativeStock(ps: seq<Product>) {
    forall i :: 0 <= i < |ps| ==> ps[i].quantityInStock >= 0
  }

  predicate NonNegativePrices(ps: seq<Product>) {
    forall i :: 0 <= i < |ps| ==> ps[i].price >= 0.0
  }

  /** No two products have SKUs equal ignoring case. */
  predicate DistinctSkus(ps: seq<Product>) {
    forall i, j :: 0 <= i < j < |ps| ==> Fold(ps[i].sku) != Fold(ps[j].sku)
  }

  /** Every id was drawn from the counter (so none is `Guid.Empty`) and no two products share one. */
  predicate FreshIds(s: Store) {
    && s.nextId > |Seed()|
    && (forall i :: 0 <= i < |s.products| ==> EmptyId < s.products[i].id < s.nextId)
    && (forall i, j :: 0 <= i < j < |s.products| ==> s.products[i].id != s.products[j].id)
  }

  /** Ledger entries are in strictly increasing time order, all before the clock. */
  predicate Chronological(ts: seq<StockTransaction>, clock: Time) {
    && (forall i, j :: 0 <= i < j < |ts| ==> ts[i].transactionDate < ts[j].transactionDate)
    && (forall i :: 0 <= i < |ts| ==> ts[i].transactionDate < clock)
  }

  /** Every ledger entry is about a product in the registry. */
  predicate LedgerRefersToRegistry(s: Store) {
    forall k :: 0 <= k < |s.transactions| ==> s.transactions[k].productId in Ids(s.products)
  }

  /** Each product's stock is its opening balance plus the sum of its ledger deltas. */
  predicate LedgerBalanced(s: Store) {
    forall i :: 0 <= i < |s.products| ==>
      s.products[i].quantityInStock == OpeningBalance(s.products[i].id) + Delta(s.transactions, s.products[i].id)
  }

  predicate Valid(s: Store) {
    && NonNegativeStock(s.products)
    && NonNegativePrices(s.products)
    && DistinctSkus(s.products)
    && FreshIds(s)
    && Chronological(s.transactions, s.clock)
    && LedgerRefersToRegistry(s)
    && LedgerBalanced(s)
  }

  // ---------------------------------------------------------------------------
  // Lookups

  /** The position of the product `FindProductById` returns. */
  function IndexOfProduct(ps: seq<Product>, id: Id): (r: Option<nat>)
    ensures r.Some? ==> r.value < |ps| && ps[r.value].id == id
    ensures r.Some? ==> forall j :: 0 <= j < r.value ==> ps[j].id != id
    ensures r.None? <==> id !in Ids(ps)
  {
    var r := FirstIndex(ps, (p: Product) => p.id == id);
    assert r.Some? ==> Ids(ps)[r.value] == id;
    assert id in Ids(ps) ==> exists k :: 0 <= k < |ps| && ps[k].id == id;
    r
  }

  /** `FindProductById`: the first product with the id, or null. */
  function FindProductById(s: Store, id: Id): (r: Option<Product>)
    ensures r.Some? <==> id in Ids(s.products)
    ensures r.Some? ==> r.value in s.products && r.value.id == id
  {
    match IndexOfProduct(s.products, id)
    case None => None
    case Some(i) => Some(s.products[i])
  }

  /** Some product's SKU equals `sku` ignoring case (the duplicate check of `AddProduct`). */
  predicate SkuTaken(ps: seq<Product>, sku: string) {
    exists i :: 0 <= i < |ps| && EqualsIgnoreCase(ps[i].sku, sku)
  }

  /** `FindProductBySku`: null for a blank SKU, else the first product whose SKU equals it ignoring case. */
  function FindProductBySku(s: Store, sku: string): (r: Option<Product>)
    ensures r.None? <==> IsBlank(sku) || !SkuTaken(s.products, sku)
    ensures r.Some? ==> r.value in s.products && EqualsIgnoreCase(r.value.sku, sku)
  {
    if IsBlank(sku) then None
    else match FirstIndex(s.products, (p: Product) => EqualsIgnoreCase(p.sku, sku))
      case None => None
      case Some(i) => Some(s.products[i])
  }

  // ---------------------------------------------------------------------------
  // Operations

  /** `t` is an entry about `productId` of the given kind, delta, reason and performer. */
  predicate Entry(t: StockTransaction, productId: Id, kind: TransactionType, quantity: int, reason: string, performedBy: string) {
    t.productId == productId && t.kind == kind && t.quantity == quantity && t.reason == reason && t.performedBy == performedBy
  }

  /** `after` is `before` with exactly one entry appended, as described. */
  predicate AppendedOne(before: seq<StockTransaction>, after: seq<StockTransaction>,
                        productId: Id, kind: TransactionType, quantity: int, reason: string, performedBy: string) {
    |after| == |before| + 1 && after[..|before|] == before && Entry(after[|before|], productId, kind, quantity, reason, performedBy)
  }

  /** `after` is `before` with at most the product at `i` replaced. */
  predicate OnlyChanged(before: seq<Product>, after: seq<Product>, i: nat) {
    i < |before| && |after| == |before| && forall j :: 0 <= j < |before| && j != i ==> after[j] == before[j]
  }

  /** `RecordTransaction`: appends one entry stamped with a fresh id and the current time. */
  function RecordTransaction(s: Store, productId: Id, kind: TransactionType, quantity: int,
                             reason: string, performedBy: string): (r: Store)
    ensures r.products == s.products
    ensures AppendedOne(s.transactions, r.transactions, productId, kind, quantity, reason, performedBy)
    ensures r.transactions[|s.transactions|].transactionDate == s.clock && r.clock > s.clock && r.nextId > s.nextId
  {
    var t := StockTransaction(s.nextId, productId, kind, quantity, reason, s.clock, performedBy);
    assert (s.transactions + [t])[..|s.transactions|] == s.transactions;
    s.(transactions := s.transactions + [t], nextId := s.nextId + 1, clock := s.clock + 1)
  }

  /** `AddProduct`. */
  function AddProduct(s: Store, name: string, sku: string, category: string, price: real,
                      quantity: int, reorderLevel: int): (r: Step<Product>)
    // the guards, in the order the source checks them
    ensures IsBlank(name) ==> r.result == Err(EmptyName)
    ensures !IsBlank(name) && IsBlank(sku) ==> r.result == Err(EmptySku)
    ensures !IsBlank(name) && !IsBlank(sku) && price < 0.0 ==> r.result == Err(NegativePrice)
    ensures !IsBlank(name) && !IsBlank(sku) && price >= 0.0 && quantity < 0 ==> r.result == Err(NegativeQuantity)
    ensures !IsBlank(name) && !IsBlank(sku) && price >= 0.0 && quantity >= 0 && SkuTaken(s.products, sku)
            ==> r.result == Err(DuplicateSku(sku))
    // a rejection changes nothing, and a call passing every guard succeeds
    ensures r.result.Err? ==> r.after == s
    ensures r.result.Ok? <==> !IsBlank(name) && !IsBlank(sku) && price >= 0.0 && quantity >= 0 && !SkuTaken(s.products, sku)
    // only the duplicate SKU is an `InvalidOperationException`
    ensures (r.result.Err? && r.result.error.IsArgumentError()) <==> IsBlank(name) || IsBlank(sku) || price < 0.0 || quantity < 0
    // a success appends the product, and a ledger entry exactly when there is initial stock
    ensures r.result.Ok? ==>
      var p := r.result.value;
      && r.after.products == s.products + [p]
      && p.name == name && p.sku == sku && p.category == category && p.price == price
      && p.quantityInStock == quantity && p.reorderLevel == reorderLevel
      && !p.isDiscontinued && p.lastRestockedAt.None?
      && p.id == s.nextId && p.createdAt == s.clock
      && (quantity == 0 ==> r.after.transactions == s.transactions)
      && (quantity > 0 ==> AppendedOne(s.transactions, r.after.transactions, p.id, Restock, quantity, "Initial stock", "System"))
  {
    if IsBlank(name) then Step(Err(EmptyName), s)
    else if IsBlank(sku) then Step(Err(EmptySku), s)
    else if price < 0.0 then Step(Err(NegativePrice), s)
    else if quantity < 0 then Step(Err(NegativeQuantity), s)
    else if SkuTaken(s.products, sku) then Step(Err(DuplicateSku(sku)), s)
    else
      var p := Blank.(id := s.nextId, name := name, sku := sku, category := category, price := price,
                      quantityInStock := quantity, reorderLevel := reorderLevel, createdAt := s.clock);
      var added := s.(products := s.products + [p], nextId := s.nextId + 1, clock := s.clock + 1);
      if quantity > 0 then Step(Ok(p), RecordTransaction(added, p.id, Restock, quantity, "Initial stock", "System"))
      else Step(Ok(p), added)
  }

  /** `RestockProduct`. */
  function RestockProduct(s: Store, productId: Id, quantity: int, performedBy: string): (r: Step<()>)
    ensures quantity <= 0 ==> r.result == Err(NonPositiveQuantity)
    ensures quantity > 0 && productId !in Ids(s.products) ==> r.result == Err(ProductNotFound(productId))
    ensures quantity > 0 && FindProductById(s, productId).Some? && FindProductById(s, productId).value.isDiscontinued
            ==> r.result == Err(RestockDiscontinued)
    ensures r.result.Err? ==> r.after == s
    ensures r.result.Ok? <==> quantity > 0 && FindProductById(s, productId).Some? && !FindProductById(s, productId).value.isDiscontinued
    ensures (r.result.Err? && r.result.error.IsArgumentError()) <==> quantity <= 0
    ensures r.result.Ok? ==> IndexOfProduct(s.products, productId).Some?
    ensures r.result.Ok? ==> OnlyChanged(s.products, r.after.products, IndexOfProduct(s.products, productId).value)
    ensures r.result.Ok? ==>
      var i := IndexOfProduct(s.products, productId).value;
      var p := r.after.products[i];
      && p == s.products[i].(quantityInStock := s.products[i].quantityInStock + quantity, lastRestockedAt := Some(s.clock))
      && AppendedOne(s.transactions, r.after.transactions, productId, Restock, quantity, "Restock", performedBy)
  {
    if quantity <= 0 then Step(Err(NonPositiveQuantity), s)
    else match IndexOfProduct(s.products, productId)
      case None => Step(Err(ProductNotFound(productId)), s)
      case Some(i) =>
        var p := s.products[i];
        if p.isDiscontinued then Step(Err(RestockDiscontinued), s)
        else
          var p' := p.(quantityInStock := p.quantityInStock + quantity, lastRestockedAt := Some(s.clock));
          var changed := s.(products := s.products[i := p'], clock := s.clock + 1);
          Step(Ok(()), RecordTransaction(changed, productId, Restock, quantity, "Restock", performedBy))
  }

  /** `RecordSale`. */
  function RecordSale(s: Store, productId: Id, quantity: int, performedBy: string): (r: Step<()>)
    ensures quantity <= 0 ==> r.result == Err(NonPositiveQuantity)
    ensures quantity > 0 && productId !in Ids(s.products) ==> r.result == Err(ProductNotFound(productId))
    ensures quantity > 0 && FindProductById(s, productId).Some? && FindProductById(s, productId).value.quantityInStock < quantity
            ==> r.result == Err(InsufficientStock(FindProductById(s, productId).value.quantityInStock))
    ensures r.result.Err? ==> r.after == s
    // discontinued products can still be sold
    ensures r.result.Ok? <==> quantity > 0 && FindProductById(s, productId).Some?
                              && FindProductById(s, productId).value.quantityInStock >= quantity
    ensures (r.result.Err? && r.result.error.IsArgumentError()) <==> quantity <= 0
    ensures r.result.Ok? ==>
      var i := IndexOfProduct(s.products, productId).value;
      && OnlyChanged(s.products, r.after.products, i)
      && r.after.products[i] == s.products[i].(quantityInStock := s.products[i].quantityInStock - quantity)
      && r.after.products[i].quantityInStock >= 0
      && AppendedOne(s.transactions, r.after.transactions, productId, Sale, -quantity, "Sale", performedBy)
  {
    if quantity <= 0 then Step(Err(NonPositiveQuantity), s)
    else match IndexOfProduct(s.products, productId)
      case None => Step(Err(ProductNotFound(productId)), s)
      case Some(i) =>
        var p := s.products[i];
        if p.quantityInStock < quantity then Step(Err(InsufficientStock(p.quantityInStock)), s)
        else
          var changed := s.(products := s.products[i := p.(quantityInStock := p.quantityInStock - quantity)]);
          Step(Ok(()), RecordTransaction(changed, productId, Sale, -quantity, "Sale", performedBy))
  }

  /** `AdjustStock`. */
  function AdjustStock(s: Store, productId: Id, adjustment: int, reason: string, performedBy: string): (r: Step<()>)
    ensures productId !in Ids(s.products) ==> r.result == Err(ProductNotFound(productId))
    ensures FindProductById(s, productId).Some? && FindProductById(s, productId).value.quantityInStock + adjustment < 0
            ==> r.result == Err(NegativeStock)
    ensures r.result.Err? ==> r.after == s
    // both failures are `InvalidOperationException`s
    ensures r.result.Err? ==> !r.result.error.IsArgumentError()
    // zero adjustments and discontinued products are allowed
    ensures r.result.Ok? <==> FindProductById(s, productId).Some?
                              && FindProductById(s, productId).value.quantityInStock + adjustment >= 0
    ensures r.result.Ok? ==>
      var i := IndexOfProduct(s.products, productId).value;
      && OnlyChanged(s.products, r.after.products, i)
      && r.after.products[i] == s.products[i].(quantityInStock := s.products[i].quantityInStock + adjustment)
      && AppendedOne(s.transactions, r.after.transactions, productId, Adjustment, adjustment, reason, performedBy)
  {
    match IndexOfProduct(s.products, productId)
    case None => Step(Err(ProductNotFound(productId)), s)
    case Some(i) =>
      var p := s.products[i];
      var newQuantity := p.quantityInStock + adjustment;
      if newQuantity < 0 then Step(Err(NegativeStock), s)
      else
        var changed := s.(products := s.products[i := p.(quantityInStock := newQuantity)]);
        Step(Ok(()), RecordTransaction(changed, productId, Adjustment, adjustment, reason, performedBy))
  }

  /** `DiscontinueProduct`. */
  function DiscontinueProduct(s: Store, productId: Id): (r: Step<()>)
    ensures r.result.Err? <==> productId !in Ids(s.products)
    ensures r.result.Err? ==> r.result.error == ProductNotFound(productId) && r.after == s
    ensures r.result.Err? ==> !r.result.error.IsArgumentError()
    // only the flag changes: no stock, no ledger entry, no clock reading
    ensures r.result.Ok? ==>
      var i := IndexOfProduct(s.products, productId).value;
      && r.after == s.(products := r.after.products)
      && OnlyChanged(s.products, r.after.products, i)
      && r.after.products[i] == s.products[i].(isDiscontinued := true)
  {
    match IndexOfProduct(s.products, productId)
    case None => Step(Err(ProductNotFound(productId)), s)
    case Some(i) => Step(Ok(()), s.(products := s.products[i := s.products[i].(isDiscontinued := true)]))
  }

  // ---------------------------------------------------------------------------
  // Queries

  /** The order `OrderBy(p => p.Name)` sorts by. */
  function NameLe(a: Product, b: Product): bool {
    OrdinalLe(a.name, b.name)
  }

  /** The order `OrderBy(p => p.QuantityInStock)` sorts by. */
  function StockLe(a: Product, b: Product): bool {
    a.quantityInStock <= b.quantityInStock
  }

  lemma NameLeTotalPreorder()
    ensures TotalPreorder(NameLe)
  {
    forall a: Product, b: Product
      ensures NameLe(a, b) || NameLe(b, a)
    {
      OrdinalLeTotal(a.name, b.name);
    }
    forall a: Product, b: Product, c: Product | NameLe(a, b) && NameLe(b, c)
      ensures NameLe(a, c)
    {
      OrdinalLeTransitive(a.name, b.name, c.name);
    }
  }

  /** Sorts by name, with the facts about the result. */
  function SortByName(ps: seq<Product>): (r: seq<Product>)
    ensures multiset(r) == multiset(ps)
    ensures forall p :: p in r <==> p in ps
    ensures SortedBy(r, NameLe)
  {
    NameLeTotalPreorder();
    SortBySorted(ps, NameLe);
    var r := SortBy(ps, NameLe);
    assert forall p :: p in r <==> p in multiset(ps);
    r
  }

  /** `GetAllProducts`: every product, by name. */
  function GetAllProducts(s: Store): (r: seq<Product>)
    ensures multiset(r) == multiset(s.products)
    ensures SortedBy(r, NameLe)
  {
    SortByName(s.products)
  }

  function InCategory(category: string): Product -> bool {
    (p: Product) => EqualsIgnoreCase(p.category, category)
  }

  /** `GetProductsByCategory`: rejects a blank category; else the products of that category (ignoring case), by name. */
  function GetProductsByCategory(s: Store, category: string): (r: Result<seq<Product>, InventoryError>)
    ensures r.Err? <==> IsBlank(category)
    ensures r.Err? ==> r.error == EmptyCategory
    ensures r.Ok? ==> SortedBy(r.value, NameLe)
    ensures r.Ok? ==> forall p :: p in r.value <==> p in s.products && EqualsIgnoreCase(p.category, category)
    ensures r.Ok? ==> multiset(r.value) == multiset(Filter(s.products, InCategory(category)))
  {
    if IsBlank(category) then Err(EmptyCategory)
    else
      FilterMembers(s.products, InCategory(category));
      Ok(SortByName(Filter(s.products, InCategory(category))))
  }

  function NeedsReorderOf(p: Product): bool {
    p.NeedsReorder()
  }

  /** `GetProductsNeedingReorder`: exactly the products that need reorder, lowest stock first. */
  function GetProductsNeedingReorder(s: Store): (r: seq<Product>)
    ensures SortedBy(r, StockLe)
    ensures forall p :: p in r <==> p in s.products && p.NeedsReorder()
    ensures multiset(r) == multiset(Filter(s.products, NeedsReorderOf))
  {
    var due := Filter(s.products, NeedsReorderOf);
    FilterMembers(s.products, NeedsReorderOf);
    SortBySorted(due, StockLe);
    var r := SortBy(due, StockLe);
    assert forall p :: p in r <==> p in multiset(due);
    r
  }

  /** The search of `SearchProducts`: the term occurs, ignoring case, in the name, the SKU or the category. */
  predicate MatchesTerm(p: Product, term: string) {
    ContainsIgnoreCase(p.name, term) || ContainsIgnoreCase(p.sku, term) || ContainsIgnoreCase(p.category, term)
  }

  function Matching(term: string): Product -> bool {
    (p: Product) => MatchesTerm(p, term)
  }

  /** `SearchProducts`: nothing for a blank term; else every matching product, by name. */
  function SearchProducts(s: Store, term: string): (r: seq<Product>)
    ensures IsBlank(term) ==> r == []
    ensures !IsBlank(term) ==> SortedBy(r, NameLe)
    ensures !IsBlank(term) ==> forall p :: p in r <==> p in s.products && MatchesTerm(p, term)
    ensures !IsBlank(term) ==> multiset(r) == multiset(Filter(s.products, Matching(term)))
  {
    if IsBlank(term) then []
    else
      FilterMembers(s.products, Matching(term));
      SortByName(Filter(s.products, Matching(term)))
  }

  /** Strictly decreasing in time: `OrderByDescending(t => t.TransactionDate)` on a ledger with no ties. */
  predicate NewestFirst(ts: seq<StockTransaction>) {
    forall i, j :: 0 <= i < j < |ts| ==> ts[i].transactionDate > ts[j].transactionDate
  }

  function DateOf(t: StockTransaction): int {
    t.transactionDate
  }

  function ForProduct(productId: Id): StockTransaction -> bool {
    (t: StockTransaction) => t.productId == productId
  }

  /** `GetTransactionHistory`: the product's ledger entries, most recent first. */
  function GetTransactionHistory(s: Store, productId: Id): (r: seq<StockTransaction>)
    ensures forall t :: t in r <==> t in s.transactions && t.productId == productId
    ensures Chronological(s.transactions, s.clock) ==> NewestFirst(r)
  {
    var mine := Filter(s.transactions, ForProduct(productId));
    FilterMembers(s.transactions, ForProduct(productId));
    ReverseMembers(mine);
    if Chronological(s.transactions, s.clock) then
      assert StrictlyIncreasing(s.transactions, DateOf);
      SubsequenceIncreasing(mine, s.transactions, DateOf);
      Reverse(mine)
    else Reverse(mine)
  }

  /**
   * `GetRecentTransactions(count)`: the `count` most recent entries, newest
   * first (none when `count` is not positive: `Take`). The source's default
   * `count` of 10 is a call with `count == 10`.
   */
  function GetRecentTransactions(s: Store, count: int): (r: seq<StockTransaction>)
    ensures |r| == if count <= 0 then 0 else if count < |s.transactions| then count else |s.transactions|
    ensures forall i :: 0 <= i < |r| ==> r[i] == s.transactions[|s.transactions| - 1 - i]
    ensures Chronological(s.transactions, s.clock) ==> NewestFirst(r)
  {
    var newest := Reverse(s.transactions);
    if count <= 0 then [] else if count < |newest| then newest[..count] else newest
  }

  /** The value of `quantity` units at `price` each. */
  function Worth(price: real, quantity: int): real {
    price * (quantity as real)
  }

  /** The worth of a difference of quantities is the difference of the worths. */
  lemma WorthDifference(price: real, a: int, b: int)
    ensures Worth(price, a - b) == Worth(price, a) - Worth(price, b)
  {
    assert ((a - b) as real) == (a as real) - (b as real);
  }

  /** The value of one product's stock: its price times its quantity. */
  function ItemValue(p: Product): real {
    Worth(p.price, p.quantityInStock)
  }

  /** Total value of the stock: the sum of price times quantity. */
  function StockValue(ps: seq<Product>): real {
    if ps == [] then 0.0 else ItemValue(ps[0]) + StockValue(ps[1..])
  }

  /** Registering a product adds its value to the total. */
  lemma {:induction false} StockValueAppend(ps: seq<Product>, p: Product)
    ensures StockValue(ps + [p]) == StockValue(ps) + ItemValue(p)
  {
    if ps == [] {
      assert [] + [p] == [p];
    } else {
      assert (ps + [p])[1..] == ps[1..] + [p];
      StockValueAppend(ps[1..], p);
    }
  }

  /** Replacing one product changes the total by the difference of the two values. */
  lemma {:induction false} StockValueUpdate(ps: seq<Product>, i: nat, p: Product)
    requires i < |ps|
    ensures StockValue(ps[i := p]) == StockValue(ps) - ItemValue(ps[i]) + ItemValue(p)
  {
    if i == 0 {
      assert ps[i := p][1..] == ps[1..];
    } else {
      assert ps[i := p][1..] == ps[1..][i - 1 := p];
      StockValueUpdate(ps[1..], i - 1, p);
    }
  }

  lemma {:induction false} StockValueNonNegative(ps: seq<Product>)
    requires NonNegativeStock(ps) && NonNegativePrices(ps)
    ensures StockValue(ps) >= 0.0
  {
    if ps != [] {
      StockValueNonNegative(ps[1..]);
      var p := ps[0];
      assert p.price >= 0.0 && p.quantityInStock as real >= 0.0;
      assert ItemValue(p) >= 0.0;
    }
  }

  function IsDiscontinuedOf(p: Product): bool {
    p.isDiscontinued
  }

  /** `GetSummary`. */
  function GetSummary(s: Store): (r: InventorySummary)
    ensures r.totalProducts == |s.products| && r.totalTransactions == |s.transactions|
    // the counts are the numbers of positions holding such a product
    ensures r.productsNeedingReorder == |Positions(s.products, NeedsReorderOf)|
    ensures r.discontinuedProducts == |Positions(s.products, IsDiscontinuedOf)|
    ensures r.totalValue == StockValue(s.products)
    ensures r.productsNeedingReorder + r.discontinuedProducts <= r.totalProducts
    ensures NonNegativeStock(s.products) && NonNegativePrices(s.products) ==> r.totalValue >= 0.0
  {
    CountDisjoint(s.products, NeedsReorderOf, IsDiscontinuedOf);
    CountPositions(s.products, NeedsReorderOf);
    CountPositions(s.products, IsDiscontinuedOf);
    if NonNegativeStock(s.products) && NonNegativePrices(s.products) then
      StockValueNonNegative(s.products);
      Summarize(s)
    else Summarize(s)
  }

  function Summarize(s: Store): InventorySummary {
    InventorySummary(
      |s.products|,
      StockValue(s.products),
      Count(s.products, NeedsReorderOf),
      Count(s.products, IsDiscontinuedOf),
      |s.transactions|)
  }
}
