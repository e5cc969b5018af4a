/**
 * The invariant of the inventory is established by the constructor and kept
 * by every operation; the ledger is append-only; discontinuation is permanent
 * and bars every later restock.
 */
module InventoryInvariants {
  import opened Wrappers
  import opened Identity
  import opened Text
  import opened Seqs
  import opened Products
  import opened Transactions
  import opened Inventory

  /** Appending an entry adds its delta to the sum of the product it is about, and nothing to the others. */
  lemma {:induction false} DeltaAppend(ts: seq<StockTransaction>, t: StockTransaction, id: Id)
    ensures Delta(ts + [t], id) == Delta(ts, id) + (if t.productId == id then t.quantity else 0)
  {
    if ts == [] {
      assert [] + [t] == [t];
    } else {
      assert (ts + [t])[1..] == ts[1..] + [t];
      DeltaAppend(ts[1..], t, id);
    }
  }

  /** A product no entry refers to has a zero sum. */
  lemma {:induction false} DeltaAbsent(ts: seq<StockTransaction>, id: Id)
    requires forall k :: 0 <= k < |ts| ==> ts[k].productId != id
    ensures Delta(ts, id) == 0
  {
    if ts != [] {
      assert forall k :: 0 <= k < |ts| - 1 ==> ts[1..][k] == ts[k + 1];
      DeltaAbsent(ts[1..], id);
    }
  }

  /** The seeded SKUs differ ignoring case. */
  lemma SeedSkusDistinct()
    ensures DistinctSkus(Seed())
  {
    var ps := Seed();
    assert Fold(ps[0].sku)[6..] == "01" && Fold(ps[1].sku)[6..] == "02";
    assert Fold(ps[0].sku)[0] == 'E' && Fold(ps[2].sku)[0] == 'F';
    assert Fold(ps[1].sku)[0] == 'E';
  }

  /** The seeded store satisfies the invariant. */
  lemma InitialValid()
    ensures Valid(Initial())
  {
    var ps := Seed();
    SeedSkusDistinct();
    assert |ps| == 3 && ps[0].id == 1 && ps[1].id == 2 && ps[2].id == 3;
    assert forall i :: 0 <= i < |ps| ==> ps[i].id == i + 1;
  }

  /**
   * Replacing product `i` of `ps` by one with the same id, SKU and price keeps
   * the ids, the distinct SKUs and the non-negative prices, and keeps the stock
   * non-negative when the new stock is.
   */
  lemma UpdateKeepsRegistry(ps: seq<Product>, qs: seq<Product>, i: nat)
    requires OnlyChanged(ps, qs, i)
    requires qs[i].id == ps[i].id && qs[i].sku == ps[i].sku && qs[i].price == ps[i].price
    ensures Ids(qs) == Ids(ps)
    ensures forall j :: 0 <= j < |qs| ==> qs[j].id == ps[j].id
    ensures NonNegativePrices(ps) ==> NonNegativePrices(qs)
    ensures DistinctSkus(ps) ==> DistinctSkus(qs)
    ensures NonNegativeStock(ps) && qs[i].quantityInStock >= 0 ==> NonNegativeStock(qs)
  {
    assert forall j :: 0 <= j < |qs| ==> Fold(qs[j].sku) == Fold(ps[j].sku);
  }

  /** Appending an entry stamped no earlier than the clock, and advancing the clock past it, keeps the ledger chronological. */
  lemma AppendKeepsChronological(ts: seq<StockTransaction>, clock: Time, t: StockTransaction, clock': Time)
    requires Chronological(ts, clock) && t.transactionDate >= clock && clock' > t.transactionDate
    ensures Chronological(ts + [t], clock')
  {
  }

  /** Appending an entry about `ps[i]` whose delta is the change in its stock keeps every product balanced. */
  lemma AppendKeepsBalanced(ps: seq<Product>, ts: seq<StockTransaction>, qs: seq<Product>, i: nat, t: StockTransaction)
    requires OnlyChanged(ps, qs, i) && qs[i].id == ps[i].id
    requires forall j, k :: 0 <= j < k < |ps| ==> ps[j].id != ps[k].id
    requires t.productId == ps[i].id && qs[i].quantityInStock == ps[i].quantityInStock + t.quantity
    requires forall j :: 0 <= j < |ps| ==>
      ps[j].quantityInStock == OpeningBalance(ps[j].id) + Delta(ts, ps[j].id)
    ensures forall j :: 0 <= j < |qs| ==>
      qs[j].quantityInStock == OpeningBalance(qs[j].id) + Delta(ts + [t], qs[j].id)
  {
    forall j | 0 <= j < |qs|
      ensures qs[j].quantityInStock == OpeningBalance(qs[j].id) + Delta(ts + [t], qs[j].id)
    {
      DeltaAppend(ts, t, qs[j].id);
    }
  }

  /**
   * The shared last step of restock, sale and adjustment: a store `r` that
   * replaces product `i` by one differing only in stock (and restock date), with
   * the new stock non-negative, and appends one entry recording the change,
   * stamped no earlier than the clock, keeps the invariant.
   */
  lemma StockChangeKeepsValid(s: Store, r: Store, i: nat)
    requires Valid(s)
    requires OnlyChanged(s.products, r.products, i)
    requires var p, q := s.products[i], r.products[i];
      q.id == p.id && q.sku == p.sku && q.price == p.price && q.quantityInStock >= 0
    requires |r.transactions| == |s.transactions| + 1 && r.transactions[..|s.transactions|] == s.transactions
    requires var t := r.transactions[|s.transactions|];
      && t.productId == s.products[i].id
      && r.products[i].quantityInStock == s.products[i].quantityInStock + t.quantity
      && t.transactionDate >= s.clock && r.clock > t.transactionDate
    requires r.nextId >= s.nextId
    ensures Valid(r)
  {
    var t := r.transactions[|s.transactions|];
    assert r.transactions == s.transactions + [t];
    UpdateKeepsRegistry(s.products, r.products, i);
    AppendKeepsChronological(s.transactions, s.clock, t, r.clock);
    AppendKeepsBalanced(s.products, s.transactions, r.products, i, t);
    assert FreshIds(r);
    assert LedgerRefersToRegistry(r) by {
      assert Ids(r.products)[i] == t.productId;
    }
  }

  lemma RestockKeepsValid(s: Store, productId: Id, quantity: int, performedBy: string)
    requires Valid(s)
    ensures Valid(RestockProduct(s, productId, quantity, performedBy).after)
  {
    if RestockProduct(s, productId, quantity, performedBy).result.Ok? {
      assert quantity > 0;
      var i := IndexOfProduct(s.products, productId).value;
      var p := s.products[i];
      assert !p.isDiscontinued;
      var p' := p.(quantityInStock := p.quantityInStock + quantity, lastRestockedAt := Some(s.clock));
      var changed := s.(products := s.products[i := p'], clock := s.clock + 1);
      var r := RecordTransaction(changed, productId, Restock, quantity, "Restock", performedBy);
      assert RestockProduct(s, productId, quantity, performedBy).after == r;
      StockChangeKeepsValid(s, r, i);
    }
  }

  lemma SaleKeepsValid(s: Store, productId: Id, quantity: int, performedBy: string)
    requires Valid(s)
    ensures Valid(RecordSale(s, productId, quantity, performedBy).after)
  {
    if RecordSale(s, productId, quantity, performedBy).result.Ok? {
      var i := IndexOfProduct(s.products, productId).value;
      var p := s.products[i];
      var changed := s.(products := s.products[i := p.(quantityInStock := p.quantityInStock - quantity)]);
      var r := RecordTransaction(changed, productId, Sale, -quantity, "Sale", performedBy);
      assert RecordSale(s, productId, quantity, performedBy).after == r;
      StockChangeKeepsValid(s, r, i);
    }
  }

  lemma AdjustKeepsValid(s: Store, productId: Id, adjustment: int, reason: string, performedBy: string)
    requires Valid(s)
    ensures Valid(AdjustStock(s, productId, adjustment, reason, performedBy).after)
  {
    if AdjustStock(s, productId, adjustment, reason, performedBy).result.Ok? {
      var i := IndexOfProduct(s.products, productId).value;
      var p := s.products[i];
      var changed := s.(products := s.products[i := p.(quantityInStock := p.quantityInStock + adjustment)]);
      var r := RecordTransaction(changed, productId, Adjustment, adjustment, reason, performedBy);
      assert AdjustStock(s, productId, adjustment, reason, performedBy).after == r;
      StockChangeKeepsValid(s, r, i);
    }
  }

  lemma DiscontinueKeepsValid(s: Store, productId: Id)
    requires Valid(s)
    ensures Valid(DiscontinueProduct(s, productId).after)
  {
    var r := DiscontinueProduct(s, productId).after;
    assert Ids(r.products) == Ids(s.products);
  }

  /** Every conjunct of `Valid` but the ledger balance, which holds for all products but `except`. */
  predicate ValidBut(s: Store, except: Id) {
    && NonNegativeStock(s.products)
    && NonNegativePrices(s.products)
    && DistinctSkus(s.products)
    && FreshIds(s)
    && Chronological(s.transactions, s.clock)
    && LedgerRefersToRegistry(s)
    && forall i :: 0 <= i < |s.products| && s.products[i].id != except ==>
         s.products[i].quantityInStock == OpeningBalance(s.products[i].id) + Delta(s.transactions, s.products[i].id)
  }

  /**
   * Registering a fresh product with an unused SKU keeps the invariant for
   * every other product; the new one opens at zero with no ledger entry yet.
   */
  lemma RegisterKeepsValid(s: Store, p: Product)
    requires Valid(s)
    requires p.id == s.nextId && p.quantityInStock >= 0 && p.price >= 0.0 && !SkuTaken(s.products, p.sku)
    ensures ValidBut(Store(s.products + [p], s.transactions, s.nextId + 1, s.clock + 1), p.id)
    ensures p.id !in Ids(s.products) && OpeningBalance(p.id) == 0 && Delta(s.transactions, p.id) == 0
  {
    var added := Store(s.products + [p], s.transactions, s.nextId + 1, s.clock + 1);
    assert forall k :: 0 <= k < |s.transactions| ==> s.transactions[k].productId != p.id;
    DeltaAbsent(s.transactions, p.id);
    AppendKeepsDistinctSkus(s.products, p);
    AppendKeepsRegistry(s.products, p);
  }

  /** Appending a product keeps the earlier ones in place, adds its id, and keeps stock and prices non-negative when its own are. */
  lemma AppendKeepsRegistry(ps: seq<Product>, p: Product)
    ensures forall k :: 0 <= k < |ps| ==> (ps + [p])[k] == ps[k]
    ensures Ids(ps + [p]) == Ids(ps) + [p.id]
    ensures NonNegativeStock(ps) && p.quantityInStock >= 0 ==> NonNegativeStock(ps + [p])
    ensures NonNegativePrices(ps) && p.price >= 0.0 ==> NonNegativePrices(ps + [p])
  {
  }

  /** Appending a product whose SKU no product has (ignoring case) keeps the SKUs distinct. */
  lemma AppendKeepsDistinctSkus(ps: seq<Product>, p: Product)
    requires DistinctSkus(ps) && !SkuTaken(ps, p.sku)
    ensures DistinctSkus(ps + [p])
  {
    var qs := ps + [p];
    forall i, j | 0 <= i < j < |qs|
      ensures Fold(qs[i].sku) != Fold(qs[j].sku)
    {
      if j == |ps| {
        assert !EqualsIgnoreCase(ps[i].sku, p.sku);
      }
    }
  }

  /** Recording the registered product's initial stock restores the balance for it and keeps it for the rest. */
  lemma InitialStockKeepsValid(s: Store, quantity: int)
    requires s.products != [] && ValidBut(s, s.products[|s.products| - 1].id)
    requires var p := s.products[|s.products| - 1];
      p.quantityInStock == quantity && OpeningBalance(p.id) == 0 && Delta(s.transactions, p.id) == 0
    ensures Valid(RecordTransaction(s, s.products[|s.products| - 1].id, Restock, quantity, "Initial stock", "System"))
  {
    var p := s.products[|s.products| - 1];
    var r := RecordTransaction(s, p.id, Restock, quantity, "Initial stock", "System");
    var t := r.transactions[|s.transactions|];
    assert r.transactions == s.transactions + [t];
    assert Ids(s.products)[|s.products| - 1] == p.id;
    forall j | 0 <= j < |r.products|
      ensures r.products[j].quantityInStock == OpeningBalance(r.products[j].id) + Delta(r.transactions, r.products[j].id)
    {
      DeltaAppend(s.transactions, t, r.products[j].id);
    }
    assert LedgerBalanced(r);
  }

  /**
   * `AddProduct` keeps the invariant, and the product it creates has an id no
   * other product has, is not `Guid.Empty`, and opens at zero: its stock is the
   * sum of its own ledger entries.
   */
  lemma AddProductKeepsValid(s: Store, name: string, sku: string, category: string, price: real,
                             quantity: int, reorderLevel: int)
    requires Valid(s)
    ensures var r := AddProduct(s, name, sku, category, price, quantity, reorderLevel);
      && Valid(r.after)
      && (r.result.Ok? ==> r.result.value.id !in Ids(s.products) && r.result.value.id != EmptyId
                           && OpeningBalance(r.result.value.id) == 0
                           && r.result.value.quantityInStock == Delta(r.after.transactions, r.result.value.id))
  {
    var r := AddProduct(s, name, sku, category, price, quantity, reorderLevel);
    if r.result.Ok? {
      var p := r.result.value;
      assert p.id == s.nextId && p.sku == sku;
      var added := Store(s.products + [p], s.transactions, s.nextId + 1, s.clock + 1);
      RegisterKeepsValid(s, p);
      if quantity > 0 {
        assert r.after == RecordTransaction(added, p.id, Restock, quantity, "Initial stock", "System");
        InitialStockKeepsValid(added, quantity);
        var t := r.after.transactions[|s.transactions|];
        assert r.after.transactions == s.transactions + [t];
        DeltaAppend(s.transactions, t, p.id);
      } else {
        assert r.after == added;
        assert LedgerBalanced(added);
      }
    }
  }
}
