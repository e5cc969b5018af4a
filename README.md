# AgentWorkshop brownfield services in Dafny

A model of the two in-memory services of the AgentWorkshop brownfield samples, with proofs about them.

**LegacyInventory.** `InventoryService` keeps a product registry and an append-only stock ledger.
- Every stock change (restock, sale, adjustment, and the initial stock of a new product) updates one product and appends one `StockTransaction`.
- Discontinuing a product sets its flag, and from then on restocking that product is refused.
- There are queries for:
  - the catalog by name;
  - a category;
  - the reorder report;
  - SKU and id lookup;
  - search;
  - per-product history;
  - recent transactions;
  - the summary.

**BookLibrary.** `BookService` keeps a list of books. Books can be added, checked out, returned and removed. They can be searched by title or author, looked up by id, and the checked-out books can be listed.

Each service is modelled twice:
- **As values.** A state datatype holds the service's lists, plus the counter and the clock that stand for `Guid.NewGuid` and `DateTime.Now`/`UtcNow`.
  - The inventory state is `Inventory.Store`; the library state is `Library.Catalog`.
  - Every mutating operation is a function from one state to a `Step`. A `Step` carries the result (or the exception, as an error value) and the state left behind.
  - Every query is a function of the state.
  - The invariant (`Inventory.Valid`, `Library.Valid`) is proved to hold initially and to be kept by every operation, and so by any sequence of operations.
- **As a class.** `InventoryServices.InventoryService` and `LibraryServices.BookService` hold the lists as fields that their methods update in place. Each method is proved to produce exactly the step function's result and state, and to keep the invariant.

The main properties proved:
- **Stock.** Stock is never negative. Every product's stock equals its opening balance plus the sum of its ledger deltas. Entries are in strictly increasing time order.
- **Registry.** SKUs are unique ignoring case. Ids are unique and fresh.
- **Append-only.** The ledger only grows. Products are never removed. Only a product's stock, restock date and discontinued flag ever change.
- **Discontinuation.** It is idempotent and permanent, and it bars every later restock.
- **Rejections.** A rejected operation changes nothing.
- **Library invariant.** A book has a borrower and a checkout date exactly when it is checked out, and no operation ever produces `Reserved`.
- **Library round trips.** Checkout-then-return restores the list. Removal drops exactly that one book. A book just added is found by id and by search.

Conventions used by the model:
- **Identifiers.** A `Guid` is a natural number taken from a counter. Id 0 stands for `Guid.Empty` and is never issued.
- **Time.** `DateTime.Now` and `DateTime.UtcNow` read a logical clock that advances on every reading. So ledger dates strictly increase, and "newest first" is the reverse of append order.
- **Case.** `StringComparison.OrdinalIgnoreCase` compares after mapping ASCII `a`–`z` to upper case (`Text.Fold`).
- **Blank strings.** `string.IsNullOrWhiteSpace` holds for a string made only of characters from a fixed white-space set (`Text.IsBlank`).
- **Ordering.** `OrderBy(p => p.Name)` sorts by the ordinal order of characters (`Text.OrdinalLe`). The sort is an insertion sort proved to return a sorted permutation.
- **Numbers.** `decimal` is `real`, and `int` is an unbounded integer.
- **Exceptions.** A thrown exception is an `Err` value naming the failed guard. `IsArgumentError` tells `ArgumentException` apart from `InvalidOperationException`.

Facts about the code that shape the model:
- **AdjustStock's error.** A rejected `AdjustStock` carries no available quantity, because its message has none (`InventoryService.cs:191`). `RecordSale`'s message does include it (`InventoryService.cs:176`), so its error carries the available stock.
- **Opening balances.** The three seeded products get no ledger entry (`InventoryService.cs:20-57`). A product from `AddProduct` gets its initial stock as a ledger entry (`InventoryService.cs:93-96`).
  - So the ledger-balance invariant is "stock = opening balance + sum of deltas".
  - The opening balance is the seed quantity for a seeded product, and 0 for one that was added (`Inventory.OpeningBalance`).
- **Duplicate ISBNs.** `AddBook` accepts an ISBN already in the list (`BookService.cs:15-38` has no ISBN check).
- **Discontinued products.** Sales and adjustments on a discontinued product are allowed. Only restock checks the flag (`InventoryService.cs:157-158`).

## Model

| member | source | states |
|---|---|---|
| Inventory.IndexOfProduct | 02-brownfield/LegacyInventory/Services/InventoryService.cs:131-134 | the position found holds the id and no earlier product has it; none exactly when the id is absent |
| Inventory.FindProductById | 02-brownfield/LegacyInventory/Services/InventoryService.cs:131-134 | a product is found exactly when its id is registered, and it is a registered product with that id |
| Inventory.FindProductBySku | 02-brownfield/LegacyInventory/Services/InventoryService.cs:123-129 | null for a blank SKU; otherwise a product is found exactly when some SKU equals it ignoring case, and the found product is a registered one whose SKU equals it ignoring case |
| Inventory.RecordTransaction | 02-brownfield/LegacyInventory/Services/InventoryService.cs:245-257 | appends exactly one entry with the given product, kind, delta, reason and performer, stamped with the current time; the products are untouched and the clock and id counter advance |
| Inventory.AddProduct | 02-brownfield/LegacyInventory/Services/InventoryService.cs:60-99 | each guard (blank name, blank SKU, negative price, negative quantity, SKU taken ignoring case) rejects in source order and changes nothing; the call succeeds exactly when every guard passes; the error is an argument error exactly for the first four guards; success appends the product with the given fields, a fresh id and the current time as creation date, not discontinued, never restocked, and an "Initial stock"/"System" Restock entry exactly when quantity > 0 |
| Inventory.RestockProduct | 02-brownfield/LegacyInventory/Services/InventoryService.cs:148-164 | non-positive quantity (the only argument error), unknown id and a discontinued product are rejected in that order with no change; the call succeeds exactly for a positive quantity and a registered, carried product; success adds the quantity to that one product, sets its restock date to the current time and appends one Restock entry |
| Inventory.RecordSale | 02-brownfield/LegacyInventory/Services/InventoryService.cs:166-181 | succeeds exactly when quantity > 0, the id is known and stock >= quantity (selling all is allowed); the shortfall error carries the available stock; only a non-positive quantity is an argument error; success subtracts from that one product and appends a Sale entry with delta -quantity |
| Inventory.AdjustStock | 02-brownfield/LegacyInventory/Services/InventoryService.cs:183-196 | succeeds exactly when the id is known and stock + adjustment >= 0; neither failure is an argument error; success sets that one product's stock and appends an Adjustment entry with the given reason |
| Inventory.DiscontinueProduct | 02-brownfield/LegacyInventory/Services/InventoryService.cs:198-205 | fails exactly for an unknown id, with no argument error; otherwise only that product's flag is set: no stock change, no ledger entry |
| Inventory.NameLeTotalPreorder | 02-brownfield/LegacyInventory/Services/InventoryService.cs:103 | the name order used by OrderBy is total and transitive |
| Inventory.SortByName | 02-brownfield/LegacyInventory/Services/InventoryService.cs:103 | the result is a permutation of the input, sorted by name |
| Inventory.GetAllProducts | 02-brownfield/LegacyInventory/Services/InventoryService.cs:101-104 | every product exactly once (same multiset), sorted by name |
| Inventory.GetProductsByCategory | 02-brownfield/LegacyInventory/Services/InventoryService.cs:106-114 | rejects exactly a blank category; else the products whose category equals it ignoring case, each as often as in the registry, sorted by name |
| Inventory.GetProductsNeedingReorder | 02-brownfield/LegacyInventory/Services/InventoryService.cs:116-121 | exactly the products that need reorder, each as often as in the registry, lowest stock first |
| Inventory.SearchProducts | 02-brownfield/LegacyInventory/Services/InventoryService.cs:136-146 | empty for a blank term; else exactly the products whose name, SKU or category contains the term ignoring case, sorted by name |
| Inventory.GetTransactionHistory | 02-brownfield/LegacyInventory/Services/InventoryService.cs:207-212 | exactly the product's ledger entries, in strictly decreasing date order on a chronological ledger |
| Inventory.GetRecentTransactions | 02-brownfield/LegacyInventory/Services/InventoryService.cs:214-219 | min(count, ledger size) entries (none for count <= 0), the i-th being the i-th newest |
| Inventory.StockValueNonNegative | 02-brownfield/LegacyInventory/Services/InventoryService.cs:238 | with non-negative prices and stock, the total value is non-negative |
| Inventory.StockValueAppend | 02-brownfield/LegacyInventory/Services/InventoryService.cs:238 | registering a product adds its price times stock to the total value |
| Inventory.StockValueUpdate | 02-brownfield/LegacyInventory/Services/InventoryService.cs:238 | replacing one product changes the total value by the difference of the two products' values |
| Inventory.GetSummary | 02-brownfield/LegacyInventory/Services/InventoryService.cs:233-243 | product and transaction counts are the list sizes; the reorder count is the number of positions holding a product that needs reorder, the discontinued count the number holding a discontinued one, and the two sum to at most the product count; the total value is the sum of price times stock, non-negative when stock and prices are |
| InventoryInvariants.DeltaAppend | 02-brownfield/LegacyInventory/Services/InventoryService.cs:245-257 | appending an entry adds its delta to its own product's sum and nothing to any other's |
| InventoryInvariants.DeltaAbsent | 02-brownfield/LegacyInventory/Services/InventoryService.cs:245-257 | a product with no entries has delta sum 0 |
| InventoryInvariants.SeedSkusDistinct | 02-brownfield/LegacyInventory/Services/InventoryService.cs:20-57 | the three seeded SKUs are distinct ignoring case |
| InventoryInvariants.InitialValid | 02-brownfield/LegacyInventory/Services/InventoryService.cs:14-57 | the seeded store satisfies the invariant |
| InventoryInvariants.UpdateKeepsRegistry | 02-brownfield/LegacyInventory/Services/InventoryService.cs:160-161 | replacing one product by one with the same id, SKU and price keeps ids, prices, SKU uniqueness and non-negative stock |
| InventoryInvariants.AppendKeepsChronological | 02-brownfield/LegacyInventory/Services/InventoryService.cs:254 | an entry stamped at the current time keeps the ledger in strictly increasing time order |
| InventoryInvariants.AppendKeepsBalanced | 02-brownfield/LegacyInventory/Services/InventoryService.cs:160-163 | changing one product's stock by exactly the delta of the appended entry keeps every product balanced against the ledger |
| InventoryInvariants.StockChangeKeepsValid | 02-brownfield/LegacyInventory/Services/InventoryService.cs:148-196 | a one-product stock change plus its matching ledger entry keeps the whole invariant |
| InventoryInvariants.RestockKeepsValid | 02-brownfield/LegacyInventory/Services/InventoryService.cs:148-164 | RestockProduct keeps the invariant |
| InventoryInvariants.SaleKeepsValid | 02-brownfield/LegacyInventory/Services/InventoryService.cs:166-181 | RecordSale keeps the invariant (stock stays non-negative) |
| InventoryInvariants.AdjustKeepsValid | 02-brownfield/LegacyInventory/Services/InventoryService.cs:183-196 | AdjustStock keeps the invariant |
| InventoryInvariants.DiscontinueKeepsValid | 02-brownfield/LegacyInventory/Services/InventoryService.cs:198-205 | DiscontinueProduct keeps the invariant |
| InventoryInvariants.RegisterKeepsValid | 02-brownfield/LegacyInventory/Services/InventoryService.cs:78-90 | registering a product with a fresh id and an untaken SKU keeps everything but its own balance, and it has no ledger history yet |
| InventoryInvariants.AppendKeepsRegistry | 02-brownfield/LegacyInventory/Services/InventoryService.cs:90 | appending a product keeps the earlier ones and their ids, and non-negative stock and prices |
| InventoryInvariants.AppendKeepsDistinctSkus | 02-brownfield/LegacyInventory/Services/InventoryService.cs:74-76 | a product whose SKU is untaken ignoring case keeps the SKUs distinct |
| InventoryInvariants.InitialStockKeepsValid | 02-brownfield/LegacyInventory/Services/InventoryService.cs:92-96 | the "Initial stock" entry balances the new product |
| InventoryInvariants.AddProductKeepsValid | 02-brownfield/LegacyInventory/Services/InventoryService.cs:60-99 | AddProduct keeps the invariant |
| InventoryProperties.ApplyKeepsValid | 02-brownfield/LegacyInventory/Services/InventoryService.cs:60-205 | any one mutating call, accepted or rejected, keeps the invariant |
| InventoryProperties.RunKeepsValid | 02-brownfield/LegacyInventory/Services/InventoryService.cs:60-205 | any sequence of mutating calls keeps the invariant |
| InventoryProperties.ReachableValid | 02-brownfield/LegacyInventory/Services/InventoryService.cs:14-205 | every store reachable from construction satisfies the invariant |
| InventoryProperties.ExtendsTransitive | 02-brownfield/LegacyInventory/Services/InventoryService.cs:11-12 | "the ledger is a prefix and each product is the same product" composes |
| InventoryProperties.ApplyExtends | 02-brownfield/LegacyInventory/Services/InventoryService.cs:60-205 | one call only appends to the ledger and registry and changes a product only in stock, restock date or discontinued flag, never undiscontinuing |
| InventoryProperties.RunExtends | 02-brownfield/LegacyInventory/Services/InventoryService.cs:60-205 | the same for any sequence of calls: the ledger is append-only and no product is removed |
| InventoryProperties.IndexStable | 02-brownfield/LegacyInventory/Services/InventoryService.cs:131-134 | lookup by id finds the same position after products are changed in place or appended |
| InventoryProperties.DiscontinuedPersists | 02-brownfield/LegacyInventory/Services/InventoryService.cs:198-205 | a discontinued product stays registered and discontinued after any sequence of calls |
| InventoryProperties.DiscontinueBarsRestock | 02-brownfield/LegacyInventory/Services/InventoryService.cs:157-158 | after a product is discontinued, every later restock of it fails, whatever happens in between |
| InventoryProperties.DiscontinueIdempotent | 02-brownfield/LegacyInventory/Services/InventoryService.cs:198-205 | discontinuing twice gives the same result and state as once |
| InventoryProperties.OnlyOneWithId | 02-brownfield/LegacyInventory/Services/InventoryService.cs:131-134 | in a valid store an id picks out one product |
| InventoryProperties.RestockClearsReorder | 02-brownfield/LegacyInventory/Services/InventoryService.cs:116-121 | a restock that lifts stock above the reorder level removes the product from the reorder report |
| InventoryProperties.SaleRaisesReorder | 02-brownfield/LegacyInventory/Services/InventoryService.cs:116-121 | a sale leaving a carried product at or below its reorder level puts it on the reorder report |
| InventoryProperties.AddThenFindBySku | 02-brownfield/LegacyInventory/Tests/InventoryServiceTests.cs:172-186 | a product just added is found by its SKU in any letter case |
| InventoryProperties.AddThenFindById | 02-brownfield/LegacyInventory/Services/InventoryService.cs:131-134 | a product just added is found by its id |
| InventoryProperties.DuplicateSkuRejected | 02-brownfield/LegacyInventory/Tests/InventoryServiceTests.cs:69-78 | a second product whose SKU equals an added one's ignoring case is rejected as a duplicate |
| InventoryProperties.HistoryOfTwo | 02-brownfield/LegacyInventory/Services/InventoryService.cs:207-212 | a product whose only entries are the last two has those as history, newest first |
| InventoryProperties.RestockAfterAdd | 02-brownfield/LegacyInventory/Tests/InventoryServiceTests.cs:249-263 | restocking a product just added succeeds and its stock is the initial quantity plus the restock |
| InventoryProperties.AddThenRestock | 02-brownfield/LegacyInventory/Services/InventoryService.cs:60-164 | add with stock q then restock k: stock q + k and history exactly [restock k, initial q] |
| InventoryProperties.SummaryAfterAdd | 02-brownfield/LegacyInventory/Services/InventoryService.cs:233-243 | after an add the summary counts one more product, its value grows by price times quantity, and it counts one more entry exactly when the initial quantity is positive |
| InventoryProperties.SummaryAfterSale | 02-brownfield/LegacyInventory/Services/InventoryService.cs:233-243 | after a sale the product count is unchanged, the value drops by the product's price times the quantity sold, and one more entry is counted |
| InventoryServices.InventoryService.constructor | 02-brownfield/LegacyInventory/Services/InventoryService.cs:14-57 | the new service holds the seed and an empty ledger, and is valid |
| InventoryServices.InventoryService.NewGuid | 02-brownfield/LegacyInventory/Services/InventoryService.cs:80 | returns the counter and advances it; nothing else changes |
| InventoryServices.InventoryService.Now | 02-brownfield/LegacyInventory/Services/InventoryService.cs:254 | returns the clock and advances it; nothing else changes |
| InventoryServices.InventoryService.RecordTransaction | 02-brownfield/LegacyInventory/Services/InventoryService.cs:245-257 | the new state is Inventory.RecordTransaction of the old |
| InventoryServices.InventoryService.AddProduct | 02-brownfield/LegacyInventory/Services/InventoryService.cs:60-99 | result and new state are Inventory.AddProduct's; the invariant is kept |
| InventoryServices.InventoryService.RestockProduct | 02-brownfield/LegacyInventory/Services/InventoryService.cs:148-164 | result and new state are Inventory.RestockProduct's; the invariant is kept |
| InventoryServices.InventoryService.RecordSale | 02-brownfield/LegacyInventory/Services/InventoryService.cs:166-181 | result and new state are Inventory.RecordSale's; the invariant is kept |
| InventoryServices.InventoryService.AdjustStock | 02-brownfield/LegacyInventory/Services/InventoryService.cs:183-196 | result and new state are Inventory.AdjustStock's; the invariant is kept |
| InventoryServices.InventoryService.DiscontinueProduct | 02-brownfield/LegacyInventory/Services/InventoryService.cs:198-205 | result and new state are Inventory.DiscontinueProduct's; the invariant is kept |
| Products.NeedsReorderFacts | 02-brownfield/LegacyInventory/Models/Product.cs:19 | at the reorder level a carried product needs reorder; a discontinued one never does; stock above the level clears it; lowering stock keeps it |
| Library.IndexOfBook | 02-brownfield/BookLibrary/Services/BookService.cs:79-82 | the position found holds the id and no earlier book has it; none exactly when the id is absent |
| Library.GetBookById | 02-brownfield/BookLibrary/Services/BookService.cs:79-82 | a book is found exactly when its id is present, and it is a listed book with that id |
| Library.AddBook | 02-brownfield/BookLibrary/Services/BookService.cs:15-38 | blank title, author and ISBN are rejected in that order with no change, each as an argument error; success exactly otherwise, appending an Available book with the given fields and no borrower or checkout date |
| Library.CheckoutBook | 02-brownfield/BookLibrary/Services/BookService.cs:87-102 | unknown id, a book not Available, then a blank borrower are rejected in that order with no change, only the last being an argument error; success changes only that book: CheckedOut, the borrower, the current time as checkout date |
| Library.ReturnBook | 02-brownfield/BookLibrary/Services/BookService.cs:107-119 | unknown id and a book not checked out are rejected with no change, neither as an argument error; success changes only that book: Available, borrower and checkout date cleared |
| Library.RemoveBook | 02-brownfield/BookLibrary/Services/BookService.cs:124-135 | false and no change for an unknown id; a checked-out book is refused with no change, not as an argument error; otherwise true and exactly that book is dropped, the others keeping their order |
| Library.SearchByTitle | 02-brownfield/BookLibrary/Services/BookService.cs:51-60 | empty for a blank term; else an order-preserving sublist holding exactly the books whose title contains the term ignoring case |
| Library.SearchByAuthor | 02-brownfield/BookLibrary/Services/BookService.cs:65-74 | empty for a blank term; else an order-preserving sublist holding exactly the books whose author contains the term ignoring case |
| Library.GetCheckedOutBooks | 02-brownfield/BookLibrary/Services/BookService.cs:140-146 | an order-preserving sublist holding exactly the checked-out books |
| LibraryProperties.EmptyValid | 02-brownfield/BookLibrary/Services/BookService.cs:10 | the empty library satisfies the invariant |
| LibraryProperties.ReplaceKeepsValid | 02-brownfield/BookLibrary/Services/BookService.cs:99-118 | replacing one book by a consistent one with the same id keeps the invariant |
| LibraryProperties.AddBookKeepsValid | 02-brownfield/BookLibrary/Services/BookService.cs:15-38 | AddBook keeps the invariant |
| LibraryProperties.CheckoutKeepsValid | 02-brownfield/BookLibrary/Services/BookService.cs:87-102 | CheckoutBook keeps the invariant |
| LibraryProperties.ReturnKeepsValid | 02-brownfield/BookLibrary/Services/BookService.cs:107-119 | ReturnBook keeps the invariant |
| LibraryProperties.DropKeepsOthers | 02-brownfield/BookLibrary/Services/BookService.cs:133 | dropping position i shifts the later books down by one and keeps the earlier ones |
| LibraryProperties.DropKeepsValid | 02-brownfield/BookLibrary/Services/BookService.cs:133 | dropping any one book from a valid catalog leaves it valid |
| LibraryProperties.RemoveKeepsValid | 02-brownfield/BookLibrary/Services/BookService.cs:124-135 | RemoveBook keeps the invariant |
| LibraryProperties.ApplyKeepsValid | 02-brownfield/BookLibrary/Services/BookService.cs:15-135 | any one mutating call, accepted or rejected, keeps the invariant |
| LibraryProperties.RunKeepsValid | 02-brownfield/BookLibrary/Services/BookService.cs:15-135 | any sequence of mutating calls keeps the invariant |
| LibraryProperties.ReachableConsistent | 02-brownfield/BookLibrary/Models/Book.cs:3-20 | in every reachable library a book has a borrower exactly when it is checked out, and none is Reserved |
| LibraryProperties.CheckoutThenReturn | 02-brownfield/BookLibrary/Services/BookService.cs:87-119 | returning a book just checked out succeeds and restores the list exactly |
| LibraryProperties.DropMembers | 02-brownfield/BookLibrary/Services/BookService.cs:133 | with unique ids, dropping one position leaves exactly the books with another id |
| LibraryProperties.RemoveThenGone | 02-brownfield/BookLibrary/Services/BookService.cs:124-135 | after a removal the id is no longer found and exactly the other books remain |
| LibraryProperties.AddThenFind | 02-brownfield/BookLibrary/Services/BookService.cs:15-38 | a book just added is found by its id |
| LibraryProperties.AddThenSearchByTitle | 02-brownfield/BookLibrary/Services/BookService.cs:51-60 | after an add a title search returns the earlier answer followed by the new book exactly when its title matches |
| LibraryProperties.AddThenSearchByAuthor | 02-brownfield/BookLibrary/Services/BookService.cs:65-74 | after an add an author search returns the earlier answer followed by the new book exactly when its author matches |
| LibraryProperties.CheckedOutAreBorrowed | 02-brownfield/BookLibrary/Services/BookService.cs:140-146 | in a valid library the checked-out list is exactly the books with a borrower |
| LibraryProperties.CheckoutListsBook | 02-brownfield/BookLibrary/Services/BookService.cs:87-102 | after a checkout the book is on the checked-out list with the given borrower |
| LibraryServices.BookService.constructor | 02-brownfield/BookLibrary/Services/BookService.cs:10 | the new service has no books and is valid |
| LibraryServices.BookService.NewGuid | 02-brownfield/BookLibrary/Services/BookService.cs:28 | returns the counter and advances it; nothing else changes |
| LibraryServices.BookService.UtcNow | 02-brownfield/BookLibrary/Services/BookService.cs:33 | returns the clock and advances it; nothing else changes |
| LibraryServices.BookService.AddBook | 02-brownfield/BookLibrary/Services/BookService.cs:15-38 | result and new state are Library.AddBook's; the invariant is kept |
| LibraryServices.BookService.CheckoutBook | 02-brownfield/BookLibrary/Services/BookService.cs:87-102 | result and new state are Library.CheckoutBook's; the invariant is kept |
| LibraryServices.BookService.ReturnBook | 02-brownfield/BookLibrary/Services/BookService.cs:107-119 | result and new state are Library.ReturnBook's; the invariant is kept |
| LibraryServices.BookService.RemoveBook | 02-brownfield/BookLibrary/Services/BookService.cs:124-135 | result and new state are Library.RemoveBook's; the invariant is kept |
| Text.BlankIgnoresCase | 02-brownfield/LegacyInventory/Services/InventoryService.cs:65-75 | two strings equal ignoring case are both blank or both not |
| Seqs.CountPositions | 02-brownfield/LegacyInventory/Services/InventoryService.cs:239-240 | `Count` equals the number of positions whose element satisfies the predicate |
| Seqs.SortBySorted | 02-brownfield/LegacyInventory/Services/InventoryService.cs:103 | sorting by a total preorder gives a sorted permutation |

## Left out

- Reference semantics: a `Product` or `Book` returned to a caller is a live reference that the caller can change, and that the tests read through. The model holds values in a list. A returned value is a snapshot, and changes happen only through the service's operations.
- `ExportToJson` (`InventoryService.cs:221-231`) is not part of this model. It serializes the state through Newtonsoft.Json, a library outside the model.
- The two console programs and the console/CLI layer are not part of this model. They only format and print what the services return.
- Culture and Unicode: full Unicode case mapping and Unicode white space are out of scope. Only ASCII case and a fixed white-space set are modelled.
- `Inventory.GetAllProducts`: `OrderBy` uses the current culture's string comparer; the model sorts by ordinal character order. The contract states a sorted permutation, not the stability of `OrderBy`; the same holds for `Inventory.GetProductsByCategory`, `Inventory.GetProductsNeedingReorder` and `Inventory.SearchProducts`.
- Deferred queries: `GetAllProducts`, `GetProductsByCategory`, `GetProductsNeedingReorder`, `SearchProducts`, `GetTransactionHistory` and `GetRecentTransactions` return lazy LINQ queries (`InventoryService.cs:103, 111-113, 118-120, 141-145, 209-211, 216-218`). These are evaluated again each time they are enumerated, so a caller who keeps one sees later changes. The model returns the result as of the call; deferred evaluation is not modelled. `BookService` copies its results with `ToList`, so its queries are unaffected.
- Null strings cannot occur in the model. `null` arguments are out of scope.
- Integer overflow: `int` stock is unbounded, so the overflow of `+=` near `int.MaxValue` in `RestockProduct` and `AdjustStock` is not modelled. `decimal` arithmetic in `GetSummary` is exact `real` arithmetic, with no rounding or overflow.
- Time: wall-clock time is a logical clock that advances on every reading. Two ledger entries never share a timestamp, so the order of equal dates under `OrderByDescending` is not modelled.
  - The seeded products' `CreatedAt` offsets (`AddMonths(-6)` and the like) are not modelled; they are 0.
  - The gap between `DateTime.Now` and `DateTime.UtcNow` is not modelled.
- `Guid.NewGuid` is a counter, so the model's ids are unique by construction, not with high probability.
- Exception messages are reduced to error constructors. A constructor carries the data its message mentions: the SKU, the id, the available stock, the title.
- `Library.SearchByTitle`: the contract states an order-preserving sublist with exactly the matching members. It does not state how often a repeated book occurs. `LibraryProperties.AddThenSearchByTitle` then gives the result exactly, step by step.
- `Library.SearchByAuthor`: the same as for the title search.
- `Library.GetCheckedOutBooks`: the same as for the title search.
- `Library.GetAllBooks` has no contract. It returns the list itself; `AsReadOnly` is a wrapper that is not modelled.
- The queries of both classes are functions of `State()`, not methods of the classes, because they change nothing. The class methods require the invariant `Valid()`, which the constructor establishes and every method keeps.
- `TransactionType` values `Return` and `Damage` exist in `StockTransaction.cs` but no operation of the service records them. They are declared and never produced.
- `BookStatus.Reserved` exists in `Book.cs` but no operation of the book service sets it. The model proves it never occurs.
- Concurrency: both services are single-threaded `List<T>` holders, and concurrent access is not modelled.
