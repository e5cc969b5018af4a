/**
 * The book service as a value: the list of books, the invariant tying each
 * book's status to its borrower fields, every operation as a step from one
 * catalog to the next, and every query as a function of the catalog.
 */
module Library {
  import opened Wrappers
  import opened Identity
  import opened Text
  import opened Seqs
  import opened Books

  /** The service's state: its list, the id counter behind `Guid.NewGuid` and the clock behind `DateTime.UtcNow`. */
  datatype Catalog = Catalog(books: seq<Book>, nextId: Id, clock: Time)

  /** The ways an operation can fail; `IsArgumentError` separates `ArgumentException` from `InvalidOperationException`. */
  datatype BookError =
    | EmptyTitle
    | EmptyAuthor
    | EmptyIsbn
    | EmptyBorrower
    | BookNotFound(bookId: Id)
    | NotAvailable(title: string)
    | NotCheckedOut(title: string)
    | RemoveWhileCheckedOut(title: string)
  {
    predicate IsArgumentError() {
      EmptyTitle? || EmptyAuthor? || EmptyIsbn? || EmptyBorrower?
    }
  }

  /** What an operation returns (or throws), together with the catalog it leaves behind. */
  datatype Step<+R> = Step(result: Result<R, BookError>, after: Catalog)

  /** A new service: no books. */
  function Empty(): Catalog {
    Catalog([], 1, 0)
  }

  // ---------------------------------------------------------------------------
  // The invariant

  function BookIds(bs: seq<Book>): seq<Id> {
    seq(|bs|, i requires 0 <= i < |bs| => bs[i].id)
  }

  /**
   * A book has a borrower and a checkout time exactly when it is checked out,
   * is never `Reserved`, and its borrower, title, author and ISBN are not blank.
   */
  predicate Consistent(b: Book) {
    && b.status != Reserved
    && (b.borrower.Some? <==> b.status == CheckedOut)
    && (b.checkoutDate.Some? <==> b.status == CheckedOut)
    && (b.borrower.Some? ==> !IsBlank(b.borrower.value))
    && !IsBlank(b.title) && !IsBlank(b.author) && !IsBlank(b.isbn)
  }

  /** A book was added before the clock's current time, and checked out (if it is) after it was added. */
  predicate Timely(b: Book, clock: Time) {
    && b.addedDate < clock
    && (b.checkoutDate.Some? ==> b.addedDate < b.checkoutDate.value < clock)
  }

  predicate Valid(c: Catalog) {
    && c.nextId > EmptyId
    && (forall i :: 0 <= i < |c.books| ==>
          EmptyId < c.books[i].id < c.nextId && Consistent(c.books[i]) && Timely(c.books[i], c.clock))
    && (forall i, j :: 0 <= i < j < |c.books| ==> c.books[i].id != c.books[j].id)
  }

  // ---------------------------------------------------------------------------
  // Lookup

  /** The position of the book `GetBookById` returns. */
  function IndexOfBook(bs: seq<Book>, id: Id): (r: Option<nat>)
    ensures r.Some? ==> r.value < |bs| && bs[r.value].id == id
    ensures r.Some? ==> forall j :: 0 <= j < r.value ==> bs[j].id != id
    ensures r.None? <==> id !in BookIds(bs)
  {
    var r := FirstIndex(bs, (b: Book) => b.id == id);
    assert r.Some? ==> BookIds(bs)[r.value] == id;
    assert id in BookIds(bs) ==> exists k :: 0 <= k < |bs| && bs[k].id == id;
    r
  }

  /** `GetBookById`: the first book with the id, or null. */
  function GetBookById(c: Catalog, id: Id): (r: Option<Book>)
    ensures r.Some? <==> id in BookIds(c.books)
    ensures r.Some? ==> r.value in c.books && r.value.id == id
  {
    match IndexOfBook(c.books, id)
    case None => None
    case Some(i) => Some(c.books[i])
  }

  // ---------------------------------------------------------------------------
  // Operations

  /** `after` is `before` with at most the book at `i` replaced. */
  predicate OnlyChanged(before: seq<Book>, after: seq<Book>, i: nat) {
    i < |before| && |after| == |before| && forall j :: 0 <= j < |before| && j != i ==> after[j] == before[j]
  }

  /** `AddBook`. */
  function AddBook(c: Catalog, title: string, author: string, isbn: string): (r: Step<Book>)
    // the guards, in the order the source checks them
    ensures IsBlank(title) ==> r.result == Err(EmptyTitle)
    ensures !IsBlank(title) && IsBlank(author) ==> r.result == Err(EmptyAuthor)
    ensures !IsBlank(title) && !IsBlank(author) && IsBlank(isbn) ==> r.result == Err(EmptyIsbn)
    ensures r.result.Err? ==> r.after == c
    // every failure is an `ArgumentException`
    ensures r.result.Err? ==> r.result.error.IsArgumentError()
    // an ISBN already on the shelf is accepted
    ensures r.result.Ok? <==> !IsBlank(title) && !IsBlank(author) && !IsBlank(isbn)
    ensures r.result.Ok? ==>
      var b := r.result.value;
      && r.after.books == c.books + [b]
      && b.title == title && b.author == author && b.isbn == isbn
      && b.status == Available && b.borrower.None? && b.checkoutDate.None?
  {
    if IsBlank(title) then Step(Err(EmptyTitle), c)
    else if IsBlank(author) then Step(Err(EmptyAuthor), c)
    else if IsBlank(isbn) then Step(Err(EmptyIsbn), c)
    else
      var b := Book(c.nextId, title, author, isbn, Available, c.clock, None, None);
      Step(Ok(b), Catalog(c.books + [b], c.nextId + 1, c.clock + 1))
  }

  /** `CheckoutBook`: every check runs before any field changes. */
  function CheckoutBook(c: Catalog, bookId: Id, borrower: string): (r: Step<()>)
    ensures bookId !in BookIds(c.books) ==> r.result == Err(BookNotFound(bookId))
    ensures GetBookById(c, bookId).Some? && GetBookById(c, bookId).value.status != Available
            ==> r.result == Err(NotAvailable(GetBookById(c, bookId).value.title))
    ensures GetBookById(c, bookId).Some? && GetBookById(c, bookId).value.status == Available && IsBlank(borrower)
            ==> r.result == Err(EmptyBorrower)
    ensures r.result.Err? ==> r.after == c
    ensures r.result.Ok? <==> GetBookById(c, bookId).Some? && GetBookById(c, bookId).value.status == Available
                              && !IsBlank(borrower)
    // only the blank borrower, checked last, is an `ArgumentException`
    ensures (r.result.Err? && r.result.error.IsArgumentError())
            <==> GetBookById(c, bookId).Some? && GetBookById(c, bookId).value.status == Available && IsBlank(borrower)
    // the status, the borrower and the checkout time change, and nothing else
    ensures r.result.Ok? ==> IndexOfBook(c.books, bookId).Some?
    ensures r.result.Ok? ==> OnlyChanged(c.books, r.after.books, IndexOfBook(c.books, bookId).value)
    ensures r.result.Ok? ==>
      var i := IndexOfBook(c.books, bookId).value;
      var b := r.after.books[i];
      && b == c.books[i].(status := CheckedOut, borrower := Some(borrower), checkoutDate := b.checkoutDate)
      && b.checkoutDate.Some? && b.checkoutDate.value == c.clock
      && r.after.nextId == c.nextId && r.after.clock > c.clock
  {
    match IndexOfBook(c.books, bookId)
    case None => Step(Err(BookNotFound(bookId)), c)
    case Some(i) =>
      var b := c.books[i];
      if b.status != Available then Step(Err(NotAvailable(b.title)), c)
      else if IsBlank(borrower) then Step(Err(EmptyBorrower), c)
      else
        var lent := b.(status := CheckedOut, borrower := Some(borrower), checkoutDate := Some(c.clock));
        Step(Ok(()), c.(books := c.books[i := lent], clock := c.clock + 1))
  }

  /** `ReturnBook`. */
  function ReturnBook(c: Catalog, bookId: Id): (r: Step<()>)
    ensures bookId !in BookIds(c.books) ==> r.result == Err(BookNotFound(bookId))
    ensures GetBookById(c, bookId).Some? && GetBookById(c, bookId).value.status != CheckedOut
            ==> r.result == Err(NotCheckedOut(GetBookById(c, bookId).value.title))
    ensures r.result.Err? ==> r.after == c
    ensures r.result.Ok? <==> GetBookById(c, bookId).Some? && GetBookById(c, bookId).value.status == CheckedOut
    ensures r.result.Err? ==> !r.result.error.IsArgumentError()
    // the status is Available again and the borrower fields are cleared; nothing else changes
    ensures r.result.Ok? ==>
      var i := IndexOfBook(c.books, bookId).value;
      && r.after == c.(books := r.after.books)
      && OnlyChanged(c.books, r.after.books, i)
      && r.after.books[i] == c.books[i].(status := Available, borrower := None, checkoutDate := None)
  {
    match IndexOfBook(c.books, bookId)
    case None => Step(Err(BookNotFound(bookId)), c)
    case Some(i) =>
      var b := c.books[i];
      if b.status != CheckedOut then Step(Err(NotCheckedOut(b.title)), c)
      else Step(Ok(()), c.(books := c.books[i := b.(status := Available, borrower := None, checkoutDate := None)]))
  }

  /** `RemoveBook`: false for an unknown id; refuses a checked-out book; else drops that one book. */
  function RemoveBook(c: Catalog, bookId: Id): (r: Step<bool>)
    ensures bookId !in BookIds(c.books) ==> r == Step(Ok(false), c)
    ensures GetBookById(c, bookId).Some? && GetBookById(c, bookId).value.status == CheckedOut
            ==> r == Step(Err(RemoveWhileCheckedOut(GetBookById(c, bookId).value.title)), c)
    ensures r.result == Ok(true) <==> GetBookById(c, bookId).Some? && GetBookById(c, bookId).value.status != CheckedOut
    ensures r.result.Err? ==> !r.result.error.IsArgumentError()
    // the others keep their order
    ensures r.result == Ok(true) ==>
      var i := IndexOfBook(c.books, bookId).value;
      r.after == c.(books := c.books[..i] + c.books[i + 1..])
  {
    match IndexOfBook(c.books, bookId)
    case None => Step(Ok(false), c)
    case Some(i) =>
      var b := c.books[i];
      if b.status == CheckedOut then Step(Err(RemoveWhileCheckedOut(b.title)), c)
      else Step(Ok(true), c.(books := c.books[..i] + c.books[i + 1..]))
  }

  // ---------------------------------------------------------------------------
  // Queries

  /** `GetAllBooks`: the list itself, read-only. */
  function GetAllBooks(c: Catalog): seq<Book> {
    c.books
  }

  function TitleContains(term: string): Book -> bool {
    (b: Book) => ContainsIgnoreCase(b.title, term)
  }

  function AuthorContains(term: string): Book -> bool {
    (b: Book) => ContainsIgnoreCase(b.author, term)
  }

  function IsCheckedOut(b: Book): bool {
    b.status == CheckedOut
  }

  /** `SearchByTitle`: nothing for a blank term; else the books whose title contains it ignoring case, in list order. */
  function SearchByTitle(c: Catalog, term: string): (r: seq<Book>)
    ensures IsBlank(term) ==> r == []
    ensures !IsBlank(term) ==> IsSubsequence(r, c.books)
    ensures !IsBlank(term) ==> forall b :: b in r <==> b in c.books && ContainsIgnoreCase(b.title, term)
  {
    if IsBlank(term) then []
    else
      FilterMembers(c.books, TitleContains(term));
      Filter(c.books, TitleContains(term))
  }

  /** `SearchByAuthor`: nothing for a blank term; else the books whose author contains it ignoring case, in list order. */
  function SearchByAuthor(c: Catalog, term: string): (r: seq<Book>)
    ensures IsBlank(term) ==> r == []
    ensures !IsBlank(term) ==> IsSubsequence(r, c.books)
    ensures !IsBlank(term) ==> forall b :: b in r <==> b in c.books && ContainsIgnoreCase(b.author, term)
  {
    if IsBlank(term) then []
    else
      FilterMembers(c.books, AuthorContains(term));
      Filter(c.books, AuthorContains(term))
  }

  /** `GetCheckedOutBooks`: exactly the checked-out books, in list order. */
  function GetCheckedOutBooks(c: Catalog): (r: seq<Book>)
    ensures IsSubsequence(r, c.books)
    ensures forall b :: b in r <==> b in c.books && b.status == CheckedOut
  {
    FilterMembers(c.books, IsCheckedOut);
    Filter(c.books, IsCheckedOut)
  }
}
