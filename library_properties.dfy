/**
 * The invariant of the library is kept by every operation: a book has a
 * borrower exactly when it is checked out, and no book is ever `Reserved`.
 * Checking a book out and returning it restores the list; removing a book
 * drops exactly that book; search results follow the list as it grows.
 */
module LibraryProperties {
  import opened Wrappers
  import opened Identity
  import opened Text
  import opened Seqs
  import opened Books
  import opened Library

  lemma EmptyValid()
    ensures Valid(Empty())
  {
  }

  /** Replacing book `i` by a consistent one with the same id, added before and (if lent) checked out before the clock, keeps the invariant. */
  lemma ReplaceKeepsValid(c: Catalog, r: Catalog, i: nat)
    requires Valid(c) && OnlyChanged(c.books, r.books, i)
    requires r.books[i].id == c.books[i].id && Consistent(r.books[i]) && Timely(r.books[i], r.clock)
    requires r.nextId == c.nextId && r.clock >= c.clock
    ensures Valid(r)
  {
    forall j | 0 <= j < |r.books|
      ensures EmptyId < r.books[j].id < r.nextId && Consistent(r.books[j]) && Timely(r.books[j], r.clock)
    {
      if j != i {
        assert r.books[j] == c.books[j];
      }
    }
    assert forall j :: 0 <= j < |r.books| ==> r.books[j].id == c.books[j].id;
  }

  lemma AddBookKeepsValid(c: Catalog, title: string, author: string, isbn: string)
    requires Valid(c)
    ensures Valid(AddBook(c, title, author, isbn).after)
  {
    var r := AddBook(c, title, author, isbn);
    if r.result.Ok? {
      assert r.result.value.id == c.nextId && r.result.value.addedDate == c.clock && r.after.clock > c.clock;
      assert forall j :: 0 <= j < |c.books| ==> r.after.books[j] == c.books[j];
    }
  }

  lemma CheckoutKeepsValid(c: Catalog, bookId: Id, borrower: string)
    requires Valid(c)
    ensures Valid(CheckoutBook(c, bookId, borrower).after)
  {
    var r := CheckoutBook(c, bookId, borrower);
    if r.result.Ok? {
      var i := IndexOfBook(c.books, bookId).value;
      assert Timely(c.books[i], c.clock);
      ReplaceKeepsValid(c, r.after, i);
    }
  }

  lemma ReturnKeepsValid(c: Catalog, bookId: Id)
    requires Valid(c)
    ensures Valid(ReturnBook(c, bookId).after)
  {
    var r := ReturnBook(c, bookId);
    if r.result.Ok? {
      var i := IndexOfBook(c.books, bookId).value;
      assert Timely(c.books[i], c.clock);
      ReplaceKeepsValid(c, r.after, i);
    }
  }

  /** Dropping the book at `i` keeps the others in order. */
  lemma DropKeepsOthers(bs: seq<Book>, i: nat)
    requires i < |bs|
    ensures var rest := bs[..i] + bs[i + 1..];
      && |rest| == |bs| - 1
      && (forall j :: 0 <= j < i ==> rest[j] == bs[j])
      && (forall j :: i <= j < |rest| ==> rest[j] == bs[j + 1])
  {
  }

  /** Dropping any one book from a valid catalog leaves a valid catalog. */
  lemma DropKeepsValid(c: Catalog, i: nat)
    requires Valid(c) && i < |c.books|
    ensures Valid(c.(books := c.books[..i] + c.books[i + 1..]))
  {
    var rest := c.books[..i] + c.books[i + 1..];
    DropKeepsOthers(c.books, i);
    forall j, k | 0 <= j < k < |rest|
      ensures rest[j].id != rest[k].id
    {
      var j' := if j < i then j else j + 1;
      var k' := if k < i then k else k + 1;
      assert rest[j] == c.books[j'] && rest[k] == c.books[k'];
    }
    forall j | 0 <= j < |rest|
      ensures EmptyId < rest[j].id < c.nextId && Consistent(rest[j]) && Timely(rest[j], c.clock)
    {
      assert rest[j] == c.books[if j < i then j else j + 1];
    }
  }

  lemma RemoveKeepsValid(c: Catalog, bookId: Id)
    requires Valid(c)
    ensures Valid(RemoveBook(c, bookId).after)
  {
    if RemoveBook(c, bookId).result == Ok(true) {
      DropKeepsValid(c, IndexOfBook(c.books, bookId).value);
    }
  }

  // ---------------------------------------------------------------------------
  // Any sequence of operations

  /** One call of a mutating operation of the service, with its arguments. */
  datatype LibraryOperation =
    | AddOp(title: string, author: string, isbn: string)
    | CheckoutOp(bookId: Id, borrower: string)
    | ReturnOp(bookId: Id)
    | RemoveOp(bookId: Id)

  /** The catalog an operation leaves behind, whether it succeeded or was rejected. */
  function Apply(c: Catalog, op: LibraryOperation): Catalog {
    match op
    case AddOp(title, author, isbn) => AddBook(c, title, author, isbn).after
    case CheckoutOp(bookId, borrower) => CheckoutBook(c, bookId, borrower).after
    case ReturnOp(bookId) => ReturnBook(c, bookId).after
    case RemoveOp(bookId) => RemoveBook(c, bookId).after
  }

  function Run(c: Catalog, ops: seq<LibraryOperation>): Catalog
    decreases |ops|
  {
    if ops == [] then c else Run(Apply(c, ops[0]), ops[1..])
  }

  lemma ApplyKeepsValid(c: Catalog, op: LibraryOperation)
    requires Valid(c)
    ensures Valid(Apply(c, op))
  {
    match op
    case AddOp(title, author, isbn) => AddBookKeepsValid(c, title, author, isbn);
    case CheckoutOp(bookId, borrower) => CheckoutKeepsValid(c, bookId, borrower);
    case ReturnOp(bookId) => ReturnKeepsValid(c, bookId);
    case RemoveOp(bookId) => RemoveKeepsValid(c, bookId);
  }

  lemma {:induction false} RunKeepsValid(c: Catalog, ops: seq<LibraryOperation>)
    requires Valid(c)
    ensures Valid(Run(c, ops))
    decreases |ops|
  {
    if ops != [] {
      ApplyKeepsValid(c, ops[0]);
      RunKeepsValid(Apply(c, ops[0]), ops[1..]);
    }
  }

  /**
   * In every catalog a new service can reach, a book has a borrower exactly
   * when it is checked out, and no book is `Reserved`.
   */
  lemma ReachableConsistent(ops: seq<LibraryOperation>)
    ensures forall b :: b in Run(Empty(), ops).books ==>
      (b.borrower.Some? <==> b.status == CheckedOut) && b.status != Reserved
  {
    EmptyValid();
    RunKeepsValid(Empty(), ops);
    var c := Run(Empty(), ops);
    forall b | b in c.books
      ensures (b.borrower.Some? <==> b.status == CheckedOut) && b.status != Reserved
    {
      var k :| 0 <= k < |c.books| && c.books[k] == b;
      assert Consistent(c.books[k]);
    }
  }

  // ---------------------------------------------------------------------------
  // Round trip, removal, lookup and search

  /** Returning a book just checked out succeeds and gives back the list as it was. */
  lemma CheckoutThenReturn(c: Catalog, bookId: Id, borrower: string)
    requires Valid(c) && CheckoutBook(c, bookId, borrower).result.Ok?
    ensures var lent := CheckoutBook(c, bookId, borrower).after;
      && ReturnBook(lent, bookId).result.Ok?
      && ReturnBook(lent, bookId).after.books == c.books
  {
    var lent := CheckoutBook(c, bookId, borrower).after;
    var i := IndexOfBook(c.books, bookId).value;
    assert Consistent(c.books[i]);
    assert forall j :: 0 <= j < |c.books| ==> lent.books[j].id == c.books[j].id;
    assert BookIds(lent.books) == BookIds(c.books);
    assert IndexOfBook(lent.books, bookId) == Some(i);
    var back := ReturnBook(lent, bookId).after;
    assert |back.books| == |c.books|;
    assert forall j :: 0 <= j < |c.books| ==> back.books[j] == c.books[j];
  }

  /** With unique ids, dropping the book at `i` leaves exactly the books with another id. */
  lemma DropMembers(bs: seq<Book>, i: nat)
    requires i < |bs| && forall j, k :: 0 <= j < k < |bs| ==> bs[j].id != bs[k].id
    ensures forall b :: b in bs[..i] + bs[i + 1..] <==> b in bs && b.id != bs[i].id
  {
    var rest := bs[..i] + bs[i + 1..];
    DropKeepsOthers(bs, i);
    forall b
      ensures b in rest <==> b in bs && b.id != bs[i].id
    {
      if b in rest {
        var k :| 0 <= k < |rest| && rest[k] == b;
        var k' := if k < i then k else k + 1;
        assert bs[k'] == b && k' != i;
      }
      if b in bs && b.id != bs[i].id {
        var k :| 0 <= k < |bs| && bs[k] == b;
        assert rest[if k < i then k else k - 1] == b;
      }
    }
  }

  /** Removing a book leaves every other book and only them; with unique ids, the removed one is gone. */
  lemma RemoveThenGone(c: Catalog, bookId: Id)
    requires Valid(c) && RemoveBook(c, bookId).result == Ok(true)
    ensures GetBookById(RemoveBook(c, bookId).after, bookId).None?
    ensures forall b :: b in RemoveBook(c, bookId).after.books <==> b in c.books && b.id != bookId
  {
    var i := IndexOfBook(c.books, bookId).value;
    DropMembers(c.books, i);
  }

  /** A book just added is what `GetBookById` finds for its id. */
  lemma AddThenFind(c: Catalog, title: string, author: string, isbn: string)
    requires Valid(c) && AddBook(c, title, author, isbn).result.Ok?
    ensures var r := AddBook(c, title, author, isbn);
      GetBookById(r.after, r.result.value.id) == Some(r.result.value)
  {
    var r := AddBook(c, title, author, isbn);
    AddBookKeepsValid(c, title, author, isbn);
    var b := r.result.value;
    var n := |c.books|;
    assert r.after.books[n] == b;
    assert BookIds(r.after.books)[n] == b.id;
    var found := GetBookById(r.after, b.id).value;
    var k :| 0 <= k < |r.after.books| && r.after.books[k] == found;
    assert k == n;
  }

  /** After `AddBook`, a title search returns what it returned before, followed by the new book if its title matches. */
  lemma AddThenSearchByTitle(c: Catalog, title: string, author: string, isbn: string, term: string)
    requires AddBook(c, title, author, isbn).result.Ok?
    ensures var r := AddBook(c, title, author, isbn);
      SearchByTitle(r.after, term)
        == SearchByTitle(c, term) + (if !IsBlank(term) && ContainsIgnoreCase(title, term) then [r.result.value] else [])
  {
    var r := AddBook(c, title, author, isbn);
    FilterAppend(c.books, r.result.value, TitleContains(term));
  }

  /** After `AddBook`, an author search returns what it returned before, followed by the new book if its author matches. */
  lemma AddThenSearchByAuthor(c: Catalog, title: string, author: string, isbn: string, term: string)
    requires AddBook(c, title, author, isbn).result.Ok?
    ensures var r := AddBook(c, title, author, isbn);
      SearchByAuthor(r.after, term)
        == SearchByAuthor(c, term) + (if !IsBlank(term) && ContainsIgnoreCase(author, term) then [r.result.value] else [])
  {
    var r := AddBook(c, title, author, isbn);
    FilterAppend(c.books, r.result.value, AuthorContains(term));
  }

  /** The checked-out list is exactly the books that have a borrower. */
  lemma CheckedOutAreBorrowed(c: Catalog)
    requires Valid(c)
    ensures forall b :: b in GetCheckedOutBooks(c) <==> b in c.books && b.borrower.Some?
  {
    forall b | b in c.books
      ensures b.borrower.Some? <==> b.status == CheckedOut
    {
      var k :| 0 <= k < |c.books| && c.books[k] == b;
      assert Consistent(c.books[k]);
    }
  }

  /** A successful checkout puts the book, with its borrower, on the checked-out list. */
  lemma CheckoutListsBook(c: Catalog, bookId: Id, borrower: string)
    requires CheckoutBook(c, bookId, borrower).result.Ok?
    ensures var lent := CheckoutBook(c, bookId, borrower).after;
      GetBookById(lent, bookId).Some?
      && GetBookById(lent, bookId).value in GetCheckedOutBooks(lent)
      && GetBookById(lent, bookId).value.borrower == Some(borrower)
  {
    var lent := CheckoutBook(c, bookId, borrower).after;
    var i := IndexOfBook(c.books, bookId).value;
    assert forall j :: 0 <= j < |c.books| ==> lent.books[j].id == c.books[j].id;
    assert BookIds(lent.books) == BookIds(c.books);
    assert IndexOfBook(lent.books, bookId) == Some(i) by {
      assert lent.books[i].id == bookId;
    }
  }
}
