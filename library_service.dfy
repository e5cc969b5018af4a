/**
 * `BookService` as an object: its list of books is a field the methods update
 * in place, and every method is proved to leave exactly the state the
 * corresponding step function of `Library` describes, keeping the invariant.
 */
module LibraryServices {
  import opened Wrappers
  import opened Identity
  import opened Text
  import opened Books
  import opened Library
  import opened LibraryProperties

  class BookService {
    var books: seq<Book>
    var nextId: Id
    var clock: Time

    /** The service's state as a value. */
    function State(): Catalog
      reads this
    {
      Catalog(books, nextId, clock)
    }

    ghost predicate Valid()
      reads this
    {
      Library.Valid(State())
    }

    /** A service with no books. */
    constructor()
      ensures State() == Empty()
      ensures Valid()
    {
      books := [];
      nextId := 1;
      clock := 0;
    }

    /** `Guid.NewGuid`: a fresh id from the counter. */
    method NewGuid() returns (id: Id)
      modifies this
      ensures id == old(nextId) && nextId == old(nextId) + 1
      ensures books == old(books) && clock == old(clock)
    {
      id := nextId;
      nextId := nextId + 1;
    }

    /** `DateTime.UtcNow`: the current time; every reading is later than the one before. */
    method UtcNow() returns (t: Time)
      modifies this
      ensures t == old(clock) && clock == old(clock) + 1
      ensures books == old(books) && nextId == old(nextId)
    {
      t := clock;
      clock := clock + 1;
    }

    method AddBook(title: string, author: string, isbn: string) returns (r: Result<Book, BookError>)
      requires Valid()
      modifies this
      ensures Valid()
      ensures Step(r, State()) == Library.AddBook(old(State()), title, author, isbn)
    {
      ghost var c := State();
      if IsBlank(title) {
        return Err(EmptyTitle);
      }
      if IsBlank(author) {
        return Err(EmptyAuthor);
      }
      if IsBlank(isbn) {
        return Err(EmptyIsbn);
      }
      var id := NewGuid();
      var now := UtcNow();
      var book := Book(id, title, author, isbn, Available, now, None, None);
      books := books + [book];
      r := Ok(book);
      assert Step(r, State()) == Library.AddBook(c, title, author, isbn);
      AddBookKeepsValid(c, title, author, isbn);
    }

    method CheckoutBook(bookId: Id, borrower: string) returns (r: Result<(), BookError>)
      requires Valid()
      modifies this
      ensures Valid()
      ensures Step(r, State()) == Library.CheckoutBook(old(State()), bookId, borrower)
    {
      ghost var c := State();
      var found := IndexOfBook(books, bookId);
      if found.None? {
        return Err(BookNotFound(bookId));
      }
      var i := found.value;
      var book := books[i];
      if book.status != Available {
        return Err(NotAvailable(book.title));
      }
      if IsBlank(borrower) {
        return Err(EmptyBorrower);
      }
      var now := UtcNow();
      books := books[i := book.(status := CheckedOut, borrower := Some(borrower), checkoutDate := Some(now))];
      r := Ok(());
      assert Step(r, State()) == Library.CheckoutBook(c, bookId, borrower);
      CheckoutKeepsValid(c, bookId, borrower);
    }

    method ReturnBook(bookId: Id) returns (r: Result<(), BookError>)
      requires Valid()
      modifies this
      ensures Valid()
      ensures Step(r, State()) == Library.ReturnBook(old(State()), bookId)
    {
      ghost var c := State();
      var found := IndexOfBook(books, bookId);
      if found.None? {
        return Err(BookNotFound(bookId));
      }
      var i := found.value;
      var book := books[i];
      if book.status != CheckedOut {
        return Err(NotCheckedOut(book.title));
      }
      books := books[i := book.(status := Available, borrower := None, checkoutDate := None)];
      r := Ok(());
      assert Step(r, State()) == Library.ReturnBook(c, bookId);
      ReturnKeepsValid(c, bookId);
    }

    method RemoveBook(bookId: Id) returns (r: Result<bool, BookError>)
      requires Valid()
      modifies this
      ensures Valid()
      ensures Step(r, State()) == Library.RemoveBook(old(State()), bookId)
    {
      ghost var c := State();
      var found := IndexOfBook(books, bookId);
      if found.None? {
        return Ok(false);
      }
      var i := found.value;
      var book := books[i];
      if book.status == CheckedOut {
        return Err(RemoveWhileCheckedOut(book.title));
      }
      books := books[..i] + books[i + 1..];
      r := Ok(true);
      assert Step(r, State()) == Library.RemoveBook(c, bookId);
      RemoveKeepsValid(c, bookId);
    }
  }
}
