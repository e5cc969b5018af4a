/** The `Book` record of the library. */
module Books {
  import opened Wrappers
  import opened Identity

  /** The three statuses a book can have; the service never sets `Reserved`. */
  datatype BookStatus = Available | CheckedOut | Reserved

  /** A book on the shelf, with the borrower and checkout time while it is lent out. */
  datatype Book = Book(
    id: Id,
    title: string,
    author: string,
    isbn: string,
    status: BookStatus,
    addedDate: Time,
    borrower: Option<string>,
    checkoutDate: Option<Time>)
}
