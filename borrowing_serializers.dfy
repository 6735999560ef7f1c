/**
 * The validation run before a borrowing is created: a chain of guards on the
 * requesting user's payments and borrowings and on the book's stock, then the
 * date validation with the borrow date forced to today.
 */
module BorrowingSerializers {
  import opened Wrappers
  import opened BorrowingModels
  import opened PaymentServices

  datatype CreateError =
    | UnknownBook             // the `book` field names no book (rejected before `validate`)
    | PendingPayments         // "You have pending payments. ..."
    | AlreadyBorrowed         // "You have already borrowed this book."
    | OutOfStock              // "The book is out of stock"
    | InvalidDates(dates: DateError)
    | IntegrityError          // the database refused the new row

  /** The user has a PENDING payment on any of their borrowings. */
  predicate HasPendingPayment(payments: seq<Payment>, borrowings: seq<Borrowing>, user: UserId) {
    exists j :: 0 <= j < |payments| && payments[j].status == Pending
                && payments[j].borrowing < |borrowings| && borrowings[payments[j].borrowing].user == user
  }

  /** The user holds the book: one of their borrowings of it is not returned. */
  predicate HasOpenBorrowing(borrowings: seq<Borrowing>, user: UserId, book: BookId) {
    exists i :: 0 <= i < |borrowings| && borrowings[i].user == user && borrowings[i].book == book
                && borrowings[i].IsOpen()
  }

  /** The validated fields of a new borrowing. */
  datatype CreateAttrs = CreateAttrs(book: BookId, borrowDate: Day, expectedReturnDate: Day)

  /** The user, stock and book guards of `validate`, in the order tried. */
  function AvailabilityGuards(books: map<BookId, Book>, borrowings: seq<Borrowing>, payments: seq<Payment>,
                              user: UserId, book: BookId): (r: Outcome<CreateError>)
    ensures r.Pass? <==> book in books && !HasPendingPayment(payments, borrowings, user)
                         && !HasOpenBorrowing(borrowings, user, book) && books[book].inventory >= 1
    ensures book !in books ==> r == Fail(UnknownBook)
    ensures book in books && HasPendingPayment(payments, borrowings, user) ==> r == Fail(PendingPayments)
    ensures book in books && !HasPendingPayment(payments, borrowings, user) && HasOpenBorrowing(borrowings, user, book)
            ==> r == Fail(AlreadyBorrowed)
    ensures r.Fail? ==> !r.error.InvalidDates? && !r.error.IntegrityError?
  {
    if book !in books then Fail(UnknownBook)
    else if HasPendingPayment(payments, borrowings, user) then Fail(PendingPayments)
    else if HasOpenBorrowing(borrowings, user, book) then Fail(AlreadyBorrowed)
    else if books[book].inventory <= 0 then Fail(OutOfStock)
    else Pass
  }

  /**
   * `BorrowingCreateSerializer.validate`: the guards, then `validate_dates`
   * with the borrow date set to today and no actual return date. The
   * expected return date is a required field of the serializer, so it is
   * always present by the time `validate` runs.
   */
  function ValidateCreate(books: map<BookId, Book>, borrowings: seq<Borrowing>, payments: seq<Payment>,
                          user: UserId, book: BookId, expected: Day, today: Day): (r: Result<CreateAttrs, CreateError>)
    ensures r.Ok? <==> AvailabilityGuards(books, borrowings, payments, user, book).Pass?
                       && today <= expected
    ensures r.Ok? ==> r.value == CreateAttrs(book, today, expected) && books[book].inventory >= 1
    ensures AvailabilityGuards(books, borrowings, payments, user, book).Fail? ==>
              r == Err(AvailabilityGuards(books, borrowings, payments, user, book).error)
    ensures r.Err? && r.error.InvalidDates? ==> r.error.dates == ExpectedBeforeBorrow
    ensures r != Err(IntegrityError)
  {
    match AvailabilityGuards(books, borrowings, payments, user, book)
    case Fail(e) => Err(e)
    case Pass =>
      match ValidateDates(Some(today), Some(expected), None)
      case Fail(d) => Err(InvalidDates(d))
      case Pass => Ok(CreateAttrs(book, today, expected))
  }

  /** As ValidateCreate, but with the corrected date validation. */
  function ValidateCreateStrict(books: map<BookId, Book>, borrowings: seq<Borrowing>, payments: seq<Payment>,
                                user: UserId, book: BookId, expected: Day, today: Day): (r: Result<CreateAttrs, CreateError>)
    ensures r.Ok? <==> AvailabilityGuards(books, borrowings, payments, user, book).Pass?
                       && today < expected
    ensures r.Ok? ==> r.value == CreateAttrs(book, today, expected) && books[book].inventory >= 1
    ensures r.Ok? ==> ValidateCreate(books, borrowings, payments, user, book, expected, today) == r
    ensures AvailabilityGuards(books, borrowings, payments, user, book).Fail? ==>
              r == Err(AvailabilityGuards(books, borrowings, payments, user, book).error)
    ensures r != Err(IntegrityError)
  {
    match AvailabilityGuards(books, borrowings, payments, user, book)
    case Fail(e) => Err(e)
    case Pass =>
      match ValidateDatesStrict(Some(today), Some(expected), None)
      case Fail(d) => Err(InvalidDates(d))
      case Pass => Ok(CreateAttrs(book, today, expected))
  }

  /** An out-of-stock book is refused, whatever else is true, once the user has no pending payment or copy of it. */
  lemma OutOfStockRefused(books: map<BookId, Book>, borrowings: seq<Borrowing>, payments: seq<Payment>,
                          user: UserId, book: BookId, expected: Day, today: Day)
    requires book in books && books[book].inventory <= 0
    requires !HasPendingPayment(payments, borrowings, user) && !HasOpenBorrowing(borrowings, user, book)
    ensures ValidateCreate(books, borrowings, payments, user, book, expected, today) == Err(OutOfStock)
  {
  }

  /** A date in the past is refused with the "must be after borrow date" message once the guards pass. */
  lemma PastExpectedDateRefused(books: map<BookId, Book>, borrowings: seq<Borrowing>, payments: seq<Payment>,
                                user: UserId, book: BookId, expected: Day, today: Day)
    requires AvailabilityGuards(books, borrowings, payments, user, book).Pass?
    requires expected < today
    ensures ValidateCreate(books, borrowings, payments, user, book, expected, today)
            == Err(InvalidDates(ExpectedBeforeBorrow))
  {
  }
}
