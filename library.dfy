/**
 * The stored state of the library service and the operations that change
 * it: creating a borrowing (stock goes down by one), returning it (stock
 * goes up by one) and recording a payment session. Each operation is one
 * sequential step; the surrounding web framework, its transactions and its
 * locking are not modelled.
 */
module Library {
  import opened Wrappers
  import opened BorrowingModels
  import opened BorrowingFilters
  import opened PaymentServices
  import opened BorrowingSerializers

  /** Number of borrowings of `book` that are not returned. */
  function OpenCount(bs: seq<Borrowing>, book: BookId): (n: nat)
    ensures n <= |bs|
  {
    if bs == [] then 0
    else OpenCount(bs[..|bs| - 1], book) + (if bs[|bs| - 1].IsOpen() && bs[|bs| - 1].book == book then 1 else 0)
  }

  /** Returning borrowing `i` takes one open borrowing of its book away and leaves other books alone. */
  lemma {:induction false} OpenCountAfterReturn(bs: seq<Borrowing>, i: nat, day: Day, book: BookId)
    requires i < |bs| && bs[i].IsOpen()
    ensures OpenCount(bs[i := bs[i].(actualReturnDate := Some(day))], book)
            == OpenCount(bs, book) - (if bs[i].book == book then 1 else 0)
    decreases |bs|
  {
    var bs' := bs[i := bs[i].(actualReturnDate := Some(day))];
    var n := |bs| - 1;
    assert bs'[..n] == if i < n then bs[..n][i := bs[i].(actualReturnDate := Some(day))] else bs[..n];
    if i < n {
      OpenCountAfterReturn(bs[..n], i, day, book);
    }
  }

  /** No user holds two unreturned borrowings of the same book. */
  predicate OneOpenPerUserAndBook(bs: seq<Borrowing>) {
    forall i, j :: 0 <= i < j < |bs| && bs[i].IsOpen() && bs[j].IsOpen() && bs[i].user == bs[j].user
                   ==> bs[i].book != bs[j].book
  }

  /** `get_object_or_404` over the borrowings visible to the caller. */
  function FindById(bs: seq<Borrowing>, id: nat): (r: Option<Borrowing>)
    ensures r.Some? ==> r.value in bs && r.value.id == id
    ensures r.None? ==> forall b :: b in bs ==> b.id != id
  {
    if bs == [] then None
    else if bs[0].id == id then Some(bs[0])
    else FindById(bs[1..], id)
  }

  datatype ReturnError =
    | NotFound           // the borrowing is not visible to the caller
    | AlreadyReturned    // "Book has already been returned"
    | ReturnRejected     // the database refused a return date before the borrow date

  datatype PaymentError = FineForOpenBorrowing   // the fine of a borrowing not yet returned cannot be computed

  class LibraryState {
    var books: map<BookId, Book>
    var borrowings: seq<Borrowing>
    var payments: seq<Payment>
    /** Copies owned per book: those on the shelf plus those lent out. */
    ghost var stock: map<BookId, int>

    /** The stored rows satisfy the table constraints and refer to existing rows. */
    ghost predicate Valid()
      reads this
    {
      && (forall i :: 0 <= i < |borrowings| ==>
            borrowings[i].id == i && borrowings[i].book in books && SatisfiesConstraints(borrowings[i]))
      && (forall j :: 0 <= j < |payments| ==> payments[j].borrowing < |borrowings|)
      && (forall k :: k in books ==> books[k].inventory >= 0)
      && OneOpenPerUserAndBook(borrowings)
    }

    /** Every copy is either on the shelf or lent out on an open borrowing. */
    ghost predicate Conserved()
      reads this
    {
      && stock.Keys == books.Keys
      && forall k :: k in books ==> books[k].inventory + OpenCount(borrowings, k) == stock[k]
    }

    constructor (catalogue: map<BookId, Book>)
      requires forall k :: k in catalogue ==> catalogue[k].inventory >= 0
      ensures Valid() && Conserved()
      ensures books == catalogue && borrowings == [] && payments == []
    {
      books := catalogue;
      borrowings := [];
      payments := [];
      stock := map k | k in catalogue :: catalogue[k].inventory;
    }

    /**
     * `BorrowingCreateSerializer.create` after `perform_create`: take one copy
     * off the shelf and save it, then insert the row for the requesting user.
     * The two writes are separate: when the database refuses the row, the
     * stock change stays.
     */
    method SaveNew(user: UserId, attrs: CreateAttrs) returns (r: Result<Borrowing, CreateError>)
      requires Valid()
      requires attrs.book in books && books[attrs.book].inventory >= 1
      requires !HasOpenBorrowing(borrowings, user, attrs.book)
      modifies this
      ensures Valid()
      ensures payments == old(payments) && stock == old(stock)
      ensures books == old(books)[attrs.book := old(books)[attrs.book].(inventory := old(books)[attrs.book].inventory - 1)]
      ensures attrs.expectedReturnDate <= attrs.borrowDate ==> r == Err(IntegrityError) && borrowings == old(borrowings)
      ensures attrs.expectedReturnDate > attrs.borrowDate ==>
                && r == Ok(Borrowing(|old(borrowings)|, user, attrs.book, attrs.borrowDate, attrs.expectedReturnDate, None))
                && borrowings == old(borrowings) + [r.value]
      ensures r.Ok? && old(Conserved()) ==> Conserved()
      ensures r.Err? && old(Conserved()) ==>
                books[attrs.book].inventory + OpenCount(borrowings, attrs.book) == stock[attrs.book] - 1
    {
      var book := books[attrs.book];
      books := books[attrs.book := book.(inventory := book.inventory - 1)];
      var row := Borrowing(|borrowings|, user, attrs.book, attrs.borrowDate, attrs.expectedReturnDate, None);
      if !SatisfiesConstraints(row) {
        return Err(IntegrityError);
      }
      ghost var before := borrowings;
      borrowings := borrowings + [row];
      assert borrowings[..|borrowings| - 1] == before;
      r := Ok(row);
    }

    /**
     * Create a borrowing as the service does: validate, then save. An
     * expected return date equal to today passes validation but not the
     * table constraint, so the request fails after the stock was reduced.
     */
    method Create(user: UserId, book: BookId, expected: Day, today: Day) returns (r: Result<Borrowing, CreateError>)
      requires Valid()
      modifies this
      ensures Valid()
      ensures payments == old(payments) && stock == old(stock)
      ensures var v := ValidateCreate(old(books), old(borrowings), old(payments), user, book, expected, today);
              && (v.Err? ==> r == Err(v.error) && books == old(books) && borrowings == old(borrowings))
              && (v.Ok? ==> books == old(books)[book := old(books)[book].(inventory := old(books)[book].inventory - 1)])
              && (v.Ok? && expected == today ==> r == Err(IntegrityError) && borrowings == old(borrowings))
              && (v.Ok? && expected > today ==>
                    && r == Ok(Borrowing(|old(borrowings)|, user, book, today, expected, None))
                    && borrowings == old(borrowings) + [r.value])
      ensures r.Ok? ==> r.value.user == user && r.value.borrowDate == today && r.value.IsOpen()
      ensures r.Ok? && old(Conserved()) ==> Conserved()
      ensures r == Err(IntegrityError) && old(Conserved()) ==>
                books[book].inventory + OpenCount(borrowings, book) == stock[book] - 1
    {
      var v := ValidateCreate(books, borrowings, payments, user, book, expected, today);
      if v.Err? {
        return Err(v.error);
      }
      r := SaveNew(user, v.value);
    }

    /** Create with the corrected date validation: the database never refuses the row and no copy goes missing. */
    method CreateChecked(user: UserId, book: BookId, expected: Day, today: Day) returns (r: Result<Borrowing, CreateError>)
      requires Valid()
      modifies this
      ensures Valid()
      ensures payments == old(payments) && stock == old(stock)
      ensures r != Err(IntegrityError)
      ensures var v := ValidateCreateStrict(old(books), old(borrowings), old(payments), user, book, expected, today);
              && (v.Err? ==> r == Err(v.error) && books == old(books) && borrowings == old(borrowings))
              && (v.Ok? ==>
                    && books == old(books)[book := old(books)[book].(inventory := old(books)[book].inventory - 1)]
                    && r == Ok(Borrowing(|old(borrowings)|, user, book, today, expected, None))
                    && borrowings == old(borrowings) + [r.value])
      ensures old(Conserved()) ==> Conserved()
    {
      var v := ValidateCreateStrict(books, borrowings, payments, user, book, expected, today);
      if v.Err? {
        return Err(v.error);
      }
      r := SaveNew(user, v.value);
    }

    /**
     * `return_borrowing_book`: find the borrowing among those the caller may
     * see; if it is not returned, stamp today as its return date and put the
     * copy back on the shelf; otherwise refuse and change nothing.
     */
    method Return(caller: Caller, q: Query, id: nat, today: Day) returns (r: Result<Day, ReturnError>)
      requires Valid()
      modifies this
      ensures Valid()
      ensures payments == old(payments) && stock == old(stock)
      ensures r.Err? ==> books == old(books) && borrowings == old(borrowings)
      ensures r == Err(NotFound) <==> !(id < |old(borrowings)| && Matches(old(borrowings)[id], caller, q))
      ensures r == Err(AlreadyReturned) <==>
                id < |old(borrowings)| && Matches(old(borrowings)[id], caller, q) && !old(borrowings)[id].IsOpen()
      ensures r == Err(ReturnRejected) <==>
                id < |old(borrowings)| && Matches(old(borrowings)[id], caller, q) && old(borrowings)[id].IsOpen()
                && today < old(borrowings)[id].borrowDate
      ensures r.Ok? <==>
                id < |old(borrowings)| && Matches(old(borrowings)[id], caller, q) && old(borrowings)[id].IsOpen()
                && today >= old(borrowings)[id].borrowDate
      ensures r.Ok? ==>
                var b := old(borrowings)[id];
                && r.value == today
                && borrowings == old(borrowings)[id := b.(actualReturnDate := Some(today))]
                && books == old(books)[b.book := old(books)[b.book].(inventory := old(books)[b.book].inventory + 1)]
                && !HasOpenBorrowing(borrowings, b.user, b.book)
      ensures old(Conserved()) ==> Conserved()
    {
      var found := FindById(FilterBorrowings(borrowings, caller, q), id);
      if found.None? {
        assert id < |borrowings| ==> borrowings[id].id == id;
        return Err(NotFound);
      }
      var b := found.value;
      assert b == borrowings[id];
      if b.actualReturnDate.None? {
        var returned := b.(actualReturnDate := Some(today));
        if !SatisfiesConstraints(returned) {
          return Err(ReturnRejected);
        }
        ghost var before := borrowings;
        books := books[b.book := books[b.book].(inventory := books[b.book].inventory + 1)];
        borrowings := borrowings[id := returned];
        forall k | k in books
          ensures OpenCount(borrowings, k) == OpenCount(before, k) - (if b.book == k then 1 else 0)
        {
          OpenCountAfterReturn(before, id, today, k);
        }
        assert !HasOpenBorrowing(borrowings, b.user, b.book) by {
          forall i | 0 <= i < |borrowings| && borrowings[i].user == b.user && borrowings[i].book == b.book
            ensures !borrowings[i].IsOpen()
          {
            if i != id {
              assert before[i] == borrowings[i];
            }
          }
        }
        return Ok(today);
      }
      return Err(AlreadyReturned);
    }

    /**
     * `create_payment_session`: compute the charge for the borrowing, open a
     * gateway session for it, and build a PENDING payment, which is stored
     * only when `save` is set.
     */
    method CreatePaymentSession(id: nat, kind: PaymentType, save: bool, checkout: (int, string) -> Session)
      returns (r: Result<Payment, PaymentError>)
      requires Valid() && id < |borrowings|
      modifies this
      ensures Valid()
      ensures books == old(books) && borrowings == old(borrowings) && stock == old(stock)
      ensures var b := borrowings[id];
              var charge := ChargeFor(b, books[b.book], kind);
              && (charge.None? ==> r == Err(FineForOpenBorrowing))
              && (charge.Some? ==> r == Ok(NewPayment(id, kind, charge.value,
                                                     checkout(charge.value.amount, charge.value.productName))))
      ensures payments == if r.Ok? && save then old(payments) + [r.value] else old(payments)
      ensures r.Ok? && save ==> HasPendingPayment(payments, borrowings, borrowings[id].user)
    {
      var b := borrowings[id];
      var charge := ChargeFor(b, books[b.book], kind);
      if charge.None? {
        return Err(FineForOpenBorrowing);
      }
      var session := checkout(charge.value.amount, charge.value.productName);
      var payment := NewPayment(id, kind, charge.value, session);
      if save {
        payments := payments + [payment];
        assert payments[|payments| - 1] == payment;
      }
      r := Ok(payment);
    }
  }

  /**
   * Borrowing a book and returning it puts the shelf count back where it
   * was. The borrower finds their borrowing without any query parameters.
   */
  method BorrowThenReturn(lib: LibraryState, user: UserId, book: BookId, expected: Day, today: Day, returnDay: Day)
    returns (created: Result<Borrowing, CreateError>, returned: Result<Day, ReturnError>)
    requires lib.Valid()
    modifies lib
    ensures lib.Valid()
    ensures created.Ok? ==> returnDay >= today ==> returned == Ok(returnDay)
    ensures created.Ok? && returned.Ok? ==>
              book in old(lib.books) && book in lib.books && lib.books[book].inventory == old(lib.books[book].inventory)
    ensures created.Ok? && returned.Ok? ==> !HasOpenBorrowing(lib.borrowings, user, book)
  {
    created := lib.Create(user, book, expected, today);
    if created.Err? {
      returned := Err(NotFound);
      return;
    }
    var borrowing := created.value;
    var caller := Caller(user, false, false);
    assert Lower("") == "" && ActivityFilter(Query(None, None)) == None;
    assert borrowing.id < |lib.borrowings| && lib.borrowings[borrowing.id] == borrowing;
    assert Matches(borrowing, caller, Query(None, None));
    returned := lib.Return(caller, Query(None, None), borrowing.id, returnDay);
  }

  /** Returning twice is refused the second time, and the copy goes back on the shelf only once. */
  method ReturnTwice(lib: LibraryState, caller: Caller, id: nat, today: Day, later: Day)
    returns (first: Result<Day, ReturnError>, second: Result<Day, ReturnError>)
    requires lib.Valid()
    modifies lib
    ensures first.Ok? ==> second == Err(AlreadyReturned)
    ensures first.Ok? ==> id < |old(lib.borrowings)|
    ensures first.Ok? ==> lib.books == old(lib.books)[old(lib.borrowings)[id].book :=
              old(lib.books)[old(lib.borrowings)[id].book].(inventory := old(lib.books)[old(lib.borrowings)[id].book].inventory + 1)]
  {
    first := lib.Return(caller, Query(None, None), id, today);
    second := lib.Return(caller, Query(None, None), id, later);
  }
}
