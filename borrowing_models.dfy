/**
 * The Borrowing record of the library service: its date columns, the two
 * database check constraints, the money formulas and the ordered date
 * validation.
 *
 * Dates are day numbers (consecutive calendar days differ by 1), so a date
 * difference `delta.days` is plain subtraction. A book's daily fee is kept in
 * integer cents; the service multiplies the two-decimal fee by 100 and
 * truncates with int(), which is exact on whole cents.
 */
module BorrowingModels {
  import opened Wrappers

  type Day = int
  type UserId = nat
  type BookId = nat

  /** A fine costs this many times the daily fee per day late. */
  const FINE_MULTIPLIER: int := 2

  /** The book columns the borrowing logic reads and writes. */
  datatype Book = Book(title: string, dailyFeeCents: int, inventory: int)

  datatype Borrowing = Borrowing(
    id: nat,
    user: UserId,
    book: BookId,
    borrowDate: Day,
    expectedReturnDate: Day,
    actualReturnDate: Option<Day>)
  {
    /** Not yet returned: `actual_return_date` is NULL. */
    predicate IsOpen() {
      actualReturnDate.None?
    }
  }

  // ---------------------------------------------------------------------
  // The check constraints of the borrowing table
  // ---------------------------------------------------------------------

  /** Constraint "expected_return_after_borrow". */
  predicate ExpectedAfterBorrow(b: Borrowing) {
    b.expectedReturnDate > b.borrowDate
  }

  /** Constraint "actual_return_after_borrow_or_null". */
  predicate ActualAfterBorrowOrNull(b: Borrowing) {
    b.actualReturnDate.None? || b.actualReturnDate.value >= b.borrowDate
  }

  /** A row the database accepts. */
  predicate SatisfiesConstraints(b: Borrowing) {
    ExpectedAfterBorrow(b) && ActualAfterBorrowOrNull(b)
  }

  // ---------------------------------------------------------------------
  // Money formulas
  // ---------------------------------------------------------------------

  /** The `days` property: length of the agreed loan. */
  function Days(b: Borrowing): (r: int)
    ensures r >= 1 <==> ExpectedAfterBorrow(b)
    ensures b.borrowDate + r == b.expectedReturnDate
  {
    b.expectedReturnDate - b.borrowDate
  }

  /**
   * The `overdue_days` property: days between expected and actual return,
   * negative for an early return. None where the service raises because
   * `actual_return_date` is NULL.
   */
  function OverdueDays(b: Borrowing): (r: Option<int>)
    ensures r.Some? <==> !b.IsOpen()
    ensures r.Some? ==> b.expectedReturnDate + r.value == b.actualReturnDate.value
  {
    match b.actualReturnDate
    case None => None
    case Some(actual) => Some(actual - b.expectedReturnDate)
  }

  /** `get_payment_amount`: the daily fee times the loan length, in cents. */
  function PaymentAmount(b: Borrowing, feeCents: int): (r: int)
    ensures SatisfiesConstraints(b) && feeCents >= 0 ==> r >= feeCents >= 0
    ensures ExpectedAfterBorrow(b) && feeCents > 0 ==> r > 0
  {
    var d := Days(b);
    assert d >= 1 && feeCents >= 0 ==> feeCents * d >= feeCents by {
      if d >= 1 && feeCents >= 0 {
        MulMonotone(feeCents, 1, d);
      }
    }
    feeCents * d
  }

  /**
   * `get_fine_amount`: FINE_MULTIPLIER times the (unclamped) overdue days
   * times the daily fee, in cents. None where the service raises because the
   * book has not been returned.
   */
  function FineAmount(b: Borrowing, feeCents: int): (r: Option<int>)
    ensures r.Some? <==> !b.IsOpen()
    ensures r.Some? && feeCents > 0 ==> (r.value > 0 <==> b.actualReturnDate.value > b.expectedReturnDate)
    ensures r.Some? && feeCents > 0 ==> (r.value < 0 <==> b.actualReturnDate.value < b.expectedReturnDate)
    ensures r.Some? ==> (r.value == 0 <==> feeCents == 0 || b.actualReturnDate.value == b.expectedReturnDate)
  {
    match OverdueDays(b)
    case None => None
    case Some(late) =>
      SignOfProduct(FINE_MULTIPLIER * late, feeCents);
      Some(FINE_MULTIPLIER * late * feeCents)
  }

  lemma MulMonotone(k: int, x: int, y: int)
    requires k >= 0 && x <= y
    ensures k * x <= k * y
  {
  }

  lemma SignOfProduct(x: int, y: int)
    ensures y > 0 ==> (x * y > 0 <==> x > 0) && (x * y < 0 <==> x < 0)
    ensures x * y == 0 <==> x == 0 || y == 0
  {
  }

  /**
   * The `is_overdue` property: an error while the book is out, otherwise
   * whether it came back after the expected date.
   */
  function IsOverdue(b: Borrowing): (r: Result<bool, string>)
    ensures r.Err? <==> b.IsOpen()
    ensures r.Err? ==> r.error == "Book is not returned"
    ensures r.Ok? ==> (r.value <==> OverdueDays(b).value > 0)
  {
    match b.actualReturnDate
    case None => Err("Book is not returned")
    case Some(actual) => Ok(actual > b.expectedReturnDate)
  }

  /** A returned borrowing is overdue exactly when it is charged a positive fine. */
  lemma OverdueIffFined(b: Borrowing, feeCents: int)
    requires !b.IsOpen() && feeCents > 0
    ensures IsOverdue(b).Ok? && FineAmount(b, feeCents).Some?
    ensures IsOverdue(b).value <==> FineAmount(b, feeCents).value > 0
  {
  }

  // ---------------------------------------------------------------------
  // Date validation
  // ---------------------------------------------------------------------

  datatype DateField = BorrowDateField | ExpectedReturnDateField | ActualReturnDateField

  /** A field-keyed validation message. */
  datatype DateError = DateError(field: DateField, message: string)

  const MissingBorrowDate := DateError(BorrowDateField, "Borrow date must be specified.")
  const MissingExpectedDate := DateError(ExpectedReturnDateField, "Expected return date must be specified.")
  const ActualBeforeBorrow := DateError(ActualReturnDateField, "Actual return date cannot be before borrow date.")
  const ExpectedBeforeBorrow := DateError(ExpectedReturnDateField, "Expected return date must be after borrow date.")

  /**
   * `validate_dates`: four guards tried in order; the first that fails
   * raises its error. Missing dates are None.
   */
  function ValidateDates(borrow: Option<Day>, expected: Option<Day>, actual: Option<Day>): (r: Outcome<DateError>)
    ensures r.Pass? <==>
              borrow.Some? && expected.Some?
              && (actual.None? || actual.value >= borrow.value)
              && borrow.value <= expected.value
    ensures actual.None? ==> r != Fail(ActualBeforeBorrow)
  {
    if borrow.None? then Fail(MissingBorrowDate)
    else if expected.None? then Fail(MissingExpectedDate)
    else if actual.Some? && actual.value < borrow.value then Fail(ActualBeforeBorrow)
    else if borrow.value > expected.value then Fail(ExpectedBeforeBorrow)
    else Pass
  }

  /** `clean` on a stored row: validate its own three dates. */
  function Clean(b: Borrowing): (r: Outcome<DateError>)
    ensures SatisfiesConstraints(b) ==> r.Pass?
    ensures r.Pass? <==> ActualAfterBorrowOrNull(b) && b.borrowDate <= b.expectedReturnDate
  {
    ValidateDates(Some(b.borrowDate), Some(b.expectedReturnDate), b.actualReturnDate)
  }

  /** One guard of an ordered chain: the condition that must hold and the error raised otherwise. */
  datatype Guard = Guard(holds: bool, error: DateError)

  /** Reference reading of a guard chain: the error of the first guard that does not hold. */
  function FirstFailure(guards: seq<Guard>): (r: Outcome<DateError>)
    ensures r.Pass? <==> forall k :: 0 <= k < |guards| ==> guards[k].holds
    ensures r.Fail? ==> exists k :: 0 <= k < |guards| && !guards[k].holds && guards[k].error == r.error
                                    && forall j :: 0 <= j < k ==> guards[j].holds
  {
    if guards == [] then Pass
    else if !guards[0].holds then Fail(guards[0].error)
    else
      var rest := FirstFailure(guards[1..]);
      if rest.Fail? then
        var k :| 0 <= k < |guards[1..]| && !guards[1..][k].holds && guards[1..][k].error == rest.error
                 && forall j :: 0 <= j < k ==> guards[1..][j].holds;
        assert !guards[k + 1].holds && forall j :: 0 <= j < k + 1 ==> guards[j].holds by {
          forall j | 0 <= j < k + 1 ensures guards[j].holds {
            if j > 0 { assert guards[j] == guards[1..][j - 1]; }
          }
        }
        rest
      else
        assert forall k :: 1 <= k < |guards| ==> guards[k] == guards[1..][k - 1];
        rest
  }

  /** The guards of `validate_dates`, in the order the service tries them. */
  function DateGuards(borrow: Option<Day>, expected: Option<Day>, actual: Option<Day>): seq<Guard> {
    [ Guard(borrow.Some?, MissingBorrowDate),
      Guard(expected.Some?, MissingExpectedDate),
      Guard(!(borrow.Some? && actual.Some? && actual.value < borrow.value), ActualBeforeBorrow),
      Guard(!(borrow.Some? && expected.Some? && borrow.value > expected.value), ExpectedBeforeBorrow) ]
  }

  /**
   * `validate_dates` reports the error of the first failing guard and only
   * that one: every earlier guard holds.
   */
  lemma ValidateDatesIsFirstFailure(borrow: Option<Day>, expected: Option<Day>, actual: Option<Day>)
    ensures ValidateDates(borrow, expected, actual) == FirstFailure(DateGuards(borrow, expected, actual))
  {
    var g := DateGuards(borrow, expected, actual);
    var g1, g2, g3 := g[1..], g[1..][1..], g[1..][1..][1..];
    assert g3[1..] == [];
    assert FirstFailure(g3) == if g[3].holds then Pass else Fail(g[3].error);
    assert FirstFailure(g2) == if g[2].holds then FirstFailure(g3) else Fail(g[2].error);
    assert FirstFailure(g1) == if g[1].holds then FirstFailure(g2) else Fail(g[1].error);
  }

  /** Every row the database accepts passes `validate_dates`. */
  lemma ConstraintsImplyValidation(b: Borrowing)
    requires SatisfiesConstraints(b)
    ensures ValidateDates(Some(b.borrowDate), Some(b.expectedReturnDate), b.actualReturnDate).Pass?
  {
  }

  /**
   * The converse fails: `validate_dates` accepts an expected return date on
   * the borrow date itself, which the "expected_return_after_borrow"
   * constraint rejects.
   */
  lemma SameDayReturnPassesValidation(d: Day, user: UserId, book: BookId)
    ensures ValidateDates(Some(d), Some(d), None).Pass?
    ensures !SatisfiesConstraints(Borrowing(0, user, book, d, d, None))
  {
  }

  /**
   * Corrected validation: reject an expected return date that is not strictly
   * after the borrow date, as the message "must be after borrow date" and the
   * table constraint both say.
   */
  function ValidateDatesStrict(borrow: Option<Day>, expected: Option<Day>, actual: Option<Day>): (r: Outcome<DateError>)
    ensures actual.None? ==> r != Fail(ActualBeforeBorrow)
    ensures r.Pass? ==> ValidateDates(borrow, expected, actual).Pass?
  {
    if borrow.None? then Fail(MissingBorrowDate)
    else if expected.None? then Fail(MissingExpectedDate)
    else if actual.Some? && actual.value < borrow.value then Fail(ActualBeforeBorrow)
    else if borrow.value >= expected.value then Fail(ExpectedBeforeBorrow)
    else Pass
  }

  /** The corrected validation accepts exactly the rows the database accepts. */
  lemma StrictValidationMatchesConstraints(b: Borrowing)
    ensures ValidateDatesStrict(Some(b.borrowDate), Some(b.expectedReturnDate), b.actualReturnDate).Pass?
            <==> SatisfiesConstraints(b)
  {
  }
}
