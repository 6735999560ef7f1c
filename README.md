# Library service borrowing rules in Dafny

This project models the business rules of a library-management web service.
Users borrow books, which takes one copy off the shelf. They return them, which
puts the copy back. Payments and fines are charged through a checkout gateway,
and a periodic task reports borrowings that are due or overdue. The model covers:

- the borrowing record: its two table check constraints, the `days`,
  `overdue_days`, payment and fine formulas, `is_overdue`, and the ordered
  date validation (`BorrowingModels`);
- the guard chain run before a borrowing is created (`BorrowingSerializers`);
- the stored state (books with their shelf count, borrowings, payments) and
  the create, return and payment-session operations on it, as the class
  `Library.LibraryState`;
- the borrowing list filter (`BorrowingFilters`);
- the product-name sanitiser and the choice of amount and name for a
  checkout session (`PaymentServices`);
- the overdue scan and its per-borrowing message classification
  (`BorrowingTasks`);
- the write permission on the book catalogue (`BookPermissions`).

Dates are day numbers. The daily fee is integer cents: the service stores a
two-decimal fee and multiplies by 100 before `int()`, and that truncation is
exact on whole cents. The clock (`today`) is a parameter. The payment gateway
is a function parameter `checkout(amount, productName) -> Session(id, url)`.

Besides the properties of each operation, the class keeps two invariants:
- `Valid`: every stored row satisfies the table constraints, shelf counts are
  never negative, and no user holds two unreturned borrowings of the same book.
- `Conserved`: shelf count plus open borrowings equals the copies owned.
  `Return` and `CreateChecked` preserve it. `Create` breaks it on one input
  (see Findings).

Behaviour of the code worth noting:
- A return never opens a fine session (borrowing/views.py:47-65).
- `overdue_days` is not clamped at zero, so an early return gives a negative
  fine (borrowing/models.py:27-33).
- Payments have only the PENDING and PAID statuses (payment/models.py:8-10).
- Creation saves the stock change before inserting the row, with no rollback
  around the two writes (borrowing/serializers.py:105-110).
- An expected return date equal to today passes validation
  (borrowing/models.py:74).

## Model

| member | source | states |
|---|---|---|
| `BorrowingModels.Days` | borrowing/models.py:22-25 | the loan length is at least one day exactly when the row satisfies the "expected after borrow" constraint |
| `BorrowingModels.OverdueDays` | borrowing/models.py:27-30 | defined exactly for returned borrowings; expected date plus overdue days is the actual return date (negative when early) |
| `BorrowingModels.PaymentAmount` | borrowing/models.py:35-36 | for a valid row and a non-negative fee the charge is at least one day's fee; positive for a positive fee |
| `BorrowingModels.FineAmount` | borrowing/models.py:27-33 | defined exactly for returned borrowings; with a positive fee it is positive iff returned late, negative iff returned early, zero iff on time |
| `BorrowingModels.IsOverdue` | borrowing/models.py:38-42 | raises "Book is not returned" exactly for an open borrowing; otherwise true iff overdue days are positive |
| `BorrowingModels.OverdueIffFined` | borrowing/models.py:32-42 | a returned borrowing with a positive fee is overdue iff its fine is positive |
| `BorrowingModels.ValidateDates` | borrowing/models.py:57-79 | passes iff both dates are given, the actual date (if any) is not before the borrow date and the borrow date is not after the expected date; a missing actual date never raises the actual-date error |
| `BorrowingModels.ValidateDatesIsFirstFailure` | borrowing/models.py:58-79 | the error raised is that of the first failing guard in the order borrow date, expected date, actual before borrow, borrow after expected, and every earlier guard holds |
| `BorrowingModels.Clean` | borrowing/models.py:81-88 | every row the constraints accept passes `clean`; it passes iff the actual date is null or not before the borrow date and the borrow date is not after the expected date |
| `BorrowingModels.ConstraintsImplyValidation` | borrowing/models.py:44-79 | every row satisfying both check constraints passes `validate_dates` |
| `BorrowingModels.SameDayReturnPassesValidation` | borrowing/models.py:46-79 | the converse fails: an expected date equal to the borrow date passes `validate_dates` but violates the constraint |
| `BorrowingModels.ValidateDatesStrict` | borrowing/models.py:74-79 | corrected guard (rejects expected not after borrow); whatever it accepts the original accepts |
| `BorrowingModels.StrictValidationMatchesConstraints` | borrowing/models.py:44-79 | the corrected validation accepts a row iff the row satisfies both check constraints |
| `BorrowingSerializers.AvailabilityGuards` | borrowing/serializers.py:71-91 | passes iff the book exists, the user has no pending payment, holds no open borrowing of it, and stock is at least 1; a pending payment beats already-borrowed, which beats out-of-stock |
| `BorrowingSerializers.ValidateCreate` | borrowing/serializers.py:71-103 | accepts iff the guards pass and the (required) expected date is not before today; the accepted borrow date is today; guard errors take precedence over the date check, whose only possible error is "Expected return date must be after borrow date." |
| `BorrowingSerializers.ValidateCreateStrict` | borrowing/serializers.py:93-101 | corrected create validation: requires the expected date strictly after today; anything it accepts the original accepts identically |
| `BorrowingSerializers.OutOfStockRefused` | borrowing/serializers.py:90-91 | with no pending payment and no open borrowing of the book, stock at or below zero yields "The book is out of stock" |
| `BorrowingSerializers.PastExpectedDateRefused` | borrowing/serializers.py:93-101 | once the guards pass, an expected date before today is refused with "Expected return date must be after borrow date." |
| `Library.LibraryState.SaveNew` | borrowing/serializers.py:105-110 | decrements exactly the chosen book's stock; inserts the row for the user if it satisfies the constraints, else fails with the stock already decremented |
| `Library.LibraryState.Create` | borrowing/serializers.py:71-110 | on a validation error nothing changes; otherwise stock of that book drops by one and no other book changes; the new row belongs to the requesting user, is borrowed today and open; an expected date equal to today fails at insert with one copy lost |
| `Library.LibraryState.CreateChecked` | borrowing/serializers.py:93-110 | corrected create: never fails at insert and keeps the copy count conserved |
| `Library.LibraryState.Return` | borrowing/views.py:41-65 | not visible to the caller: not found; already returned: refused with nothing changed; succeeds exactly when the borrowing is visible, open and today is not before its borrow date, and then the actual date becomes today, that book's stock rises by one, and the user no longer holds the book |
| `Library.BorrowThenReturn` | borrowing/views.py:38-54 | a create followed by a return of the same borrowing leaves the book's stock as before and the user free to borrow it again |
| `Library.ReturnTwice` | borrowing/views.py:49-65 | a second return of the same borrowing is refused and the stock rose only once |
| `Library.LibraryState.CreatePaymentSession` | payment/services.py:18-66 | builds the PENDING payment from the gateway session and the computed charge, stores it iff `save`, and a stored one makes the borrower's next create fail with pending payments |
| `BorrowingFilters.Where` | borrowing/filters.py:34-43 | one filter step keeps exactly the borrowings meeting its criterion, in order |
| `BorrowingFilters.ActivityFilter` | borrowing/filters.py:31-37 | the lower-cased `is_active` selects open, returned or no filtering |
| `BorrowingFilters.FilterBorrowings` | borrowing/filters.py:29-45 | the result is an order-preserving subsequence of the input holding exactly the borrowings that match activity, admin `user_id`, and own-user for non-admins |
| `BorrowingFilters.ActiveKeepsOpen` | borrowing/filters.py:31-35 | "true" or "1" in any case keeps exactly the open borrowings |
| `BorrowingFilters.InactiveKeepsReturned` | borrowing/filters.py:36-37 | "false" or "0" in any case keeps exactly the returned borrowings |
| `BorrowingFilters.ActiveIsCaseInsensitive` | borrowing/filters.py:31 | for every `is_active` value, caller and `user_id`, the value selects and filters exactly as its lower-cased form does |
| `BorrowingFilters.UnrecognisedActiveNoFilter` | borrowing/filters.py:34-37 | an absent or unrecognised `is_active` filters nothing for an admin without `user_id` |
| `BorrowingFilters.NonAdminSeesOwn` | borrowing/filters.py:39-43 | a non-admin sees only their own borrowings and `user_id` changes nothing for them |
| `BorrowingFilters.FilterIdempotent` | borrowing/filters.py:29-45 | filtering the result again gives the same result |
| `PaymentServices.KeepAllowed` | payment/services.py:14 | the result holds only ASCII letters, ASCII digits and whitespace |
| `PaymentServices.KeepAllowedIsFilter` | payment/services.py:14 | the result is an order-preserving subsequence with each allowed character as often as in the input and no other character |
| `PaymentServices.KeepAllowedOfClean` | payment/services.py:14 | a string of allowed characters is kept whole |
| `PaymentServices.SanitizeProductName` | payment/services.py:13-15 | at most 127 characters, all allowed, a prefix of the allowed characters of length min(127, their count), and a subsequence of the input |
| `PaymentServices.SanitizeKeepsCleanName` | payment/services.py:13-15 | an already clean name of at most 127 characters is returned unchanged |
| `PaymentServices.SanitizeIdempotent` | payment/services.py:13-15 | sanitising twice equals sanitising once |
| `PaymentServices.ChargeFor` | payment/services.py:25-32 | PAYMENT charges the loan price under the sanitised title; FINE charges the fine under the sanitised "Fine for " title and is defined exactly for returned borrowings |
| `PaymentServices.FineNameIsPrefixedTitle` | payment/services.py:29-32 | the fine's product name is a prefix of "Fine for " followed by the title's allowed characters |
| `PaymentServices.NewPayment` | payment/services.py:56-62 | the payment is PENDING, of the requested type, for the borrowing, with the computed amount and the session's id and URL |
| `BorrowingTasks.SelectDue` | borrowing/tasks.py:13-16 | keeps, in order, exactly the open borrowings due on or before tomorrow |
| `BorrowingTasks.NoticeFor` | borrowing/tasks.py:25-40 | "tomorrow" notice iff due tomorrow, otherwise the "overdue" notice, never the "no overdue" one |
| `BorrowingTasks.SendOverdueNotifications` | borrowing/tasks.py:12-45 | sends exactly "No overdue borrowings" when nothing is selected, otherwise one notice per selected borrowing in order |
| `BorrowingTasks.NoticesDescribeDueBorrowings` | borrowing/tasks.py:13-45 | each notice concerns an open borrowing due by tomorrow; "tomorrow" iff due tomorrow, "overdue" iff due today or earlier; no "no overdue" notice among them |
| `BorrowingTasks.NothingDueWhenAllReturned` | borrowing/tasks.py:13-24 | when every borrowing is returned nothing is selected |
| `BookPermissions.HasPermission` | book/permissions.py:9-13 | safe methods are always allowed, staff are always allowed, anything else is refused |
| `BookPermissions.StaffPermittedWhateverOthersAre` | book/permissions.py:11-13 | whatever any user is permitted, a staff user is permitted |
| `BookPermissions.NonStaffCannotWrite` | book/permissions.py:11-13 | POST, PUT, PATCH and DELETE are refused to non-staff and anonymous requests |

## Findings

| source | as written | input that shows it | evidently intended | confidence | as-written member | corrected member |
|---|---|---|---|---|---|---|
| borrowing/models.py:74 with borrowing/serializers.py:105-110 | `validate_dates` rejects only `borrow_date > expected_return_date`. `create` then decrements and saves the stock before inserting the row. | `expected_return_date` equal to today: validation passes, the stock is saved one lower, the insert violates "expected_return_after_borrow" and fails, and one copy is lost | reject an expected date not strictly after the borrow date, as the error message and the constraint say | not executed; the copy is lost unless the deployment wraps each request in a transaction (the settings are not part of this model) | `BorrowingModels.SameDayReturnPassesValidation`, `Library.LibraryState.Create` | `BorrowingModels.ValidateDatesStrict`, `Library.LibraryState.CreateChecked` |

## Left out

- The checkout gateway (creating and retrieving sessions) is a function parameter. The success and cancel URLs are built by the web framework and are left out.
- The expiry scan in payment/tasks.py is left out. It sets a status the Payment model does not define and never saves it. The model has no EXPIRED status and no expiry step.
- No code in this model marks a payment PAID, so `Paid` exists only as a value.
- Chat transport and the notification signals are left out. The text of each message is left out too (book `__str__`, user email). `BorrowingTasks.NoticeFor` produces a notice that carries the book, the user and, for overdue ones, the expected date, not the formatted text.
- Transactions, row locking and concurrent requests are not modelled. Each operation is one sequential step. `Library.LibraryState.Return` refuses a return dated before the borrow date with nothing changed, which is the rollback of its atomic block. `Library.LibraryState.Create` has no such block.
- `Library.LibraryState.Create`, `Library.LibraryState.CreateChecked`, `Library.LibraryState.Return`: one `today` stands for three separate clock reads: the date `validate` checks against (borrowing/serializers.py:93), the `borrow_date` the database fills in at insert (`auto_now_add`, borrowing/models.py:14) and the return date (borrowing/views.py:51). `CreateChecked` never failing at insert, the new row being "borrowed today", and a same-day return being accepted hold only when those reads give the same date. With a local time zone other than UTC, or a request that crosses midnight, an expected date of today plus one can still fail at insert and lose a copy, and a same-day return can be refused.
- Authentication of the borrowing endpoints is left out. So is field-level request parsing (a missing or malformed `book` or `expected_return_date` field): the expected return date is a required serializer field, rejected before `validate` runs when absent, so the model takes it as always present. An unknown book is the single error `UnknownBook`.
- `BorrowingFilters.FilterBorrowings` takes `user_id` as an optional number. A non-numeric `user_id` makes the database lookup raise, and that case is not modelled.
- `BorrowingFilters.Lower` changes only ASCII letters. No non-ASCII character lower-cases to a letter of "true" or "false", so the filter's decision is the same.
- `BorrowingModels.PaymentAmount` and `BorrowingModels.FineAmount` work on whole cents. A fee with more than two decimal places, where `int()` would truncate, is not modelled.
- book/models.py is not part of this model. A book is reduced to its title, daily fee and shelf count, and the shelf counts are assumed non-negative at the start.
- Deleting books or users (cascades), caching, the admin site, URL routing and the user app are left out.
