/**
 * Payment records and the pure part of opening a checkout session: which
 * amount and product name are charged, and the sanitising of that name.
 * The payment gateway itself is an opaque function from (amount, name) to a
 * session id and URL.
 */
module PaymentServices {
  import opened Wrappers
  import opened Sequences
  import opened BorrowingModels

  datatype PaymentStatus = Pending | Paid
  datatype PaymentType = PaymentCharge | FineCharge

  datatype Payment = Payment(
    borrowing: nat,
    sessionUrl: string,
    sessionId: string,
    moneyToPay: int,
    kind: PaymentType,
    status: PaymentStatus)

  /** What the gateway hands back for a new checkout session. */
  datatype Session = Session(id: string, url: string)

  /** The longest product name the service sends to the gateway. */
  const MAX_PRODUCT_NAME: nat := 127

  // ---------------------------------------------------------------------
  // Product-name sanitiser
  // ---------------------------------------------------------------------

  predicate IsAsciiLetter(c: char) {
    'a' <= c <= 'z' || 'A' <= c <= 'Z'
  }

  predicate IsAsciiDigit(c: char) {
    '0' <= c <= '9'
  }

  /** The characters a regular expression `\s` matches in a text pattern (Unicode whitespace). */
  predicate IsWhitespace(c: char) {
    || '\U{0009}' <= c <= '\U{000D}'
    || '\U{001C}' <= c <= '\U{0020}'
    || c == '\U{0085}' || c == '\U{00A0}' || c == '\U{1680}'
    || '\U{2000}' <= c <= '\U{200A}'
    || c == '\U{2028}' || c == '\U{2029}' || c == '\U{202F}' || c == '\U{205F}' || c == '\U{3000}'
  }

  /** A character the sanitiser keeps. */
  predicate IsAllowed(c: char) {
    IsAsciiLetter(c) || IsAsciiDigit(c) || IsWhitespace(c)
  }

  predicate IsClean(s: string) {
    forall i :: 0 <= i < |s| ==> IsAllowed(s[i])
  }

  /** Delete every character outside letters, digits and whitespace. */
  function KeepAllowed(s: string): (r: string)
    ensures IsClean(r)
    ensures |r| <= |s|
    decreases |s|
  {
    if s == [] then []
    else if IsAllowed(s[0]) then [s[0]] + KeepAllowed(s[1..])
    else KeepAllowed(s[1..])
  }

  /**
   * KeepAllowed is the filter it claims to be: an order-preserving
   * subsequence holding every allowed character as often as the input and
   * no other character.
   */
  lemma {:induction false} KeepAllowedIsFilter(s: string)
    ensures IsSubsequence(KeepAllowed(s), s)
    ensures forall c :: IsAllowed(c) ==> multiset(KeepAllowed(s))[c] == multiset(s)[c]
    ensures forall c :: !IsAllowed(c) ==> multiset(KeepAllowed(s))[c] == 0
    decreases |s|
  {
    if s != [] {
      var rest := KeepAllowed(s[1..]);
      KeepAllowedIsFilter(s[1..]);
      assert s == [s[0]] + s[1..];
      if IsAllowed(s[0]) {
        assert ([s[0]] + rest)[1..] == rest;
      } else {
        SubsequenceExtendRight(rest, s);
      }
    }
  }

  /** `sanitize_product_name`: keep the allowed characters, then cut to 127. */
  function SanitizeProductName(name: string): (r: string)
    ensures |r| <= MAX_PRODUCT_NAME
    ensures IsClean(r)
    ensures r <= KeepAllowed(name)
    ensures |r| == if |KeepAllowed(name)| <= MAX_PRODUCT_NAME then |KeepAllowed(name)| else MAX_PRODUCT_NAME
    ensures IsSubsequence(r, name)
  {
    var kept := KeepAllowed(name);
    var r := if |kept| <= MAX_PRODUCT_NAME then kept else kept[..MAX_PRODUCT_NAME];
    KeepAllowedIsFilter(name);
    PrefixIsSubsequence(kept, |r|);
    assert kept[..|r|] == r;
    SubsequenceTransitive(r, kept, name);
    r
  }

  /** Deleting disallowed characters from a clean string deletes nothing. */
  lemma {:induction false} KeepAllowedOfClean(s: string)
    requires IsClean(s)
    ensures KeepAllowed(s) == s
    decreases |s|
  {
    if s != [] {
      KeepAllowedOfClean(s[1..]);
    }
  }

  /** A clean name of at most 127 characters is sent unchanged. */
  lemma SanitizeKeepsCleanName(name: string)
    requires IsClean(name) && |name| <= MAX_PRODUCT_NAME
    ensures SanitizeProductName(name) == name
  {
    KeepAllowedOfClean(name);
  }

  /** Sanitising twice is sanitising once. */
  lemma SanitizeIdempotent(name: string)
    ensures SanitizeProductName(SanitizeProductName(name)) == SanitizeProductName(name)
  {
    SanitizeKeepsCleanName(SanitizeProductName(name));
  }

  /** Deleting characters distributes over concatenation. */
  lemma {:induction false} KeepAllowedAppend(a: string, b: string)
    ensures KeepAllowed(a + b) == KeepAllowed(a) + KeepAllowed(b)
    decreases |a|
  {
    if a == [] {
      assert a + b == b;
    } else {
      assert (a + b)[0] == a[0] && (a + b)[1..] == a[1..] + b;
      KeepAllowedAppend(a[1..], b);
      if IsAllowed(a[0]) {
        assert KeepAllowed(a + b) == [a[0]] + KeepAllowed(a[1..] + b);
        assert KeepAllowed(a) == [a[0]] + KeepAllowed(a[1..]);
      } else {
        assert KeepAllowed(a + b) == KeepAllowed(a[1..] + b);
        assert KeepAllowed(a) == KeepAllowed(a[1..]);
      }
    }
  }

  // ---------------------------------------------------------------------
  // What a session charges
  // ---------------------------------------------------------------------

  const FinePrefix: string := "Fine for "

  /** The amount (in cents) and the sanitised product name of a checkout session. */
  datatype Charge = Charge(amount: int, productName: string)

  /**
   * The amount and name chosen by payment type in `create_payment_session`:
   * the loan price under the book title, or the fine under "Fine for " and
   * the title. A fine for a borrowing that is still open raises, here None.
   */
  function ChargeFor(b: Borrowing, book: Book, kind: PaymentType): (r: Option<Charge>)
    ensures kind == PaymentCharge ==> r.Some? && r.value.amount == PaymentAmount(b, book.dailyFeeCents)
    ensures kind == FineCharge ==> (r.Some? <==> !b.IsOpen())
    ensures kind == FineCharge && r.Some? ==> r.value.amount == FineAmount(b, book.dailyFeeCents).value
    ensures r.Some? ==> |r.value.productName| <= MAX_PRODUCT_NAME && IsClean(r.value.productName)
    ensures r.Some? && kind == PaymentCharge ==> r.value.productName == SanitizeProductName(book.title)
    ensures r.Some? && kind == FineCharge ==> r.value.productName == SanitizeProductName(FinePrefix + book.title)
  {
    match kind
    case PaymentCharge =>
      Some(Charge(PaymentAmount(b, book.dailyFeeCents), SanitizeProductName(book.title)))
    case FineCharge =>
      match FineAmount(b, book.dailyFeeCents)
      case None => None
      case Some(fine) => Some(Charge(fine, SanitizeProductName(FinePrefix + book.title)))
  }

  /** The fine's product name is "Fine for " followed by the sanitised title, cut to 127 characters. */
  lemma FineNameIsPrefixedTitle(title: string)
    ensures SanitizeProductName(FinePrefix + title) <= FinePrefix + KeepAllowed(title)
  {
    KeepAllowedAppend(FinePrefix, title);
    FinePrefixIsClean();
    KeepAllowedOfClean(FinePrefix);
  }

  lemma FinePrefixIsClean()
    ensures IsClean(FinePrefix)
  {
  }

  /**
   * The Payment built from a gateway session: it charges the computed amount,
   * has the requested type, copies the session id and URL, and starts PENDING.
   */
  function NewPayment(borrowingId: nat, kind: PaymentType, charge: Charge, session: Session): (p: Payment)
    ensures p.status == Pending && p.kind == kind && p.borrowing == borrowingId
    ensures p.moneyToPay == charge.amount && p.sessionId == session.id && p.sessionUrl == session.url
  {
    Payment(borrowingId, session.url, session.id, charge.amount, kind, Pending)
  }
}
