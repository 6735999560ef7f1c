/**
 * The borrowing list filter: staged narrowing of the borrowings by the
 * `is_active` and `user_id` query parameters and by who is asking.
 */
module BorrowingFilters {
  import opened Wrappers
  import opened Sequences
  import opened BorrowingModels

  /** The requesting user as the filter sees it. */
  datatype Caller = Caller(id: UserId, isStaff: bool, isSuperuser: bool)

  /**
   * The query parameters. An absent `is_active` is None; `user_id` is None
   * when absent or empty, otherwise the numeric id.
   */
  datatype Query = Query(isActive: Option<string>, userId: Option<UserId>)

  predicate IsAdmin(c: Caller) {
    c.isStaff || c.isSuperuser
  }

  /** Lower-casing of one character; only ASCII letters change. */
  function LowerChar(ch: char): char {
    if 'A' <= ch <= 'Z' then (ch as int + 32) as char else ch
  }

  function Lower(s: string): (r: string)
    ensures |r| == |s|
    ensures forall i :: 0 <= i < |s| ==> r[i] == LowerChar(s[i])
  {
    if s == [] then [] else [LowerChar(s[0])] + Lower(s[1..])
  }

  /** What one `.filter(...)` call keeps. */
  datatype Criterion = OpenOnly | ReturnedOnly | OfUser(user: UserId)

  predicate Holds(b: Borrowing, k: Criterion) {
    match k
    case OpenOnly => b.IsOpen()
    case ReturnedOnly => !b.IsOpen()
    case OfUser(u) => b.user == u
  }

  /** One `.filter(...)` step over the staged borrowings. */
  function Where(bs: seq<Borrowing>, k: Criterion): (r: seq<Borrowing>)
    ensures forall b :: b in r <==> b in bs && Holds(b, k)
    ensures IsSubsequence(r, bs)
    ensures |r| <= |bs|
    decreases |bs|
  {
    if bs == [] then []
    else
      var rest := Where(bs[1..], k);
      assert forall b :: b in bs <==> b == bs[0] || b in bs[1..];
      if Holds(bs[0], k) then
        assert ([bs[0]] + rest)[1..] == rest;
        [bs[0]] + rest
      else
        SubsequenceExtendRight(rest, bs);
        rest
  }

  /** The activity selected by the lower-cased `is_active` parameter. */
  function ActivityFilter(q: Query): (r: Option<Criterion>)
    ensures r.Some? ==> r.value.OpenOnly? || r.value.ReturnedOnly?
  {
    var active := Lower(q.isActive.GetOr(""));
    if active in ["true", "1"] then Some(OpenOnly)
    else if active in ["false", "0"] then Some(ReturnedOnly)
    else None
  }

  /** `filter_queryset`. */
  function FilterBorrowings(bs: seq<Borrowing>, caller: Caller, q: Query): (r: seq<Borrowing>)
    ensures IsSubsequence(r, bs)
    ensures forall b :: b in r <==> b in bs && Matches(b, caller, q)
  {
    var admin := IsAdmin(caller);
    var activity := ActivityFilter(q);
    var s1 := if activity.Some? then Where(bs, activity.value) else bs;
    var s2 := if q.userId.Some? && admin then Where(s1, OfUser(q.userId.value)) else s1;
    var s3 := if !admin then Where(s2, OfUser(caller.id)) else s2;
    SubsequenceReflexive(bs);
    SubsequenceReflexive(s1);
    SubsequenceReflexive(s2);
    SubsequenceTransitive(s2, s1, bs);
    SubsequenceTransitive(s3, s2, bs);
    s3
  }

  /** Reference reading of the filter as one condition on each borrowing. */
  predicate Matches(b: Borrowing, caller: Caller, q: Query) {
    && (ActivityFilter(q).Some? ==> Holds(b, ActivityFilter(q).value))
    && (IsAdmin(caller) && q.userId.Some? ==> b.user == q.userId.value)
    && (!IsAdmin(caller) ==> b.user == caller.id)
  }

  /** `is_active` "true"/"1" in any letter case keeps exactly the open borrowings (other conditions aside). */
  lemma ActiveKeepsOpen(bs: seq<Borrowing>, admin: Caller, v: string)
    requires IsAdmin(admin)
    requires Lower(v) in ["true", "1"]
    ensures FilterBorrowings(bs, admin, Query(Some(v), None)) == Where(bs, OpenOnly)
  {
  }

  /** `is_active` "false"/"0" in any letter case keeps exactly the returned borrowings. */
  lemma InactiveKeepsReturned(bs: seq<Borrowing>, admin: Caller, v: string)
    requires IsAdmin(admin)
    requires Lower(v) in ["false", "0"]
    ensures FilterBorrowings(bs, admin, Query(Some(v), None)) == Where(bs, ReturnedOnly)
  {
  }

  /** Lower-casing an already lower-cased string changes nothing. */
  lemma LowerIdempotent(s: string)
    ensures Lower(Lower(s)) == Lower(s)
  {
  }

  /** Only the lower-cased `is_active` matters: any spelling filters as its lower-case form does. */
  lemma ActiveIsCaseInsensitive(bs: seq<Borrowing>, caller: Caller, v: string, u: Option<UserId>)
    ensures ActivityFilter(Query(Some(v), u)) == ActivityFilter(Query(Some(Lower(v)), u))
    ensures FilterBorrowings(bs, caller, Query(Some(v), u)) == FilterBorrowings(bs, caller, Query(Some(Lower(v)), u))
  {
    LowerIdempotent(v);
  }

  /** An absent or unrecognised `is_active`, with no `user_id`, shows an admin everything. */
  lemma UnrecognisedActiveNoFilter(bs: seq<Borrowing>, admin: Caller, v: Option<string>)
    requires IsAdmin(admin)
    requires Lower(v.GetOr("")) !in ["true", "1", "false", "0"]
    ensures FilterBorrowings(bs, admin, Query(v, None)) == bs
  {
  }

  /** A non-admin sees only their own borrowings, and `user_id` makes no difference to them. */
  lemma NonAdminSeesOwn(bs: seq<Borrowing>, caller: Caller, q: Query)
    requires !IsAdmin(caller)
    ensures forall b :: b in FilterBorrowings(bs, caller, q) ==> b.user == caller.id
    ensures FilterBorrowings(bs, caller, q) == FilterBorrowings(bs, caller, q.(userId := None))
  {
  }

  /** A filter step changes nothing on borrowings that all satisfy it. */
  lemma {:induction false} WhereKeepsAll(bs: seq<Borrowing>, k: Criterion)
    requires forall b :: b in bs ==> Holds(b, k)
    ensures Where(bs, k) == bs
    decreases |bs|
  {
    if bs != [] {
      WhereKeepsAll(bs[1..], k);
    }
  }

  /** Filtering a filtered list again gives the same list. */
  lemma FilterIdempotent(bs: seq<Borrowing>, caller: Caller, q: Query)
    ensures FilterBorrowings(FilterBorrowings(bs, caller, q), caller, q) == FilterBorrowings(bs, caller, q)
  {
    var r := FilterBorrowings(bs, caller, q);
    var activity := ActivityFilter(q);
    if activity.Some? {
      WhereKeepsAll(r, activity.value);
    }
    if q.userId.Some? && IsAdmin(caller) {
      WhereKeepsAll(r, OfUser(q.userId.value));
    }
    if !IsAdmin(caller) {
      WhereKeepsAll(r, OfUser(caller.id));
    }
  }
}
