/**
 * The periodic overdue scan: pick the open borrowings due by tomorrow and
 * send one notice for each, or a single "No overdue borrowings" notice.
 * The chat transport is left out; the notices sent are the method's output.
 */
module BorrowingTasks {
  import opened Sequences
  import opened BorrowingModels

  /** A message to the staff chat. Book and user stand for the text the message prints about them. */
  datatype Notice =
    | NoOverdueBorrowings
    | DueTomorrow(book: BookId, user: UserId)
    | OverdueFound(book: BookId, user: UserId, expectedReturnDate: Day)

  /** The scan's query: not returned and due on or before tomorrow. */
  predicate DueForNotice(b: Borrowing, today: Day) {
    b.IsOpen() && b.expectedReturnDate <= today + 1
  }

  function SelectDue(bs: seq<Borrowing>, today: Day): (r: seq<Borrowing>)
    ensures IsSubsequence(r, bs)
    ensures forall b :: b in r <==> b in bs && DueForNotice(b, today)
    decreases |bs|
  {
    if bs == [] then []
    else
      var rest := SelectDue(bs[1..], today);
      assert forall b :: b in bs <==> b == bs[0] || b in bs[1..];
      if DueForNotice(bs[0], today) then
        assert ([bs[0]] + rest)[1..] == rest;
        [bs[0]] + rest
      else
        SubsequenceExtendRight(rest, bs);
        rest
  }

  /** The message for one selected borrowing. */
  function NoticeFor(b: Borrowing, today: Day): (n: Notice)
    ensures n.DueTomorrow? <==> b.expectedReturnDate == today + 1
    ensures n.OverdueFound? <==> b.expectedReturnDate != today + 1
    ensures n != NoOverdueBorrowings
    ensures n.book == b.book && n.user == b.user
  {
    if b.expectedReturnDate == today + 1 then DueTomorrow(b.book, b.user)
    else OverdueFound(b.book, b.user, b.expectedReturnDate)
  }

  /** `send_notification_overdue_tasks`. */
  method SendOverdueNotifications(bs: seq<Borrowing>, today: Day) returns (sent: seq<Notice>)
    ensures SelectDue(bs, today) == [] ==> sent == [NoOverdueBorrowings]
    ensures SelectDue(bs, today) != [] ==>
              |sent| == |SelectDue(bs, today)|
              && forall k :: 0 <= k < |sent| ==> sent[k] == NoticeFor(SelectDue(bs, today)[k], today)
  {
    var selected := SelectDue(bs, today);
    sent := [];
    if |selected| == 0 {
      sent := sent + [NoOverdueBorrowings];
    }
    for i := 0 to |selected|
      invariant |selected| == 0 ==> sent == [NoOverdueBorrowings]
      invariant |selected| > 0 ==> |sent| == i
      invariant |selected| > 0 ==> forall k :: 0 <= k < i ==> sent[k] == NoticeFor(selected[k], today)
    {
      var message := NoticeFor(selected[i], today);
      sent := sent + [message];
    }
  }

  /**
   * Each notice of a non-empty scan is about a borrowing still out and due
   * by tomorrow; it says "tomorrow" for one due tomorrow and "overdue" for
   * every other, including one due today. Returned borrowings never appear.
   */
  lemma NoticesDescribeDueBorrowings(bs: seq<Borrowing>, today: Day, sent: seq<Notice>, k: nat)
    requires SelectDue(bs, today) != []
    requires |sent| == |SelectDue(bs, today)|
    requires forall j :: 0 <= j < |sent| ==> sent[j] == NoticeFor(SelectDue(bs, today)[j], today)
    requires k < |sent|
    ensures var b := SelectDue(bs, today)[k];
            && b in bs && b.IsOpen() && b.expectedReturnDate <= today + 1
            && (sent[k].DueTomorrow? <==> b.expectedReturnDate == today + 1)
            && (sent[k].OverdueFound? <==> b.expectedReturnDate <= today)
    ensures NoOverdueBorrowings !in sent
  {
    var b := SelectDue(bs, today)[k];
    assert b in SelectDue(bs, today);
  }

  /** With nothing open and due, the scan sends exactly the one "No overdue borrowings" notice. */
  lemma {:induction false} NothingDueWhenAllReturned(bs: seq<Borrowing>, today: Day)
    requires forall b :: b in bs ==> !b.IsOpen()
    ensures SelectDue(bs, today) == []
  {
    if SelectDue(bs, today) != [] {
      assert SelectDue(bs, today)[0] in SelectDue(bs, today);
    }
  }
}
