/**
 * The overdue scan run by the periodic task (borrowings/scrapper.py): which
 * borrowings are overdue on a given day, and the messages sent to the admin
 * chat about them. Today's date is a parameter; the messages are returned.
 */
module Scrapper {
  import opened Text
  import opened BorrowingModels
  import opened Store
  import opened Queries

  /** Still out, and due back no later than tomorrow. */
  predicate IsOverdue(b: Borrowing, today: int)
  {
    IsActive(b) && b.expectedReturnDate <= today + 1
  }

  /** Ids are strictly increasing along `bs`. */
  predicate IdsIncreasing(bs: seq<Borrowing>)
  {
    forall i, j :: 0 <= i < j < |bs| ==> bs[i].id < bs[j].id
  }

  lemma {:induction false} FilterKeepsIdOrder(bs: seq<Borrowing>, keep: Borrowing -> bool)
    requires IdsIncreasing(bs)
    ensures IdsIncreasing(Filter(bs, keep))
  {
    if bs != [] {
      var tail := bs[1..];
      FilterKeepsIdOrder(tail, keep);
      var rest := Filter(tail, keep);
      forall x | x in rest ensures bs[0].id < x.id {
        var k :| 0 <= k < |tail| && tail[k] == x;
      }
      PrependKeepsIdOrder(bs[0], rest);
      assert Filter(bs, keep) == (if keep(bs[0]) then [bs[0]] + rest else rest);
    }
  }

  lemma PrependKeepsIdOrder(x: Borrowing, rest: seq<Borrowing>)
    requires IdsIncreasing(rest) && forall y :: y in rest ==> x.id < y.id
    ensures IdsIncreasing([x] + rest)
  {
    var r := [x] + rest;
    forall i, j | 0 <= i < j < |r| ensures r[i].id < r[j].id {
      assert r[j] == rest[j - 1];
      if i == 0 {
        assert rest[j - 1] in rest;
      } else {
        assert r[i] == rest[i - 1];
      }
    }
  }

  /** `scrape_overdue_borrowings`: the overdue borrowings in table order. */
  function ScrapeOverdue(t: Tables, today: int): (r: seq<Borrowing>)
    requires ValidTables(t)
    ensures forall b :: b in r <==> b in t.borrowings && b.actualReturnDate.None? && b.expectedReturnDate <= today + 1
    ensures IdsIncreasing(r)
    ensures forall b :: b in r ==> b.bookId in t.books && b.userId in t.users
  {
    assert IdsIncreasing(t.borrowings) by {
      forall i, j | 0 <= i < j < |t.borrowings| ensures t.borrowings[i].id < t.borrowings[j].id {
        assert BorrowingRowValid(t, i) && BorrowingRowValid(t, j);
      }
    }
    FilterKeepsIdOrder(t.borrowings, (b: Borrowing) => IsOverdue(b, today));
    assert forall b :: b in t.borrowings ==> b.bookId in t.books && b.userId in t.users by {
      forall b | b in t.borrowings ensures b.bookId in t.books && b.userId in t.users {
        StoredBorrowingValid(t, b);
      }
    }
    Filter(t.borrowings, (b: Borrowing) => IsOverdue(b, today))
  }

  function OverdueMessage(email: string, title: string, expectedReturnDate: int): string
  {
    "User " + email + " haven't returned the " + title + " book yet."
    + "Expected return date for this borrowing is " + DateText(expectedReturnDate) + "."
  }

  /** The message about one overdue borrowing: its user's email, its book's title, its due date. */
  function Notice(t: Tables, b: Borrowing): string
    requires b.bookId in t.books && b.userId in t.users
  {
    OverdueMessage(t.users[b.userId].email, t.books[b.bookId].title, b.expectedReturnDate)
  }

  const NoOverdueMessage: string := "There are no overdue borrowings."

  /**
   * `send_notification_about_overdue`: one message per overdue borrowing, in
   * order, or the single "no overdue" message when there is none.
   */
  method NotifyOverdue(t: Tables, today: int) returns (sent: seq<string>)
    requires ValidTables(t)
    ensures ScrapeOverdue(t, today) == [] ==> sent == [NoOverdueMessage]
    ensures ScrapeOverdue(t, today) != [] ==>
      && |sent| == |ScrapeOverdue(t, today)|
      && forall i :: 0 <= i < |sent| ==> sent[i] == Notice(t, ScrapeOverdue(t, today)[i])
  {
    var overdue := ScrapeOverdue(t, today);
    if overdue != [] {
      sent := NoticesFor(t, overdue);
    } else {
      sent := [NoOverdueMessage];
    }
  }

  /** The loop over the overdue borrowings: one message each, in order. */
  method NoticesFor(t: Tables, overdue: seq<Borrowing>) returns (sent: seq<string>)
    requires forall b :: b in overdue ==> b.bookId in t.books && b.userId in t.users
    ensures |sent| == |overdue|
    ensures forall i :: 0 <= i < |sent| ==> sent[i] == Notice(t, overdue[i])
  {
    sent := [];
    for i := 0 to |overdue|
      invariant |sent| == i
      invariant forall k :: 0 <= k < i ==> sent[k] == Notice(t, overdue[k])
    {
      var b := overdue[i];
      assert b in overdue;
      sent := sent + [Notice(t, b)];
    }
  }
}
