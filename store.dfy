/**
 * The database tables the core reads and writes, the invariant every stored
 * state keeps, and the errors a request can end with.
 */
module Store {
  import opened Wrappers
  import opened Books
  import opened BorrowingModels
  import opened Stripe

  datatype Error =
    | BookNotFound          // the "book" field names no book
    | InvalidDateRange      // borrow date after expected return date
    | OutstandingBalance    // a payment of the user's is not PAID
    | NoCopiesAvailable     // the book's inventory is 0
    | BorrowingNotFound     // no such borrowing, or not the caller's
    | PaymentNotFound       // no such payment, or not the caller's
    | MultiplePayments      // more than one payment carries the session id
    | ReturnBeforeBorrow    // actual return date before the borrow date
    | PaymentNotSuccessful  // the provider does not report the session as paid
    | GatewayError          // the payment provider could not be reached
    | InvalidQuery          // a list filter parameter that cannot be read

  /**
   * The tables, plus two logs of what went out: the messages sent to the admin
   * chat and the checkout sessions requested from the payment provider.
   * Borrowing and payment rows are kept in insertion order; row `i` has id `i + 1`.
   */
  datatype Tables = Tables(
    books: map<nat, Book>,
    users: map<nat, User>,
    borrowings: seq<Borrowing>,
    payments: seq<Payment>,
    outbox: seq<string>,
    checkouts: seq<SessionRequest>)

  predicate BorrowingRowValid(t: Tables, i: int)
    requires 0 <= i < |t.borrowings|
  {
    var b := t.borrowings[i];
    && b.id == i + 1
    && DatesConstraint(b)
    && b.bookId in t.books
    && b.userId in t.users
  }

  /**
   * A payment refers to a stored borrowing; a fine exists only once its
   * borrowing has been returned; a fee owes the loan's days at the book's
   * fee, which is taken to stay fixed once the book has been lent.
   */
  predicate PaymentRowValid(t: Tables, i: int)
    requires 0 <= i < |t.payments|
  {
    var p := t.payments[i];
    && p.id == i + 1
    && 1 <= p.borrowingId <= |t.borrowings|
    && var b := t.borrowings[p.borrowingId - 1];
       && (p.kind == Fine ==> b.actualReturnDate.Some?)
       && (p.kind == Fee && b.bookId in t.books ==>
             p.toPay == ChargeCents(t.books[b.bookId].dailyFee, b.borrowDate, b.expectedReturnDate, false))
  }

  predicate ValidTables(t: Tables)
  {
    && (forall id :: id in t.books ==> ValidBook(t.books[id]))
    && TitlesUnique(t.books)
    && (forall i :: 0 <= i < |t.borrowings| ==> BorrowingRowValid(t, i))
    && (forall i :: 0 <= i < |t.payments| ==> PaymentRowValid(t, i))
  }

  /** The payment belongs to one of `user`'s borrowings. */
  predicate OwnedBy(t: Tables, p: Payment, user: nat)
  {
    1 <= p.borrowingId <= |t.borrowings| && t.borrowings[p.borrowingId - 1].userId == user
  }

  /** Some payment on one of `user`'s borrowings is not PAID. */
  predicate HasUnpaid(t: Tables, user: nat)
  {
    exists i :: 0 <= i < |t.payments| && OwnedBy(t, t.payments[i], user) && t.payments[i].status != Paid
  }

  lemma StoredBorrowingValid(t: Tables, b: Borrowing)
    requires ValidTables(t) && b in t.borrowings
    ensures 1 <= b.id <= |t.borrowings| && t.borrowings[b.id - 1] == b
    ensures DatesConstraint(b) && b.bookId in t.books && b.userId in t.users
  {
    var i :| 0 <= i < |t.borrowings| && t.borrowings[i] == b;
    assert BorrowingRowValid(t, i);
  }

  /** The invariant is about the tables alone: the logs of what went out play no part. */
  lemma ValidIgnoresLogs(t: Tables, outbox: seq<string>, checkouts: seq<SessionRequest>)
    requires ValidTables(t)
    ensures ValidTables(t.(outbox := outbox, checkouts := checkouts))
  {
    var t' := t.(outbox := outbox, checkouts := checkouts);
    forall i | 0 <= i < |t'.borrowings| ensures BorrowingRowValid(t', i) {
      assert BorrowingRowValid(t, i);
    }
    forall i | 0 <= i < |t'.payments| ensures PaymentRowValid(t', i) {
      assert PaymentRowValid(t, i);
    }
  }
}
