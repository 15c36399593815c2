/**
 * The borrowing and payment records (borrowings/models.py), and the user as the
 * core sees it. Dates are day numbers.
 */
module BorrowingModels {
  import opened Wrappers
  import Text

  /** A user: the contact address and whether the account is a superuser. */
  datatype User = User(email: string, isSuperuser: bool)

  /**
   * A loan of one copy of `bookId` to `userId`. `actualReturnDate` is `None`
   * while the book is still out: the column is declared NOT NULL, but the
   * list filter and the overdue scan treat it as nullable, and so does this model.
   */
  datatype Borrowing = Borrowing(
    id: nat,
    borrowDate: int,
    expectedReturnDate: int,
    actualReturnDate: Option<int>,
    bookId: nat,
    userId: nat)

  /** A day number as it appears in a message. */
  function DateText(day: int): string
  {
    Text.IntToString(day)
  }

  predicate IsActive(b: Borrowing)
  {
    b.actualReturnDate.None?
  }

  /**
   * The check constraint `borrow_date_before_return_date`. A comparison with a
   * NULL `actual_return_date` is unknown in SQL, which a CHECK lets through.
   */
  predicate DatesConstraint(b: Borrowing)
  {
    && b.borrowDate <= b.expectedReturnDate
    && (b.actualReturnDate.Some? ==> b.borrowDate <= b.actualReturnDate.value)
  }

  datatype PaymentStatus = Pending | Paid | Expired

  /** `Fee` is the stored value "PAYMENT" (the charge for the loan itself), `Fine` is "FINE". */
  datatype PaymentType = Fee | Fine

  /** A payment row. `toPay` is in cents; the session columns are NULL without a gateway. */
  datatype Payment = Payment(
    id: nat,
    status: PaymentStatus,
    kind: PaymentType,
    borrowingId: nat,
    sessionUrl: Option<string>,
    sessionId: Option<string>,
    toPay: int)

  const BorrowingTextPrefix: string := "Borrowing object ("
  const PaymentTextPrefix: string := "Payment object ("

  /** `str(borrowing)`: the model defines no `__str__`, so Django's default text. */
  function BorrowingText(b: Borrowing): string
  {
    BorrowingTextPrefix + Text.NatToString(b.id) + ")"
  }

  /**
   * `str(payment)`. No payment model class is part of this model, so this is
   * taken to be the same default text as for a borrowing.
   */
  function PaymentText(p: Payment): string
  {
    PaymentTextPrefix + Text.NatToString(p.id) + ")"
  }

  /** The text of a borrowing carries its id, which reads back from it. */
  lemma BorrowingTextId(b: Borrowing)
    ensures var s := BorrowingText(b);
      && |BorrowingTextPrefix| < |s| - 1 && s[..|BorrowingTextPrefix|] == BorrowingTextPrefix && s[|s| - 1] == ')'
      && Text.ParseNat(s[|BorrowingTextPrefix|..|s| - 1]) == Some(b.id)
  {
    var s := BorrowingText(b);
    assert s[|BorrowingTextPrefix|..|s| - 1] == Text.NatToString(b.id);
    Text.ParseNatToString(b.id);
  }

  /** The text of a payment carries its id, which reads back from it. */
  lemma PaymentTextId(p: Payment)
    ensures var s := PaymentText(p);
      && |PaymentTextPrefix| < |s| - 1 && s[..|PaymentTextPrefix|] == PaymentTextPrefix && s[|s| - 1] == ')'
      && Text.ParseNat(s[|PaymentTextPrefix|..|s| - 1]) == Some(p.id)
  {
    var s := PaymentText(p);
    assert s[|PaymentTextPrefix|..|s| - 1] == Text.NatToString(p.id);
    Text.ParseNatToString(p.id);
  }
}
