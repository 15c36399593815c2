/**
 * The database behind the API as one object: its tables are fields that the
 * request handlers update in place. Each handler is proved to leave exactly
 * the state the matching `Lifecycle` function describes, so everything proved
 * about those functions holds of the running service.
 */
module Service {
  import opened Wrappers
  import opened Text
  import opened Books
  import opened BorrowingModels
  import opened Stripe
  import opened Store
  import opened Queries
  import opened Lifecycle
  import opened Scrapper

  class Library {
    var books: map<nat, Book>
    var users: map<nat, User>
    var borrowings: seq<Borrowing>
    var payments: seq<Payment>
    var outbox: seq<string>
    var checkouts: seq<SessionRequest>

    function State(): Tables
      reads this
    {
      Tables(books, users, borrowings, payments, outbox, checkouts)
    }

    predicate Valid()
      reads this
    {
      ValidTables(State())
    }

    /** A fresh database holding the given catalogue and accounts, and no loans yet. */
    constructor (books0: map<nat, Book>, users0: map<nat, User>)
      requires forall id :: id in books0 ==> ValidBook(books0[id])
      requires TitlesUnique(books0)
      ensures Valid()
      ensures books == books0 && users == users0
      ensures borrowings == [] && payments == [] && outbox == [] && checkouts == []
    {
      books := books0;
      users := users0;
      borrowings := [];
      payments := [];
      outbox := [];
      checkouts := [];
    }

    /** The unpaid-payment query of `validate()`: a scan of the payments table. */
    method HasUnpaidPayment(user: nat) returns (found: bool)
      requires Valid()
      ensures found == HasUnpaid(State(), user)
    {
      for i := 0 to |payments|
        invariant forall k :: 0 <= k < i ==> !(OwnedBy(State(), payments[k], user) && payments[k].status != Paid)
      {
        var p := payments[i];
        if 1 <= p.borrowingId <= |borrowings| && borrowings[p.borrowingId - 1].userId == user && p.status != Paid {
          return true;
        }
      }
      return false;
    }

    /** `Payment.objects.create(...)` after the session has (or has not) been requested. */
    method AddPayment(b: Borrowing, kind: PaymentType, startDate: int, endDate: int, gw: Gateway, absUrl: string)
      requires b.bookId in books && Answers(gw)
      modifies this
      ensures State() == AddCharge(old(State()), b, kind, startDate, endDate, gw, absUrl)
    {
      var fee := books[b.bookId].dailyFee;
      var isFine := kind == Fine;
      var url: Option<string> := None;
      var id: Option<string> := None;
      var toPay := ChargeCents(fee, startDate, endDate, isFine);
      if gw.keyConfigured {
        var request := CheckoutRequest(b, fee, absUrl, startDate, endDate, isFine);
        checkouts := checkouts + [request];
        url := Some(gw.issued.value.url);
        id := Some(gw.issued.value.id);
        toPay := AmountTotal(request.lineItems);
      }
      payments := payments + [Payment(|payments| + 1, Pending, kind, b.id, url, id, toPay)];
    }

    /**
     * POST to the borrowing list. The whole creation is one transaction, so a
     * failed session request leaves nothing behind.
     */
    method CreateBorrowing(caller: nat, req: CreateRequest, gw: Gateway, requestUrl: string) returns (r: Result<nat, Error>)
      requires Valid() && caller in users
      modifies this
      ensures Valid()
      ensures var spec := Create(old(State()), caller, req, gw, requestUrl);
        && (spec.Ok? ==> State() == spec.value && r == Ok(|old(borrowings)| + 1))
        && (spec.Err? ==> State() == old(State()) && r == Err(spec.error))
    {
      ghost var spec := Create(State(), caller, req, gw, requestUrl);
      if req.bookId !in books {
        return Err(BookNotFound);
      }
      if req.borrowDate > req.expectedReturnDate {
        return Err(InvalidDateRange);
      }
      var unpaid := HasUnpaidPayment(caller);
      if unpaid {
        return Err(OutstandingBalance);
      }
      var book := books[req.bookId];
      if book.inventory < 1 {
        return Err(NoCopiesAvailable);
      }
      if !Answers(gw) {
        return Err(GatewayError);
      }
      ghost var t0 := State();
      assert CreateRejection(t0, caller, req).None?;
      assert spec == Ok(ApplyCreate(t0, caller, req, gw, requestUrl));
      var id := Lend(caller, req, gw, requestUrl);
      return Ok(id);
    }

    /** `create()` past validation: the row, the decrement, the payment and the message. */
    method Lend(caller: nat, req: CreateRequest, gw: Gateway, requestUrl: string) returns (id: nat)
      requires req.bookId in books && caller in users && Answers(gw)
      modifies this
      ensures State() == ApplyCreate(old(State()), caller, req, gw, requestUrl)
      ensures id == |old(borrowings)| + 1
    {
      ghost var t0 := State();
      var book := books[req.bookId];
      var b := Borrowing(|borrowings| + 1, req.borrowDate, req.expectedReturnDate, None, req.bookId, caller);
      borrowings := borrowings + [b];
      books := books[req.bookId := book.(inventory := book.inventory - 1)];
      ghost var t1 := State();
      assert t1 == t0.(borrowings := t0.borrowings + [b], books := t0.books[req.bookId := book.(inventory := book.inventory - 1)]);
      AddPayment(b, Fee, b.borrowDate, b.expectedReturnDate, gw, requestUrl);
      outbox := outbox + [BorrowedMessage(users[caller].email, book.title, b.expectedReturnDate)];
      return b.id;
    }

    /**
     * POST to `<borrowing>/return/`. A failed session request for the fine is
     * reported, but the return itself is already saved.
     */
    method ReturnBorrowing(caller: nat, borrowingId: nat, actualReturnDate: int, gw: Gateway, requestUrl: string)
      returns (err: Option<Error>)
      requires Valid() && caller in users
      modifies this
      ensures Valid()
      ensures var spec := Return(old(State()), caller, borrowingId, actualReturnDate, gw, requestUrl);
        && (spec.ReturnRejected? ==> State() == old(State()) && err == Some(spec.error))
        && (spec.Returned? ==> State() == spec.tables && err == None)
        && (spec.FineCheckoutFailed? ==> State() == spec.tables && err == Some(GatewayError))
    {
      ghost var spec := Return(State(), caller, borrowingId, actualReturnDate, gw, requestUrl);
      var found := GetBorrowing(State(), caller, borrowingId);
      if found.None? {
        return Some(BorrowingNotFound);
      }
      var b := found.value;
      if actualReturnDate < b.borrowDate {
        return Some(ReturnBeforeBorrow);
      }
      assert BorrowingRowValid(State(), b.id - 1);
      var absUrl := RsplitHead(requestUrl, '/', 2);
      ghost var t0 := State();
      assert spec == ApplyReturn(t0, b, actualReturnDate, gw, absUrl);
      err := CloseAndCharge(b, actualReturnDate, gw, absUrl);
    }

    /** `update()` past validation: the copy, the date, then the fine when late. */
    method CloseAndCharge(b: Borrowing, actualReturnDate: int, gw: Gateway, absUrl: string) returns (err: Option<Error>)
      requires 1 <= b.id <= |borrowings| && b.bookId in books
      modifies this
      ensures var outcome := ApplyReturn(old(State()), b, actualReturnDate, gw, absUrl);
        && !outcome.ReturnRejected? && State() == outcome.tables
        && (outcome.Returned? ==> err == None)
        && (outcome.FineCheckoutFailed? ==> err == Some(GatewayError))
    {
      ghost var t0 := State();
      var book := books[b.bookId];
      if IsActive(b) {
        books := books[b.bookId := book.(inventory := book.inventory + 1)];
      }
      var closed := b.(actualReturnDate := Some(actualReturnDate));
      borrowings := borrowings[b.id - 1 := closed];
      assert State() == CloseBorrowing(t0, b, actualReturnDate);
      if actualReturnDate - b.expectedReturnDate > 0 {
        if !Answers(gw) {
          return Some(GatewayError);
        }
        AddPayment(closed, Fine, b.expectedReturnDate, actualReturnDate, gw, absUrl);
      }
      return None;
    }

    /** Indices of the payments whose session column equals `sessionId`: the lookup's scan. */
    method FindSession(sessionId: Option<string>) returns (matches: seq<nat>)
      ensures matches == SessionMatches(payments, sessionId)
    {
      matches := [];
      for k := 0 to |payments|
        invariant matches == SessionMatches(payments[..k], sessionId)
      {
        assert payments[..k + 1][..k] == payments[..k];
        if payments[k].sessionId == sessionId {
          matches := matches + [k];
        }
      }
      assert payments[..|payments|] == payments;
    }

    /** GET `<borrowing>/success/?session_id=...`. */
    method ConfirmPayment(caller: nat, borrowingId: nat, sessionId: Option<string>, providerStatus: Option<string>)
      returns (err: Option<Error>)
      requires Valid() && caller in users
      modifies this
      ensures Valid()
      ensures var spec := MarkPaid(old(State()), caller, borrowingId, sessionId, providerStatus);
        && (spec.Ok? ==> State() == spec.value && err == None)
        && (spec.Err? ==> State() == old(State()) && err == Some(spec.error))
    {
      ghost var spec := MarkPaid(State(), caller, borrowingId, sessionId, providerStatus);
      if GetBorrowing(State(), caller, borrowingId).None? {
        return Some(BorrowingNotFound);
      }
      var matches := FindSession(sessionId);
      if |matches| == 0 {
        return Some(PaymentNotFound);
      }
      if |matches| > 1 {
        return Some(MultiplePayments);
      }
      if sessionId.None? || providerStatus.None? {
        return Some(GatewayError);
      }
      if providerStatus.value != "paid" {
        return Some(PaymentNotSuccessful);
      }
      var k := matches[0];
      assert k in matches;
      var p := payments[k];
      payments := payments[k := p.(status := Paid)];
      outbox := outbox + [PaidMessage(p)];
      assert State() == spec.value;
      return None;
    }

    /** POST to `<payment>/renew/`; `Ok(false)` is the "Not expired" answer. */
    method RenewPayment(caller: nat, paymentId: nat, issued: Option<Session>, requestUrl: string)
      returns (r: Result<bool, Error>)
      requires Valid() && caller in users
      modifies this
      ensures Valid()
      ensures var spec := Renew(old(State()), caller, paymentId, issued, requestUrl);
        && (spec.Renewed? ==> State() == spec.tables && r == Ok(true))
        && (spec.NotExpired? ==> State() == old(State()) && r == Ok(false))
        && (spec.RenewRejected? ==> State() == old(State()) && r == Err(spec.error))
    {
      ghost var spec := Renew(State(), caller, paymentId, issued, requestUrl);
      var found := GetPayment(State(), caller, paymentId);
      if found.None? {
        return Err(PaymentNotFound);
      }
      var p := found.value;
      if p.status != Expired {
        return Ok(false);
      }
      if issued.None? {
        return Err(GatewayError);
      }
      var request := RenewalRequest(State(), p, RsplitHead(requestUrl, '/', 2));
      checkouts := checkouts + [request];
      payments := payments[p.id - 1 := p.(sessionId := Some(issued.value.id), sessionUrl := Some(issued.value.url), status := Pending)];
      assert State() == spec.tables;
      return Ok(true);
    }

    /** The periodic task: the overdue messages go out, nothing else changes. */
    method SendNotificationAboutOverdue(today: int)
      requires Valid()
      modifies this
      ensures Valid()
      ensures books == old(books) && users == old(users) && borrowings == old(borrowings)
      ensures payments == old(payments) && checkouts == old(checkouts)
      ensures |outbox| > |old(outbox)| && outbox[..|old(outbox)|] == old(outbox)
      ensures var overdue := ScrapeOverdue(old(State()), today);
        var sent := outbox[|old(outbox)|..];
        && (overdue == [] ==> sent == [NoOverdueMessage])
        && (overdue != [] ==>
              && |sent| == |overdue|
              && forall i :: 0 <= i < |sent| ==> sent[i] == Notice(old(State()), overdue[i]))
    {
      var sent := NotifyOverdue(State(), today);
      ValidIgnoresLogs(State(), outbox + sent, checkouts);
      outbox := outbox + sent;
      assert outbox[|old(outbox)|..] == sent;
    }
  }
}
