/**
 * The borrowing and payment lifecycle as functions from the stored tables to
 * the tables after one request: creating a borrowing and returning it
 * (borrowings/serializers.py), confirming a payment and renewing an expired
 * one (borrowings/views.py). A rejected request writes nothing.
 */
module Lifecycle {
  import opened Wrappers
  import opened Text
  import opened Books
  import opened BorrowingModels
  import opened Stripe
  import opened Store
  import opened Queries

  /** The provider's answer to a session request. */
  datatype Session = Session(id: string, url: string)

  /**
   * The payment gateway as one request meets it: whether a public key is
   * configured, and the session the provider opens when asked (`None`: the call
   * fails).
   */
  datatype Gateway = Gateway(keyConfigured: bool, issued: Option<Session>)

  /** Without a key no call is made; with one, the call must succeed. */
  predicate Answers(gw: Gateway)
  {
    gw.keyConfigured ==> gw.issued.Some?
  }

  datatype CreateRequest = CreateRequest(bookId: nat, borrowDate: int, expectedReturnDate: int)

  function BorrowedMessage(email: string, title: string, expectedReturnDate: int): string
  {
    "User " + email + " have just borrowed a " + title + " book. "
    + "It is expected to be returned 'till " + DateText(expectedReturnDate) + "."
  }

  function PaidMessage(p: Payment): string
  {
    PaymentText(p) + " was paid."
  }

  /**
   * Inserts the PENDING payment for `b` over `startDate`..`endDate`. With a key
   * the provider is asked for a session and `to_pay` is its total; without one
   * the session columns stay NULL and the charge is computed locally. Either
   * way the amount owed is the same.
   */
  function AddCharge(
    t: Tables, b: Borrowing, kind: PaymentType, startDate: int, endDate: int, gw: Gateway, absUrl: string
  ): (t': Tables)
    requires b.bookId in t.books && Answers(gw)
    ensures t'.books == t.books && t'.users == t.users && t'.borrowings == t.borrowings && t'.outbox == t.outbox
    ensures |t'.payments| == |t.payments| + 1 && t'.payments[..|t.payments|] == t.payments
    ensures var p := t'.payments[|t.payments|];
      && p.id == |t.payments| + 1 && p.status == Pending && p.kind == kind && p.borrowingId == b.id
      && p.toPay == ChargeCents(t.books[b.bookId].dailyFee, startDate, endDate, kind == Fine)
      && (gw.keyConfigured ==> p.sessionId == Some(gw.issued.value.id) && p.sessionUrl == Some(gw.issued.value.url))
      && (!gw.keyConfigured ==> p.sessionId.None? && p.sessionUrl.None?)
    ensures gw.keyConfigured ==>
      t'.checkouts == t.checkouts + [CheckoutRequest(b, t.books[b.bookId].dailyFee, absUrl, startDate, endDate, kind == Fine)]
    ensures !gw.keyConfigured ==> t'.checkouts == t.checkouts
  {
    var fee := t.books[b.bookId].dailyFee;
    var isFine := kind == Fine;
    if gw.keyConfigured then
      var request := CheckoutRequest(b, fee, absUrl, startDate, endDate, isFine);
      var session := gw.issued.value;
      var p := Payment(|t.payments| + 1, Pending, kind, b.id, Some(session.url), Some(session.id), AmountTotal(request.lineItems));
      t.(payments := t.payments + [p], checkouts := t.checkouts + [request])
    else
      var p := Payment(|t.payments| + 1, Pending, kind, b.id, None, None, ChargeCents(fee, startDate, endDate, isFine));
      t.(payments := t.payments + [p])
  }

  // ---------------------------------------------------------------- create

  /** The checks made before anything is written: the book field, then `validate()`. */
  function CreateRejection(t: Tables, caller: nat, req: CreateRequest): Option<Error>
  {
    if req.bookId !in t.books then Some(BookNotFound)
    else if req.borrowDate > req.expectedReturnDate then Some(InvalidDateRange)
    else if HasUnpaid(t, caller) then Some(OutstandingBalance)
    else None
  }

  /** `create()` once the request is valid: the row, the decrement, the payment and the message. */
  function ApplyCreate(t: Tables, caller: nat, req: CreateRequest, gw: Gateway, requestUrl: string): Tables
    requires req.bookId in t.books && caller in t.users && Answers(gw)
  {
    var b := Borrowing(|t.borrowings| + 1, req.borrowDate, req.expectedReturnDate, None, req.bookId, caller);
    var book := t.books[req.bookId];
    var t1 := t.(borrowings := t.borrowings + [b], books := t.books[req.bookId := book.(inventory := book.inventory - 1)]);
    var t2 := AddCharge(t1, b, Fee, b.borrowDate, b.expectedReturnDate, gw, requestUrl);
    t2.(outbox := t2.outbox + [BorrowedMessage(t.users[caller].email, book.title, b.expectedReturnDate)])
  }

  /**
   * Creating a borrowing. Rejected for an unknown book, a borrow date after the
   * expected return date, an unpaid payment of the caller's, a book with no copy
   * left, or a failed session request; otherwise exactly one borrowing and one
   * PENDING fee are added and that book, and only it, loses one copy.
   */
  function Create(t: Tables, caller: nat, req: CreateRequest, gw: Gateway, requestUrl: string): (r: Result<Tables, Error>)
    requires ValidTables(t) && caller in t.users
    ensures req.bookId !in t.books ==> r == Err(BookNotFound)
    ensures req.bookId in t.books && req.borrowDate > req.expectedReturnDate ==> r == Err(InvalidDateRange)
    ensures req.bookId in t.books && req.borrowDate <= req.expectedReturnDate && HasUnpaid(t, caller) ==>
              r == Err(OutstandingBalance)
    ensures CreateRejection(t, caller, req).None? && t.books[req.bookId].inventory == 0 ==> r == Err(NoCopiesAvailable)
    ensures CreateRejection(t, caller, req).None? && t.books[req.bookId].inventory > 0 && !Answers(gw) ==>
              r == Err(GatewayError)
    ensures r.Ok? <==>
              && req.bookId in t.books && req.borrowDate <= req.expectedReturnDate && !HasUnpaid(t, caller)
              && t.books[req.bookId].inventory > 0 && Answers(gw)
    ensures r.Ok? ==> ValidTables(r.value)
    ensures r.Ok? ==>
      var t' := r.value;
      var n := |t.borrowings| + 1;
      var book := t.books[req.bookId];
      && t'.borrowings == t.borrowings + [Borrowing(n, req.borrowDate, req.expectedReturnDate, None, req.bookId, caller)]
      && t'.books.Keys == t.books.Keys
      && t'.books[req.bookId] == book.(inventory := book.inventory - 1)
      && (forall id :: id in t.books && id != req.bookId ==> t'.books[id] == t.books[id])
      && |t'.payments| == |t.payments| + 1 && t'.payments[..|t.payments|] == t.payments
      && t'.payments[|t.payments|].status == Pending && t'.payments[|t.payments|].kind == Fee
      && t'.payments[|t.payments|].borrowingId == n
      && t'.payments[|t.payments|].toPay == ChargeCents(book.dailyFee, req.borrowDate, req.expectedReturnDate, false)
      && (!gw.keyConfigured ==> t'.payments[|t.payments|].sessionId.None? && t'.payments[|t.payments|].sessionUrl.None?)
      && Answers(gw)
      && (gw.keyConfigured ==>
            && t'.payments[|t.payments|].sessionId == Some(gw.issued.value.id)
            && t'.payments[|t.payments|].sessionUrl == Some(gw.issued.value.url))
      && t'.checkouts == t.checkouts + (if gw.keyConfigured then
           [CheckoutRequest(t'.borrowings[n - 1], book.dailyFee, requestUrl, req.borrowDate, req.expectedReturnDate, false)]
         else [])
      && t'.users == t.users
      && t'.outbox == t.outbox + [BorrowedMessage(t.users[caller].email, book.title, req.expectedReturnDate)]
  {
    match CreateRejection(t, caller, req)
    case Some(e) => Err(e)
    case None =>
      if t.books[req.bookId].inventory < 1 then Err(NoCopiesAvailable)
      else if !Answers(gw) then Err(GatewayError)
      else
        CreateKeepsValid(t, caller, req, gw, requestUrl);
        Ok(ApplyCreate(t, caller, req, gw, requestUrl))
  }

  lemma CreateKeepsValid(t: Tables, caller: nat, req: CreateRequest, gw: Gateway, requestUrl: string)
    requires ValidTables(t) && caller in t.users && Answers(gw)
    requires req.bookId in t.books && req.borrowDate <= req.expectedReturnDate && t.books[req.bookId].inventory > 0
    ensures ValidTables(ApplyCreate(t, caller, req, gw, requestUrl))
  {
    var t' := ApplyCreate(t, caller, req, gw, requestUrl);
    var n := |t.borrowings|;
    forall id | id in t'.books ensures ValidBook(t'.books[id]) {
    }
    forall i | 0 <= i < |t'.borrowings| ensures BorrowingRowValid(t', i) {
      if i < n {
        assert BorrowingRowValid(t, i);
      }
    }
    forall i | 0 <= i < |t'.payments| ensures PaymentRowValid(t', i) {
      if i < |t.payments| {
        assert PaymentRowValid(t, i);
        assert t'.payments[i] == t.payments[i];
        assert t'.borrowings[t.payments[i].borrowingId - 1] == t.borrowings[t.payments[i].borrowingId - 1];
      }
    }
  }

  // ---------------------------------------------------------------- return

  datatype ReturnOutcome =
    | Returned(tables: Tables)
    | ReturnRejected(error: Error)
      /** The fine's session request failed after the return itself was saved. */
    | FineCheckoutFailed(tables: Tables)

  /** `update()`'s first writes: the copy goes back unless it already had, then the date is set. */
  function CloseBorrowing(t: Tables, b: Borrowing, actualReturnDate: int): Tables
    requires 1 <= b.id <= |t.borrowings| && b.bookId in t.books
  {
    var book := t.books[b.bookId];
    var books := if IsActive(b) then t.books[b.bookId := book.(inventory := book.inventory + 1)] else t.books;
    t.(books := books, borrowings := t.borrowings[b.id - 1 := b.(actualReturnDate := Some(actualReturnDate))])
  }

  /**
   * `update()` on a validated return. A late return adds a fine; `absUrl` is
   * what is handed to the session builder for it. There is no transaction
   * around these writes, so a failed session request leaves them in place.
   */
  function ApplyReturn(t: Tables, b: Borrowing, actualReturnDate: int, gw: Gateway, absUrl: string): ReturnOutcome
    requires 1 <= b.id <= |t.borrowings| && b.bookId in t.books
  {
    var closed := CloseBorrowing(t, b, actualReturnDate);
    if actualReturnDate - b.expectedReturnDate > 0 then
      if !Answers(gw) then FineCheckoutFailed(closed)
      else Returned(AddCharge(closed, b.(actualReturnDate := Some(actualReturnDate)), Fine,
                              b.expectedReturnDate, actualReturnDate, gw, absUrl))
    else Returned(closed)
  }

  /**
   * Returning a borrowing. Rejected when the caller cannot see it or the date
   * is before the borrow date. Otherwise the date is (re)set, a copy goes back
   * only if the borrowing was still out, and a late return owes one PENDING
   * fine of twice the fee for each day late.
   */
  function Return(t: Tables, caller: nat, borrowingId: nat, actualReturnDate: int, gw: Gateway, requestUrl: string): (r: ReturnOutcome)
    requires ValidTables(t) && caller in t.users
    ensures GetBorrowing(t, caller, borrowingId).None? ==> r == ReturnRejected(BorrowingNotFound)
    ensures GetBorrowing(t, caller, borrowingId).Some? && actualReturnDate < t.borrowings[borrowingId - 1].borrowDate ==>
              r == ReturnRejected(ReturnBeforeBorrow)
    ensures r.ReturnRejected? ==> r.error == BorrowingNotFound || r.error == ReturnBeforeBorrow
    ensures !r.ReturnRejected? <==>
              GetBorrowing(t, caller, borrowingId).Some? && t.borrowings[borrowingId - 1].borrowDate <= actualReturnDate
    ensures r.Returned? <==>
              && GetBorrowing(t, caller, borrowingId).Some?
              && t.borrowings[borrowingId - 1].borrowDate <= actualReturnDate
              && (t.borrowings[borrowingId - 1].expectedReturnDate < actualReturnDate ==> Answers(gw))
    ensures !r.ReturnRejected? ==>
      && 1 <= borrowingId <= |t.borrowings|
      && var b := t.borrowings[borrowingId - 1];
      && var t' := r.tables;
      && b.bookId in t.books
      && ValidTables(t')
      && t'.borrowings == t.borrowings[borrowingId - 1 := b.(actualReturnDate := Some(actualReturnDate))]
      && t'.books.Keys == t.books.Keys
      && t'.books[b.bookId] == t.books[b.bookId].(inventory := t.books[b.bookId].inventory + if IsActive(b) then 1 else 0)
      && (forall id :: id in t.books && id != b.bookId ==> t'.books[id] == t.books[id])
      && t'.users == t.users && t'.outbox == t.outbox
    ensures r.FineCheckoutFailed? <==>
              && GetBorrowing(t, caller, borrowingId).Some?
              && t.borrowings[borrowingId - 1].borrowDate <= actualReturnDate
              && t.borrowings[borrowingId - 1].expectedReturnDate < actualReturnDate
              && !Answers(gw)
    ensures r.FineCheckoutFailed? ==> r.tables.payments == t.payments && r.tables.checkouts == t.checkouts
    ensures r.Returned? && actualReturnDate <= t.borrowings[borrowingId - 1].expectedReturnDate ==>
              r.tables.payments == t.payments && r.tables.checkouts == t.checkouts
    ensures r.Returned? && actualReturnDate > t.borrowings[borrowingId - 1].expectedReturnDate ==>
      var b := t.borrowings[borrowingId - 1];
      var ps := r.tables.payments;
      && b.bookId in t.books
      && |ps| == |t.payments| + 1 && ps[..|t.payments|] == t.payments
      && ps[|t.payments|].status == Pending && ps[|t.payments|].kind == Fine && ps[|t.payments|].borrowingId == borrowingId
      && ps[|t.payments|].toPay == ChargeCents(t.books[b.bookId].dailyFee, b.expectedReturnDate, actualReturnDate, true)
      && Answers(gw)
      && (gw.keyConfigured ==>
            ps[|t.payments|].sessionId == Some(gw.issued.value.id) && ps[|t.payments|].sessionUrl == Some(gw.issued.value.url))
      && (!gw.keyConfigured ==> ps[|t.payments|].sessionId.None? && ps[|t.payments|].sessionUrl.None?)
      && r.tables.checkouts == t.checkouts + (if gw.keyConfigured then
           [CheckoutRequest(b.(actualReturnDate := Some(actualReturnDate)), t.books[b.bookId].dailyFee,
                            RsplitHead(requestUrl, '/', 2), b.expectedReturnDate, actualReturnDate, true)]
         else [])
  {
    match GetBorrowing(t, caller, borrowingId)
    case None => ReturnRejected(BorrowingNotFound)
    case Some(b) =>
      if actualReturnDate < b.borrowDate then ReturnRejected(ReturnBeforeBorrow)
      else
        StoredBorrowingValid(t, b);
        ReturnKeepsValid(t, b, actualReturnDate, gw, RsplitHead(requestUrl, '/', 2));
        ApplyReturn(t, b, actualReturnDate, gw, RsplitHead(requestUrl, '/', 2))
  }

  lemma ReturnKeepsValid(t: Tables, b: Borrowing, actualReturnDate: int, gw: Gateway, absUrl: string)
    requires ValidTables(t) && 1 <= b.id <= |t.borrowings| && t.borrowings[b.id - 1] == b
    requires b.bookId in t.books && b.borrowDate <= actualReturnDate
    ensures var r := ApplyReturn(t, b, actualReturnDate, gw, absUrl);
      !r.ReturnRejected? && ValidTables(r.tables)
  {
    var closed := CloseBorrowing(t, b, actualReturnDate);
    CloseKeepsValid(t, b, actualReturnDate);
    if actualReturnDate - b.expectedReturnDate > 0 && Answers(gw) {
      FineKeepsValid(closed, b.(actualReturnDate := Some(actualReturnDate)), gw, absUrl);
    }
  }

  lemma CloseKeepsValid(t: Tables, b: Borrowing, actualReturnDate: int)
    requires ValidTables(t) && 1 <= b.id <= |t.borrowings| && t.borrowings[b.id - 1] == b
    requires b.bookId in t.books && b.borrowDate <= actualReturnDate
    ensures ValidTables(CloseBorrowing(t, b, actualReturnDate))
  {
    var closed := CloseBorrowing(t, b, actualReturnDate);
    forall id | id in closed.books ensures ValidBook(closed.books[id]) {
    }
    forall i | 0 <= i < |closed.borrowings| ensures BorrowingRowValid(closed, i) {
      assert BorrowingRowValid(t, i);
    }
    forall i | 0 <= i < |closed.payments| ensures PaymentRowValid(closed, i) {
      assert PaymentRowValid(t, i);
    }
  }

  /** A fine on a returned borrowing keeps the invariant. */
  lemma FineKeepsValid(t: Tables, b: Borrowing, gw: Gateway, absUrl: string)
    requires ValidTables(t) && 1 <= b.id <= |t.borrowings| && t.borrowings[b.id - 1] == b
    requires b.bookId in t.books && b.actualReturnDate.Some? && Answers(gw)
    ensures ValidTables(AddCharge(t, b, Fine, b.expectedReturnDate, b.actualReturnDate.value, gw, absUrl))
  {
    var t' := AddCharge(t, b, Fine, b.expectedReturnDate, b.actualReturnDate.value, gw, absUrl);
    forall i | 0 <= i < |t'.borrowings| ensures BorrowingRowValid(t', i) {
      assert BorrowingRowValid(t, i);
    }
    forall i | 0 <= i < |t'.payments| ensures PaymentRowValid(t', i) {
      if i < |t.payments| {
        assert PaymentRowValid(t, i);
        assert t'.payments[i] == t.payments[i];
      }
    }
  }

  // ---------------------------------------------------------------- paid

  /**
   * Indices of the payments whose session column equals `s`, in increasing
   * order; `None` stands for NULL, which is what a lookup with a missing query
   * parameter compares against.
   */
  function SessionMatches(ps: seq<Payment>, s: Option<string>): (r: seq<nat>)
    ensures forall k: nat :: k in r <==> k < |ps| && ps[k].sessionId == s
    ensures forall i, j :: 0 <= i < j < |r| ==> r[i] < r[j]
  {
    if ps == [] then []
    else
      var init := ps[..|ps| - 1];
      var rest := SessionMatches(init, s);
      assert forall k: nat :: k < |init| ==> init[k] == ps[k];
      assert forall i :: 0 <= i < |rest| ==> rest[i] < |ps| - 1 by {
        forall i | 0 <= i < |rest| ensures rest[i] < |ps| - 1 {
          assert rest[i] in rest;
        }
      }
      if ps[|ps| - 1].sessionId == s then rest + [|ps| - 1] else rest
  }

  /**
   * The success endpoint. The payment is looked up by the `session_id` query
   * parameter alone, not by the borrowing in the route; then the provider's
   * `payment_status` for that session decides (`None`: the retrieval failed, as
   * it does without a session id). Only "paid" marks it PAID and sends a
   * message; anything else is refused and changes nothing.
   */
  function MarkPaid(t: Tables, caller: nat, borrowingId: nat, sessionId: Option<string>, providerStatus: Option<string>): (r: Result<Tables, Error>)
    requires ValidTables(t) && caller in t.users
    ensures GetBorrowing(t, caller, borrowingId).None? ==> r == Err(BorrowingNotFound)
    ensures providerStatus != Some("paid") || sessionId.None? ==> r.Err?
    ensures GetBorrowing(t, caller, borrowingId).Some? && SessionMatches(t.payments, sessionId) == [] ==>
              r == Err(PaymentNotFound)
    ensures GetBorrowing(t, caller, borrowingId).Some? && |SessionMatches(t.payments, sessionId)| > 1 ==>
              r == Err(MultiplePayments)
    ensures (GetBorrowing(t, caller, borrowingId).Some? && |SessionMatches(t.payments, sessionId)| == 1
             && (sessionId.None? || providerStatus.None?)) ==> r == Err(GatewayError)
    ensures (GetBorrowing(t, caller, borrowingId).Some? && |SessionMatches(t.payments, sessionId)| == 1
             && sessionId.Some? && providerStatus.Some? && providerStatus.value != "paid") ==> r == Err(PaymentNotSuccessful)
    ensures r.Ok? <==>
              && GetBorrowing(t, caller, borrowingId).Some?
              && |SessionMatches(t.payments, sessionId)| == 1
              && sessionId.Some? && providerStatus == Some("paid")
    ensures r.Ok? ==>
      var k := SessionMatches(t.payments, sessionId)[0];
      && k < |t.payments| && t.payments[k].sessionId == sessionId
      && (forall j :: 0 <= j < |t.payments| && j != k ==> t.payments[j].sessionId != sessionId)
      && r.value.payments == t.payments[k := t.payments[k].(status := Paid)]
      && r.value.outbox == t.outbox + [PaidMessage(t.payments[k])]
      && r.value.books == t.books && r.value.borrowings == t.borrowings && r.value.users == t.users
      && r.value.checkouts == t.checkouts
      && ValidTables(r.value)
  {
    if GetBorrowing(t, caller, borrowingId).None? then Err(BorrowingNotFound)
    else
      var matches := SessionMatches(t.payments, sessionId);
      if |matches| == 0 then Err(PaymentNotFound)
      else if |matches| > 1 then Err(MultiplePayments)
      else if sessionId.None? then Err(GatewayError)
      else match providerStatus
        case None => Err(GatewayError)
        case Some(status) =>
          if status != "paid" then Err(PaymentNotSuccessful)
          else
            var k := matches[0];
            assert k in matches;
            var t' := t.(payments := t.payments[k := t.payments[k].(status := Paid)],
                         outbox := t.outbox + [PaidMessage(t.payments[k])]);
            assert forall j :: 0 <= j < |t.payments| && j != k ==> t.payments[j].sessionId != sessionId by {
              forall j | 0 <= j < |t.payments| && j != k
                ensures t.payments[j].sessionId != sessionId
              {
                assert matches == [k];
                assert j !in matches;
              }
            }
            assert forall i :: 0 <= i < |t'.payments| ==> PaymentRowValid(t', i) by {
              forall i | 0 <= i < |t'.payments| ensures PaymentRowValid(t', i) {
                assert PaymentRowValid(t, i);
              }
            }
            assert forall i :: 0 <= i < |t'.borrowings| ==> BorrowingRowValid(t', i) by {
              forall i | 0 <= i < |t'.borrowings| ensures BorrowingRowValid(t', i) {
                assert BorrowingRowValid(t, i);
              }
            }
            Ok(t')
  }

  // ---------------------------------------------------------------- renew

  datatype RenewOutcome = Renewed(tables: Tables) | NotExpired | RenewRejected(error: Error)

  /** The session request a renewal makes: the fee over the loan, a fine over the days late. */
  function RenewalRequest(t: Tables, p: Payment, absUrl: string): SessionRequest
    requires ValidTables(t) && 1 <= p.id <= |t.payments| && t.payments[p.id - 1] == p
  {
    assert PaymentRowValid(t, p.id - 1);
    var b := t.borrowings[p.borrowingId - 1];
    assert BorrowingRowValid(t, p.borrowingId - 1);
    var fee := t.books[b.bookId].dailyFee;
    match p.kind
    case Fee => CheckoutRequest(b, fee, absUrl, b.borrowDate, b.expectedReturnDate, false)
    case Fine => CheckoutRequest(b, fee, absUrl, b.expectedReturnDate, b.actualReturnDate.value, true)
  }

  /** The renewed payment: the new session, PENDING again, everything else kept. */
  function ApplyRenew(t: Tables, p: Payment, s: Session, absUrl: string): Tables
    requires ValidTables(t) && 1 <= p.id <= |t.payments| && t.payments[p.id - 1] == p
  {
    t.(payments := t.payments[p.id - 1 := p.(sessionId := Some(s.id), sessionUrl := Some(s.url), status := Pending)],
       checkouts := t.checkouts + [RenewalRequest(t, p, absUrl)])
  }

  /**
   * `t'` is `t` with payment `p` renewed: its row carries session `s` and is
   * PENDING again (id, kind, amount and borrowing kept), every other row and
   * table is unchanged, and exactly the renewal's session request is logged.
   */
  predicate RenewedRow(t: Tables, t': Tables, p: Payment, s: Session, absUrl: string)
    requires ValidTables(t) && 1 <= p.id <= |t.payments| && t.payments[p.id - 1] == p
  {
    && |t'.payments| == |t.payments|
    && t'.payments[p.id - 1] == p.(sessionId := Some(s.id), sessionUrl := Some(s.url), status := Pending)
    && (forall j :: 0 <= j < |t.payments| && j != p.id - 1 ==> t'.payments[j] == t.payments[j])
    && t'.books == t.books && t'.borrowings == t.borrowings && t'.users == t.users && t'.outbox == t.outbox
    && t'.checkouts == t.checkouts + [RenewalRequest(t, p, absUrl)]
  }

  /** A renewal rewrites the one payment row and logs one request; nothing else changes. */
  lemma ApplyRenewTouchesOneRow(t: Tables, p: Payment, s: Session, absUrl: string)
    requires ValidTables(t) && 1 <= p.id <= |t.payments| && t.payments[p.id - 1] == p
    ensures RenewedRow(t, ApplyRenew(t, p, s, absUrl), p, s, absUrl)
  {
  }

  lemma RenewKeepsValid(t: Tables, p: Payment, s: Session, absUrl: string)
    requires ValidTables(t) && 1 <= p.id <= |t.payments| && t.payments[p.id - 1] == p
    ensures ValidTables(ApplyRenew(t, p, s, absUrl))
  {
    var t' := ApplyRenew(t, p, s, absUrl);
    forall i | 0 <= i < |t'.payments| ensures PaymentRowValid(t', i) {
      assert PaymentRowValid(t, i);
    }
    forall i | 0 <= i < |t'.borrowings| ensures BorrowingRowValid(t', i) {
      assert BorrowingRowValid(t, i);
    }
  }

  /** A renewed fine asks for twice the daily fee for each day between the due date and the return. */
  lemma RenewedFineAmount(t: Tables, p: Payment, absUrl: string)
    requires ValidTables(t) && 1 <= p.id <= |t.payments| && t.payments[p.id - 1] == p
    ensures p.kind == Fine ==>
      && 1 <= p.borrowingId <= |t.borrowings|
      && var b := t.borrowings[p.borrowingId - 1];
      && b.bookId in t.books && b.actualReturnDate.Some?
      && AmountTotal(RenewalRequest(t, p, absUrl).lineItems)
           == ChargeCents(t.books[b.bookId].dailyFee, b.expectedReturnDate, b.actualReturnDate.value, true)
  {
    assert PaymentRowValid(t, p.id - 1);
    assert BorrowingRowValid(t, p.borrowingId - 1);
  }

  /** A renewed fee asks the provider for exactly the amount the payment owes. */
  lemma RenewedFeeAmount(t: Tables, p: Payment, absUrl: string)
    requires ValidTables(t) && 1 <= p.id <= |t.payments| && t.payments[p.id - 1] == p
    ensures p.kind == Fee ==> AmountTotal(RenewalRequest(t, p, absUrl).lineItems) == p.toPay
  {
    assert PaymentRowValid(t, p.id - 1);
    assert BorrowingRowValid(t, p.borrowingId - 1);
  }

  /**
   * Renewing a payment. Only an EXPIRED one is renewed: it gets the new
   * session and is PENDING again, its kind, amount and borrowing unchanged. Any
   * other payment is answered "Not expired" and left alone.
   */
  function Renew(t: Tables, caller: nat, paymentId: nat, issued: Option<Session>, requestUrl: string): (r: RenewOutcome)
    requires ValidTables(t) && caller in t.users
    ensures GetPayment(t, caller, paymentId).None? ==> r == RenewRejected(PaymentNotFound)
    ensures GetPayment(t, caller, paymentId).Some? && GetPayment(t, caller, paymentId).value.status == Expired && issued.None? ==>
              r == RenewRejected(GatewayError)
    ensures GetPayment(t, caller, paymentId).Some? && GetPayment(t, caller, paymentId).value.status != Expired ==>
              r == NotExpired
    ensures r.Renewed? <==>
              GetPayment(t, caller, paymentId).Some? && GetPayment(t, caller, paymentId).value.status == Expired && issued.Some?
    ensures r.Renewed? ==>
      && 1 <= paymentId <= |t.payments| && issued.Some?
      && var p := t.payments[paymentId - 1];
      && p.id == paymentId && p.status == Expired
      && RenewedRow(t, r.tables, p, issued.value, RsplitHead(requestUrl, '/', 2))
      && ValidTables(r.tables)
    ensures r.Renewed? && t.payments[paymentId - 1].kind == Fee ==>
      AmountTotal(RenewalRequest(t, t.payments[paymentId - 1], RsplitHead(requestUrl, '/', 2)).lineItems)
        == t.payments[paymentId - 1].toPay
    ensures r.Renewed? && t.payments[paymentId - 1].kind == Fine ==>
      var p := t.payments[paymentId - 1];
      && 1 <= p.borrowingId <= |t.borrowings|
      && var b := t.borrowings[p.borrowingId - 1];
      && b.bookId in t.books && b.actualReturnDate.Some?
      && AmountTotal(RenewalRequest(t, p, RsplitHead(requestUrl, '/', 2)).lineItems)
           == ChargeCents(t.books[b.bookId].dailyFee, b.expectedReturnDate, b.actualReturnDate.value, true)
  {
    match GetPayment(t, caller, paymentId)
    case None => RenewRejected(PaymentNotFound)
    case Some(p) =>
      if p.status != Expired then NotExpired
      else match issued
        case None => RenewRejected(GatewayError)
        case Some(s) =>
          var absUrl := RsplitHead(requestUrl, '/', 2);
          RenewKeepsValid(t, p, s, absUrl);
          ApplyRenewTouchesOneRow(t, p, s, absUrl);
          RenewedFeeAmount(t, p, absUrl);
          RenewedFineAmount(t, p, absUrl);
          Renewed(ApplyRenew(t, p, s, absUrl))
  }
}
