/**
 * The source as written where it departs from what it evidently intends, next
 * to the corrected behaviour the rest of the model uses (`Lifecycle.Create`,
 * `Lifecycle.Return`). Each lemma exhibits the departure.
 */
module AsWritten {
  import opened Wrappers
  import opened Text
  import opened Books
  import opened BorrowingModels
  import opened Stripe
  import opened Store
  import opened Queries
  import opened Lifecycle

  // ------------------------------------------- creation without a stock check

  /**
   * `BorrowingCreateSerializer` as written: `validate()` and `create()` with no
   * test of the book's inventory.
   */
  function SerializerCreateAsWritten(t: Tables, caller: nat, req: CreateRequest, gw: Gateway, requestUrl: string): (r: Result<Tables, Error>)
    requires caller in t.users
    ensures r.Ok? <==> CreateRejection(t, caller, req).None? && Answers(gw)
    ensures r.Ok? ==> req.bookId in t.books && req.bookId in r.value.books
    ensures r.Ok? ==> r.value.books[req.bookId].inventory == t.books[req.bookId].inventory - 1
  {
    match CreateRejection(t, caller, req)
    case Some(e) => Err(e)
    case None =>
      if !Answers(gw) then Err(GatewayError)
      else Ok(ApplyCreate(t, caller, req, gw, requestUrl))
  }

  /** Borrowing a book with no copy left is accepted and stores an inventory of -1; `Create` refuses it. */
  lemma ZeroInventoryGoesNegative(t: Tables, caller: nat, req: CreateRequest, gw: Gateway, requestUrl: string)
    requires ValidTables(t) && caller in t.users && Answers(gw)
    requires CreateRejection(t, caller, req).None? && t.books[req.bookId].inventory == 0
    ensures var r := SerializerCreateAsWritten(t, caller, req, gw, requestUrl);
      r.Ok? && r.value.books[req.bookId].inventory == -1 && !ValidTables(r.value)
    ensures Create(t, caller, req, gw, requestUrl) == Err(NoCopiesAvailable)
  {
    var r := SerializerCreateAsWritten(t, caller, req, gw, requestUrl);
    assert !ValidBook(r.value.books[req.bookId]);
  }

  // ---------------------------------------- the view repeats the serializer

  /**
   * `BorrowingViewSet.create` as written: the serializer's `create()`, then a
   * second decrement of the book and a second message.
   */
  function ViewCreateAsWritten(t: Tables, caller: nat, req: CreateRequest, gw: Gateway, requestUrl: string): (r: Result<Tables, Error>)
    requires caller in t.users
    ensures r.Ok? <==> SerializerCreateAsWritten(t, caller, req, gw, requestUrl).Ok?
  {
    match SerializerCreateAsWritten(t, caller, req, gw, requestUrl)
    case Err(e) => Err(e)
    case Ok(t1) =>
      var book := t1.books[req.bookId];
      Ok(t1.(books := t1.books[req.bookId := book.(inventory := book.inventory - 1)],
             outbox := t1.outbox + [BorrowedMessage(t.users[caller].email, book.title, req.expectedReturnDate)]))
  }

  /** Through the view one borrowing costs two copies and sends two messages; `Create` takes one copy. */
  lemma ViewCreateTakesTwoCopies(t: Tables, caller: nat, req: CreateRequest, gw: Gateway, requestUrl: string)
    requires ValidTables(t) && caller in t.users && Answers(gw)
    requires CreateRejection(t, caller, req).None? && t.books[req.bookId].inventory > 0
    ensures var r := ViewCreateAsWritten(t, caller, req, gw, requestUrl);
      && r.Ok?
      && r.value.books[req.bookId].inventory == t.books[req.bookId].inventory - 2
      && |r.value.outbox| == |t.outbox| + 2
    ensures var c := Create(t, caller, req, gw, requestUrl);
      && c.Ok?
      && c.value.books[req.bookId].inventory == t.books[req.bookId].inventory - 1
      && |c.value.outbox| == |t.outbox| + 1
  {
  }

  /** `BorrowingReturnSerializer.update` as written: the session builder gets the request URL itself. */
  function SerializerReturnAsWritten(t: Tables, b: Borrowing, actualReturnDate: int, gw: Gateway, requestUrl: string): (r: ReturnOutcome)
    requires 1 <= b.id <= |t.borrowings| && b.bookId in t.books
    ensures var c := ApplyReturn(t, b, actualReturnDate, gw, RsplitHead(requestUrl, '/', 2));
      && !r.ReturnRejected? && r.Returned? == c.Returned?
      && r.tables.(checkouts := c.tables.checkouts) == c.tables
      && |r.tables.checkouts| == |c.tables.checkouts|
    ensures r.Returned? && b.expectedReturnDate < actualReturnDate && gw.keyConfigured ==>
      && |r.tables.checkouts| == |t.checkouts| + 1
      && r.tables.checkouts[|t.checkouts|].successUrl == BorrowingUrl(requestUrl, b.id) + SuccessPath
  {
    ApplyReturn(t, b, actualReturnDate, gw, requestUrl)
  }

  /**
   * `BorrowingViewSet.return_book` as written: after the serializer's save it
   * restores the copy again when the borrowing had been out, and charges the
   * fine again when late. `gwView` answers the view's own session request.
   */
  function ViewReturnAsWritten(
    t: Tables, caller: nat, borrowingId: nat, actualReturnDate: int, gw: Gateway, gwView: Gateway, requestUrl: string
  ): (r: ReturnOutcome)
    requires ValidTables(t) && caller in t.users
    ensures GetBorrowing(t, caller, borrowingId).None? ==> r == ReturnRejected(BorrowingNotFound)
  {
    match GetBorrowing(t, caller, borrowingId)
    case None => ReturnRejected(BorrowingNotFound)
    case Some(b) =>
      if actualReturnDate < b.borrowDate then ReturnRejected(ReturnBeforeBorrow)
      else
        StoredBorrowingValid(t, b);
        match SerializerReturnAsWritten(t, b, actualReturnDate, gw, requestUrl)
        case Returned(t1) =>
          var book := t1.books[b.bookId];
          var t2 := if IsActive(b) then t1.(books := t1.books[b.bookId := book.(inventory := book.inventory + 1)]) else t1;
          if b.expectedReturnDate < actualReturnDate then
            if !Answers(gwView) then FineCheckoutFailed(t2)
            else Returned(AddCharge(t2, b.(actualReturnDate := Some(actualReturnDate)), Fine,
                                    b.expectedReturnDate, actualReturnDate, gwView, requestUrl))
          else Returned(t2)
        case other => other
  }

  /**
   * Returning an open borrowing late through the view puts two copies back and
   * owes two fines; `Return` puts one back and owes one.
   */
  lemma ViewReturnDoubles(
    t: Tables, caller: nat, borrowingId: nat, actualReturnDate: int, gw: Gateway, gwView: Gateway, requestUrl: string
  )
    requires ValidTables(t) && caller in t.users && Answers(gw) && Answers(gwView)
    requires GetBorrowing(t, caller, borrowingId).Some?
    requires var b := t.borrowings[borrowingId - 1];
      IsActive(b) && b.borrowDate <= actualReturnDate && b.expectedReturnDate < actualReturnDate
    ensures var b := t.borrowings[borrowingId - 1];
      var r := ViewReturnAsWritten(t, caller, borrowingId, actualReturnDate, gw, gwView, requestUrl);
      && r.Returned?
      && b.bookId in t.books && b.bookId in r.tables.books
      && r.tables.books[b.bookId].inventory == t.books[b.bookId].inventory + 2
      && |r.tables.payments| == |t.payments| + 2
      && r.tables.payments[|t.payments|].kind == Fine && r.tables.payments[|t.payments| + 1].kind == Fine
    ensures var b := t.borrowings[borrowingId - 1];
      var c := Return(t, caller, borrowingId, actualReturnDate, gw, requestUrl);
      && c.Returned?
      && b.bookId in t.books && b.bookId in c.tables.books
      && c.tables.books[b.bookId].inventory == t.books[b.bookId].inventory + 1
      && |c.tables.payments| == |t.payments| + 1
  {
    var b := t.borrowings[borrowingId - 1];
    StoredBorrowingValid(t, b);
  }

  // ------------------------------------------------- the fine's redirect URL

  /**
   * As written, the fine for a return posted to `<p>/borrowings/<id>/return/`
   * redirects to `<p>/borrowings/<id>/borrowings/<id>`: the session builder cuts
   * only "return/" off the URL.
   */
  lemma FineRedirectAsWritten(p: string, id: nat)
    ensures var k := NatToString(id);
      BorrowingUrl(p + "/borrowings/" + k + "/return/", id) == p + "/borrowings/" + k + "/borrowings/" + k
  {
    var k := NatToString(id);
    NoSlashInNumber(id);
    var q := p + "/borrowings/" + k;
    assert p + "/borrowings/" + k + "/return/" == q + "/" + "return" + "/" + "";
    DropTwoSegments(q, "return", "", 0);
    assert RsplitHead(q, '/', 0) == q;
  }

  /**
   * Cutting the action off first, as renewal does, sends the fine back to the
   * borrowing's own page.
   */
  lemma FineRedirectCorrected(p: string, id: nat)
    ensures var k := NatToString(id);
      BorrowingUrl(RsplitHead(p + "/borrowings/" + k + "/return/", '/', 2), id) == p + "/borrowings/" + k
  {
    var k := NatToString(id);
    NoSlashInNumber(id);
    var url := p + "/borrowings/" + k + "/return/";
    assert url == p + "/" + "borrowings" + "/" + k + "/" + "return" + "/";
    DetailActionBase(p, "borrowings", k, "return");
    var cut := RsplitHead(url, '/', 2);
    assert BorrowingUrl(cut, id) == RsplitHead(cut, '/', 2) + "/borrowings/" + k;
  }

  /**
   * End to end: a late return with a key configured asks the provider for a
   * session whose success URL is the borrowing's page.
   */
  lemma ReturnFineSuccessUrl(t: Tables, caller: nat, borrowingId: nat, actualReturnDate: int, gw: Gateway, p: string)
    requires ValidTables(t) && caller in t.users && gw.keyConfigured && gw.issued.Some?
    requires GetBorrowing(t, caller, borrowingId).Some?
    requires var b := t.borrowings[borrowingId - 1];
      b.borrowDate <= actualReturnDate && b.expectedReturnDate < actualReturnDate
    ensures var r := Return(t, caller, borrowingId, actualReturnDate, gw,
                            p + "/borrowings/" + NatToString(borrowingId) + "/return/");
      && r.Returned?
      && |r.tables.checkouts| == |t.checkouts| + 1
      && r.tables.checkouts[|t.checkouts|].successUrl == p + "/borrowings/" + NatToString(borrowingId) + SuccessPath
  {
    var b := t.borrowings[borrowingId - 1];
    StoredBorrowingValid(t, b);
    FineRedirectCorrected(p, borrowingId);
  }
}
