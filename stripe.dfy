/**
 * What `create_stripe_session` computes before it calls the provider
 * (borrowings/stripe.py): the charge, the product name and the redirect URLs.
 * The call itself is left to the caller, who supplies the provider's answer.
 */
module Stripe {
  import opened Text
  import opened BorrowingModels

  const FineMultiplier: int := 2
  const Currency: string := "usd"
  const CheckoutMode: string := "payment"
  const FinePrefix: string := "Fine for "
  const SuccessPath: string := "/success?session_id={CHECKOUT_SESSION_ID}"
  const CancelPath: string := "/cancel?session_id={CHECKOUT_SESSION_ID}"

  /**
   * The charge in cents for the days from `startDate` to `endDate` at
   * `dailyFee` cents a day, doubled for a fine. `int(to_pay * 100)` is exact
   * here because the fee has two decimal places.
   */
  function ChargeCents(dailyFee: int, startDate: int, endDate: int, isFine: bool): (c: int)
    ensures startDate == endDate ==> c == 0
    ensures 0 <= dailyFee && startDate <= endDate ==> 0 <= c
  {
    (endDate - startDate) * dailyFee * (if isFine then FineMultiplier else 1)
  }

  /** A fine costs twice the plain charge over the same days. */
  lemma FineIsDoubleCharge(dailyFee: int, startDate: int, endDate: int)
    ensures ChargeCents(dailyFee, startDate, endDate, true)
         == 2 * ChargeCents(dailyFee, startDate, endDate, false)
  {
  }

  datatype LineItem = LineItem(currency: string, unitAmount: int, productName: string, quantity: nat)

  /** The checkout session the core asks the provider to open. */
  datatype SessionRequest = SessionRequest(
    lineItems: seq<LineItem>,
    mode: string,
    successUrl: string,
    cancelUrl: string)

  /** What the provider reports as `amount_total`: each line's price times its quantity. */
  function AmountTotal(items: seq<LineItem>): int
  {
    if items == [] then 0
    else AmountTotal(items[..|items| - 1]) + items[|items| - 1].unitAmount * items[|items| - 1].quantity
  }

  /** The product name: the borrowing's text, with "Fine for " in front exactly for fines. */
  function ProductName(b: Borrowing, isFine: bool): (name: string)
    ensures FinePrefix <= name <==> isFine
    ensures |BorrowingText(b)| <= |name| && name[|name| - |BorrowingText(b)|..] == BorrowingText(b)
  {
    var text := BorrowingText(b);
    assert !(FinePrefix <= text) by { assert FinePrefix[0] != text[0]; }
    (if isFine then FinePrefix else "") + text
  }

  /** The borrowing's page: `absUrl` less its last two "/"-segments, then "/borrowings/<id>". */
  function BorrowingUrl(absUrl: string, borrowingId: nat): (u: string)
    ensures RsplitHead(absUrl, '/', 2) <= u
  {
    RsplitHead(absUrl, '/', 2) + "/borrowings/" + NatToString(borrowingId)
  }

  /** The session request for `b`, charging from `startDate` to `endDate`. */
  function CheckoutRequest(
    b: Borrowing, dailyFee: int, absUrl: string, startDate: int, endDate: int, isFine: bool
  ): (r: SessionRequest)
    ensures |r.lineItems| == 1 && r.lineItems[0].quantity == 1 && r.lineItems[0].currency == Currency
    ensures AmountTotal(r.lineItems) == ChargeCents(dailyFee, startDate, endDate, isFine)
    ensures FinePrefix <= r.lineItems[0].productName <==> isFine
    ensures r.successUrl == BorrowingUrl(absUrl, b.id) + SuccessPath
    ensures r.cancelUrl == BorrowingUrl(absUrl, b.id) + CancelPath
  {
    var base := BorrowingUrl(absUrl, b.id);
    var item := LineItem(Currency, ChargeCents(dailyFee, startDate, endDate, isFine), ProductName(b, isFine), 1);
    assert [item][..0] == [];
    SessionRequest([item], CheckoutMode, base + SuccessPath, base + CancelPath)
  }

  /** Cutting two "/"-free segments off the end of `p + "/" + x + "/" + y`. */
  lemma DropTwoSegments(p: string, x: string, y: string, n: nat)
    requires '/' !in x && '/' !in y
    ensures RsplitHead(p + "/" + x + "/" + y, '/', n + 2) == RsplitHead(p, '/', n)
  {
    assert p + "/" + x + "/" + y == (p + ['/'] + x) + ['/'] + y;
    DropSegment(p + ['/'] + x, '/', y, n + 1);
    DropSegment(p, '/', x, n);
  }

  lemma NoSlashInNumber(k: nat)
    ensures '/' !in NatToString(k)
  {
  }

  /**
   * A borrowing created by posting to `<p>/borrowings/` is sent back to
   * `<p>/borrowings/<id>`.
   */
  lemma CreateRedirect(p: string, id: nat)
    ensures BorrowingUrl(p + "/borrowings/", id) == p + "/borrowings/" + NatToString(id)
  {
    DropTwoSegments(p, "borrowings", "", 0);
    assert p + "/borrowings/" == p + "/" + "borrowings" + "/" + "";
  }

  /**
   * The page behind a detail action, `<p>/<collection>/<k>/<action>/`: two
   * segments cut in the view and two more when the session is built.
   */
  lemma DetailActionBase(p: string, collection: string, k: string, action: string)
    requires '/' !in collection && '/' !in k && '/' !in action
    ensures RsplitHead(RsplitHead(p + "/" + collection + "/" + k + "/" + action + "/", '/', 2), '/', 2) == p
  {
    var q := p + "/" + collection + "/" + k;
    assert p + "/" + collection + "/" + k + "/" + action + "/" == q + "/" + action + "/" + "";
    DropTwoSegments(q, action, "", 0);
    DropTwoSegments(p, collection, k, 0);
  }

  /**
   * Renewing through `<p>/payments/<k>/renew/` reaches the same page as
   * creation.
   */
  lemma RenewRedirect(p: string, paymentId: nat, id: nat)
    ensures var url := p + "/payments/" + NatToString(paymentId) + "/renew/";
      BorrowingUrl(RsplitHead(url, '/', 2), id) == p + "/borrowings/" + NatToString(id)
  {
    NoSlashInNumber(paymentId);
    RenewRedirectVia(p, NatToString(paymentId), id);
  }

  lemma RenewRedirectVia(p: string, k: string, id: nat)
    requires '/' !in k
    ensures BorrowingUrl(RsplitHead(p + "/payments/" + k + "/renew/", '/', 2), id)
         == p + "/borrowings/" + NatToString(id)
  {
    assert p + "/payments/" + k + "/renew/" == p + "/" + "payments" + "/" + k + "/" + "renew" + "/";
    DetailActionBase(p, "payments", k, "renew");
  }
}
