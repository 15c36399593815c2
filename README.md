# Library service: borrowing and payment core

A model of the borrowing and payment lifecycle of a library lending API. Users
borrow books for a date range. Each loan owes a fee of `days × daily_fee`, and a
late return owes a fine of `days late × daily_fee × 2`. Every charge becomes a
`Payment` row that goes from PENDING to PAID through a hosted checkout session,
or is renewed after it has EXPIRED. Admins get a chat message for each new loan,
each paid payment, and each overdue loan.

The model works on three tables: books, borrowings and payments (plus the user
accounts). It also keeps two logs of what leaves the system: the chat messages,
and the checkout sessions requested from the payment provider.

- Money is in integer cents and dates are integer day numbers.
- Row `i` of the borrowings and payments has id `i + 1`.
- The payment provider is a parameter: whether a key is configured, the session
  it opens (or its failure), and the `payment_status` it reports.

Modules, one per concern:

- `Books` (`books.dfy`): the `Book` record, its column limits, its text form,
  and the title ordering, proved sorted and a permutation.
- `BorrowingModels` (`models.dfy`): `Borrowing` and `Payment`, and the
  borrowing's date check constraint. The return date is nullable here, and
  NULL means "still out". The field is declared NOT NULL in
  borrowings/models.py:11, but the list filter, the overdue scan and the
  tests all treat it as nullable.
- `Text` (`text.dfy`): Python's `str(int)`, the strict reading of a numeric
  query parameter, and `s.rsplit("/", n)[0]`. Proved facts include
  "`str` then parse is the identity", how many separators a cut removes, and
  that two cuts compose.
- `Stripe` (`stripe.dfy`): what `create_stripe_session` computes, i.e. the
  charge, the product name, the line item and the redirect URLs.
- `Store` (`store.dfy`): the tables and the invariant every stored state keeps.
  Row ids are dense, dates obey the constraint, foreign keys resolve, a fine
  exists only for a returned loan, and a fee owes exactly the loan's charge.
- `Queries` (`queries.dfy`): the list filters and the `get_object` lookups.
- `Lifecycle` (`lifecycle.dfy`): create, return, confirm payment and renew, as
  functions from the tables to an outcome. Each one is proved to keep the
  invariant.
- `Scrapper` (`scrapper.dfy`): the overdue scan and its messages.
- `EnvHandler` (`env_handler.dfy`): `env_custom_value_or_none`.
- `Service` (`service.dfy`): class `Library`. Its fields are the tables, and
  its methods update them in place with the source's guards and writes. Each
  method is proved to reach exactly the state the `Lifecycle` function gives.
- `AsWritten` (`aswritten.dfy`): the places where the code departs from its
  evident intent (see Findings).
- `Scenario` (`scenario.dfy`): one loan worked end to end on concrete tables.

Behaviour of the code that one might expect to be stricter, which the model
keeps as the code has it:

- A borrowing that was already returned can be returned again. Its date is
  overwritten, no copy goes back, and a late date owes another fine. Nothing
  in the return path rejects a second return.
- The return path runs without a transaction. If the fine's session request
  fails, the new date and the restored copy stay written
  (`ReturnOutcome.FineCheckoutFailed`); they are not rolled back.
- `daily_fee` is a 3-digit, 2-decimal field, and nothing in the code forbids
  a negative value. The model allows -999..999 cents rather than only
  positive fees.

One departure goes the other way: borrowing a book with no copy left is not
rejected by the code. The model rejects it, and records the code's behaviour
as a finding.

The payment-confirmation endpoint finds the payment by the `session_id` query
parameter alone, not through the borrowing in the route. The model does the
same. A missing parameter compares as NULL, so it matches payments that were
created without a gateway key.

## Model

| member | source | states |
|---|---|---|
| Books.CoverValue | books/models.py:6-12 | each cover choice stores a value that fits the 4-character column |
| Books.ParseCover | books/models.py:6-12 | a stored value reads back as the choice that stores it, and any other value is refused |
| Books.BookTextNamesOneBook | books/models.py:10-20 | titles are unique, so a book's text (its title) names exactly one book of the catalogue |
| Books.TitleLeTotal | books/models.py:16-17 | any two titles are comparable in the listing order |
| Books.InsertByTitle | books/models.py:16-17 | inserting into a title-ordered list keeps it ordered, adds exactly that book, and puts it first or keeps the old first |
| Books.SortByTitle | books/models.py:16-17 | a book listing is in title order and is a permutation of the books |
| Text.ParseNat | borrowings/views.py:62-68 | a `user_id` is accepted exactly when it is a non-empty string of digits |
| Text.ParseNatToString | borrowings/views.py:62-68 | reading back the text of an id gives that id |
| Text.RsplitHeadCut | borrowings/stripe.py:25 | `rsplit(sep, n)[0]` is a prefix ending just before a separator, and the removed tail holds min(n, count) separators |
| Text.RsplitHeadTwice | borrowings/serializers.py:210-212 | cutting m segments and then n more is the same as cutting m + n |
| Text.DropSegment | borrowings/stripe.py:25 | cutting n + 1 segments off `p + sep + x` (x free of sep) is cutting n off `p` |
| Stripe.ChargeCents | borrowings/stripe.py:19-23 | the charge is zero over zero days and never negative for a non-negative fee over ordered dates |
| Stripe.FineIsDoubleCharge | borrowings/stripe.py:8-23 | a fine is twice the plain charge over the same days |
| Stripe.ProductName | borrowings/stripe.py:20-33 | the name starts with "Fine for " exactly for fines and ends with the borrowing's text |
| Stripe.BorrowingUrl | borrowings/stripe.py:25 | the redirect base starts with the URL cut by two segments |
| Stripe.CheckoutRequest | borrowings/stripe.py:19-43 | one line item, quantity 1, in usd; its total is the charge; fine prefix iff fine; success and cancel URLs are base + the fixed paths |
| Stripe.CreateRedirect | borrowings/serializers.py:86-93 | a borrowing created at `<p>/borrowings/` redirects to `<p>/borrowings/<id>` |
| Stripe.DetailActionBase | borrowings/serializers.py:210-224 | two cuts in the handler plus two in the session builder take `<p>/<c>/<k>/<action>/` back to `<p>` |
| Stripe.RenewRedirect | borrowings/serializers.py:205-224 | renewing through `<p>/payments/<k>/renew/` redirects to `<p>/borrowings/<id>` |
| BorrowingModels.BorrowingTextId | borrowings/stripe.py:33 | the text of a borrowing, used in the product name, is "Borrowing object (<id>)" and its id reads back from it |
| BorrowingModels.PaymentTextId | borrowings/views.py:194 | the text of a payment, used in the paid message, is "Payment object (<id>)" and its id reads back from it |
| Store.ValidTables | borrowings/models.py:8-27 | the invariant of every stored state: books within their column limits and non-negative stock, unique titles, dense row ids, the date constraint, resolving foreign keys, fines only on returned loans, fees owing the loan's charge |
| Store.StoredBorrowingValid | borrowings/models.py:8-27 | every stored borrowing sits at the row of its id, meets the date constraint, and references a stored book and user |
| Queries.ParseIsActive | borrowings/views.py:73-76 | `is_active` reads as true exactly for "True" and false exactly for "False"; anything else is refused |
| Queries.VisibleBorrowings | borrowings/views.py:61-78 | non-superusers see exactly their own borrowings and `user_id` is ignored for them; a superuser with `user_id` sees exactly that user's; `is_active` keeps only open or only closed ones; an unreadable parameter is an error |
| Queries.ActiveFilterExact | borrowings/views.py:73-76 | with `is_active`, the list is exactly the user-filtered list restricted to open (or closed) borrowings |
| Queries.VisiblePayments | borrowings/views.py:239-245 | superusers see all payments; others see exactly the payments on their own borrowings |
| Queries.GetBorrowing | borrowings/views.py:133-135 | the lookup finds the borrowing with that id exactly when it is in the caller's list |
| Queries.GetPayment | borrowings/views.py:252-254 | the lookup finds the payment with that id exactly when it is in the caller's list |
| Lifecycle.AddCharge | borrowings/serializers.py:86-111 | one PENDING payment is added; it owes the charge whether or not a key is configured; its session columns are the provider's session or NULL; the provider request is logged only with a key |
| Lifecycle.Create | borrowings/serializers.py:58-119 | rejected, with nothing written, for an unknown book, a borrow date after the expected date, an unpaid payment, no copy left, or a failed session (`GatewayError`); otherwise one borrowing and one PENDING fee of `days × fee` are added, carrying the provider's session id and URL when a key is configured, that book alone loses one copy, the session request for the loan is logged only with a key, and one message is sent |
| Lifecycle.CreateKeepsValid | borrowings/serializers.py:79-119 | a valid creation keeps the table invariant (inventory stays non-negative) |
| Lifecycle.Return | borrowings/serializers.py:127-179 | rejected exactly for an unseen borrowing or a date before the borrow date, and accepted otherwise; fully `Returned` exactly when, in addition, an on-time return or an answered fine session; on acceptance the date is set, a copy goes back only if the loan was open, a late return adds one PENDING fine of `days late × fee × 2` whose session columns are the provider's session (or NULL without a key) and logs the fine's session request only with a key, an on-time return adds no payment and logs no request, and a failed fine session leaves the return saved with no payment and no request |
| Lifecycle.ReturnKeepsValid | borrowings/serializers.py:138-179 | an accepted return keeps the table invariant |
| Lifecycle.CloseKeepsValid | borrowings/serializers.py:140-145 | setting a return date no earlier than the borrow date, and restoring the copy, keeps the invariant |
| Lifecycle.FineKeepsValid | borrowings/serializers.py:147-177 | a fine on a returned borrowing keeps the invariant |
| Lifecycle.SessionMatches | borrowings/views.py:188-189 | exactly the payments with that session column, in increasing order |
| Lifecycle.MarkPaid | borrowings/views.py:185-200 | succeeds exactly when the borrowing is visible, one payment carries the session, and the provider reports "paid"; then that payment alone becomes PAID and one message is sent; a status other than "paid" is `PaymentNotSuccessful`, a missing session id or status is `GatewayError`; otherwise nothing changes |
| Lifecycle.ApplyRenewTouchesOneRow | borrowings/views.py:259-278 | a renewal rewrites only the renewed payment's session columns and status, and logs exactly one session request (`RenewedRow`) |
| Lifecycle.RenewKeepsValid | borrowings/serializers.py:205-231 | a renewal keeps the table invariant |
| Lifecycle.RenewedFeeAmount | borrowings/views.py:257-265 | renewing a fee asks the provider for exactly the amount the payment owes |
| Lifecycle.RenewedFineAmount | borrowings/views.py:266-273 | renewing a fine asks for twice the daily fee for each day from the expected to the actual return date |
| Lifecycle.Renew | borrowings/views.py:252-286 | `GatewayError` for a visible EXPIRED payment without a session; renewed exactly when the payment is visible, EXPIRED and a session is issued: it becomes PENDING with the new session, its type, amount and borrowing unchanged, and the logged request is the fee's charge over the loan or the fine's `days late × fee × 2`; any other visible payment gets "Not expired" and nothing changes |
| Scrapper.FilterKeepsIdOrder | borrowings/scrapper.py:14-17 | filtering a list ordered by id keeps it ordered |
| Scrapper.ScrapeOverdue | borrowings/scrapper.py:10-18 | exactly the stored borrowings with no return date that are due by tomorrow, in id order; a returned borrowing is never overdue |
| Scrapper.NotifyOverdue | borrowings/scrapper.py:32-48 | with none overdue, exactly the one "no overdue" message; otherwise one message per overdue borrowing, in order, naming its user's email, book title and due date |
| Scrapper.NoticesFor | borrowings/scrapper.py:38-45 | the loop yields exactly one message per borrowing, in order |
| EnvHandler.EnvCustomValueOrNone | library_service_api/env_handler.py:4-12 | a missing variable is a key error; the result is None exactly when the value equals the variable's name; otherwise it is the value, never the name |
| Service.Library.constructor | books/models.py:10-14 | a catalogue within the column limits starts a valid database with no loans |
| Service.Library.HasUnpaidPayment | borrowings/serializers.py:68-75 | the scan answers whether any of the user's payments is not PAID |
| Service.Library.AddPayment | borrowings/serializers.py:104-111 | the table update is exactly `Lifecycle.AddCharge` |
| Service.Library.CreateBorrowing | borrowings/serializers.py:79-119 | the new state is exactly `Lifecycle.Create`'s, or unchanged on an error, and the invariant holds |
| Service.Library.Lend | borrowings/serializers.py:80-117 | the writes of a validated creation are exactly `Lifecycle.ApplyCreate` |
| Service.Library.ReturnBorrowing | borrowings/serializers.py:138-179 | the new state is exactly `Lifecycle.Return`'s, and the invariant holds |
| Service.Library.CloseAndCharge | borrowings/serializers.py:138-177 | the writes of a validated return are exactly `Lifecycle.ApplyReturn`'s tables, and a failed fine session is reported |
| Service.Library.FindSession | borrowings/views.py:189 | the scan finds exactly `Lifecycle.SessionMatches` |
| Service.Library.ConfirmPayment | borrowings/views.py:185-200 | the new state is exactly `Lifecycle.MarkPaid`'s, or unchanged on an error |
| Service.Library.RenewPayment | borrowings/views.py:252-286 | the new state is exactly `Lifecycle.Renew`'s; "Not expired" and errors change nothing |
| Service.Library.SendNotificationAboutOverdue | borrowings/scrapper.py:32-48 | only the message log grows, by exactly the overdue messages |
| AsWritten.SerializerCreateAsWritten | borrowings/serializers.py:79-84 | as written, creation succeeds whenever validation passes and the session is opened, and takes one copy |
| AsWritten.ZeroInventoryGoesNegative | borrowings/serializers.py:79-84 | as written, borrowing a book with no copy left stores inventory -1; `Lifecycle.Create` refuses it |
| AsWritten.ViewCreateAsWritten | borrowings/views.py:100-121 | the view succeeds exactly when the serializer does |
| AsWritten.ViewCreateTakesTwoCopies | borrowings/views.py:103-115 | through the view, one loan takes two copies and sends two messages; `Lifecycle.Create` takes one and sends one |
| AsWritten.SerializerReturnAsWritten | borrowings/serializers.py:138-179 | as written, the return writes the same rows as `Lifecycle.ApplyReturn` and differs only in the logged session request, whose success URL is built from the uncut request URL |
| AsWritten.ViewReturnAsWritten | borrowings/views.py:133-176 | the view rejects a borrowing the caller cannot see |
| AsWritten.ViewReturnDoubles | borrowings/views.py:136-176 | through the view, a late return of an open loan puts two copies back and adds two fines; `Lifecycle.Return` puts one back and adds one |
| AsWritten.FineRedirectAsWritten | borrowings/serializers.py:150-157 | as written, the fine for `<p>/borrowings/<id>/return/` redirects to `<p>/borrowings/<id>/borrowings/<id>` |
| AsWritten.FineRedirectCorrected | borrowings/serializers.py:210-212 | cutting the action off first, as renewal does, redirects to `<p>/borrowings/<id>` |
| AsWritten.ReturnFineSuccessUrl | borrowings/serializers.py:147-177 | a late return with a key asks for a session whose success URL is the borrowing's own page |
| Scenario.BorrowThenReturnLate | borrowings/serializers.py:79-179 | fee 50 cents, 5 copies: a 3-day loan owes 150 and leaves 4; a return 92 days late owes a 9200 fine and leaves 5 |

## Left out

- Payment provider and chat delivery are network calls. The provider is a parameter (key configured, session opened or failed, reported status). Messages and session requests are appended to logs instead of being sent.
- Transactions, row locking and concurrent requests are not modelled: each request runs alone. Creation is modelled as all-or-nothing, as its transaction makes it. The return path has no transaction, and the model keeps that.
- Calendar dates are day numbers, and `DateText` writes a day number rather than an ISO date.
- The borrowing's `actual_return_date` is declared NOT NULL, so the database as declared would refuse every new borrowing; the model makes the field nullable, which is how the list filter, the overdue scan and the tests use it.
- Decimal and float arithmetic (`Decimal(amount_total / 100)`) is not modelled: money is exact integer cents. With a key, the stored amount is the provider's `amount_total`, which the model takes to be the requested line item's amount.
- The cancel endpoint is not modelled: it only reads the provider and formats text.
- No payment-expiry sweep appears in the code, so nothing in the model sets EXPIRED.
- Deleting a book or a user is not modelled: the core never deletes, and the `DO_NOTHING` foreign keys only matter for deletions made elsewhere. The invariant assumes both references resolve.
- Book and user CRUD views, the Celery task wrapper, URL routing, serializer output fields and the schema decorators are plumbing and not modelled.
- book/models.py is an unused, stale copy of the book model and is not part of this model.
- Queries.VisibleBorrowings: `user_id` is read as plain digits; other forms that Python's `int()` accepts (a sign, surrounding spaces) count as an invalid parameter.
- Queries.GetBorrowing: the detail routes (return, payment success) are modelled without their query parameters. In the code, `get_object()` filters the same queryset as the list, so a `user_id` or `is_active` parameter sent along with the request can hide the borrowing (404) or, when `is_active` does not evaluate, raise a server error; the model finds the borrowing as if no parameter were given.
- Queries.ParseIsActive: the source evaluates `is_active` as Python code, so any expression that evaluates to a boolean ("1==1", "not False", "True ") passes the null test. The model narrows the accepted values to the two literals "True" and "False"; every other value is an error.
- BorrowingModels.PaymentTextId: no Payment model class appears among the source files, so the text of a payment is taken to be Django's default `Payment object (<id>)`, as for a borrowing, which defines no `__str__` either.
- Books.SortByTitle: titles are compared by character code; `ordering = ["title"]` sorts by the database's collation, which may order case and accents differently.
- Lifecycle.RenewedFeeAmount: a book's `daily_fee` is assumed fixed once a loan on it exists (the invariant ties a fee payment's amount to the current fee). The admin book endpoint can change the fee; a renewal afterwards asks for the new fee while `to_pay` keeps the old amount, a state the model does not describe.
- Scrapper.ScrapeOverdue: the borrowing table declares no ordering, so "query order" is taken to be id order.
- Service.Library.SendNotificationAboutOverdue: the messages are appended after the scan finishes rather than one at a time during it, so a delivery failure partway through is not modelled.

## Findings

| source | as written | input that shows it | evidently intended | confidence | as-written member | corrected member |
|---|---|---|---|---|---|---|
| borrowings/serializers.py:79-84 | `create()` decrements the inventory without checking it | borrowing a book whose inventory is 0 | refuse the loan and keep inventory non-negative (the book's validator is `MinValueValidator(0)`) | not executed | AsWritten.ZeroInventoryGoesNegative | Lifecycle.Create |
| borrowings/views.py:100-121 | the view runs the serializer's `create()`, then decrements the book and sends the message again | any valid loan of a book with 5 copies leaves 3 | one loan takes one copy and sends one message | not executed | AsWritten.ViewCreateTakesTwoCopies | Service.Library.CreateBorrowing |
| borrowings/views.py:133-176 | the view repeats the serializer's copy restore and fine after `save()` | an open loan due on day 3 returned on day 4 | one copy back and one fine | not executed | AsWritten.ViewReturnDoubles | Service.Library.ReturnBorrowing |
| borrowings/serializers.py:150-157 | the fine's session gets the full request URL, and the builder cuts only two segments | a return posted to `http://h/api/borrowings/1/return/` gives success URL `http://h/api/borrowings/1/borrowings/1/success?...` | `http://h/api/borrowings/1/success?...`, as creation and renewal produce | not executed | AsWritten.FineRedirectAsWritten | Lifecycle.Return |
