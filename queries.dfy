/**
 * What a caller may see: the two `get_queryset` filter chains and the
 * `get_object` lookups built on them (borrowings/views.py).
 */
module Queries {
  import opened Wrappers
  import opened Text
  import opened BorrowingModels
  import opened Store

  /** The elements of `s` that `keep` accepts, in their order. */
  function Filter<T(!new)>(s: seq<T>, keep: T -> bool): (r: seq<T>)
    ensures |r| <= |s|
    ensures forall x :: x in r <==> x in s && keep(x)
  {
    if s == [] then []
    else
      assert s == [s[0]] + s[1..];
      (if keep(s[0]) then [s[0]] else []) + Filter(s[1..], keep)
  }

  /** The list's query parameters; `None` when absent. */
  datatype ListParams = ListParams(userId: Option<string>, isActive: Option<string>)

  const NoParams := ListParams(None, None)

  /** A parameter counts only when present and non-empty (Python truthiness). */
  predicate Given(param: Option<string>)
  {
    param.Some? && param.value != ""
  }

  /**
   * The `is_active` value as a boolean. The source evaluates it as Python,
   * so any expression with a boolean value passes; the model narrows that to
   * the two literals.
   */
  function ParseIsActive(v: string): (r: Option<bool>)
    ensures r == Some(true) <==> v == "True"
    ensures r == Some(false) <==> v == "False"
    ensures r.None? <==> v != "True" && v != "False"
  {
    if v == "True" then Some(true) else if v == "False" then Some(false) else None
  }

  /** The borrowing list for `caller`. */
  function VisibleBorrowings(t: Tables, caller: nat, params: ListParams): (r: Result<seq<Borrowing>, Error>)
    requires caller in t.users
    ensures r.Ok? ==> forall b :: b in r.value ==> b in t.borrowings
    ensures r.Ok? && !t.users[caller].isSuperuser ==> forall b :: b in r.value ==> b.userId == caller
    ensures !t.users[caller].isSuperuser && !Given(params.isActive) ==>
              r.Ok? && forall b :: b in r.value <==> b in t.borrowings && b.userId == caller
    ensures t.users[caller].isSuperuser && Given(params.userId) && ParseNat(params.userId.value).Some?
            && !Given(params.isActive) ==>
              r.Ok? && forall b :: b in r.value <==> b in t.borrowings && b.userId == ParseNat(params.userId.value).value
    ensures t.users[caller].isSuperuser && !Given(params.userId) && !Given(params.isActive) ==> r == Ok(t.borrowings)
    ensures r.Ok? && Given(params.isActive) ==>
              forall b :: b in r.value ==> (IsActive(b) <==> params.isActive.value == "True")
    ensures r.Err? <==>
              || (Given(params.isActive) && ParseIsActive(params.isActive.value).None?)
              || (t.users[caller].isSuperuser && Given(params.userId) && ParseNat(params.userId.value).None?)
    ensures r.Err? ==> r.error == InvalidQuery
  {
    var byUser :=
      if t.users[caller].isSuperuser then
        if Given(params.userId) then
          match ParseNat(params.userId.value)
          case None => Err(InvalidQuery)
          case Some(n) => Ok(Filter(t.borrowings, (b: Borrowing) => b.userId == n))
        else Ok(t.borrowings)
      else Ok(Filter(t.borrowings, (b: Borrowing) => b.userId == caller));
    if byUser.Err? then byUser
    else if !Given(params.isActive) then byUser
    else match ParseIsActive(params.isActive.value)
      case None => Err(InvalidQuery)
      case Some(active) => Ok(Filter(byUser.value, (b: Borrowing) => IsActive(b) == active))
  }

  /**
   * With `is_active` the list keeps exactly the open (or exactly the closed)
   * borrowings among those the user filter keeps.
   */
  lemma ActiveFilterExact(t: Tables, caller: nat, params: ListParams, b: Borrowing)
    requires caller in t.users && Given(params.isActive) && ParseIsActive(params.isActive.value).Some?
    ensures var r := VisibleBorrowings(t, caller, params.(isActive := None));
      var s := VisibleBorrowings(t, caller, params);
      r.Ok? ==> s.Ok? && (b in s.value <==> b in r.value && IsActive(b) == ParseIsActive(params.isActive.value).value)
  {
  }

  /** The payment list for `caller`. */
  function VisiblePayments(t: Tables, caller: nat): (r: seq<Payment>)
    requires caller in t.users
    ensures t.users[caller].isSuperuser ==> r == t.payments
    ensures !t.users[caller].isSuperuser ==> forall p :: p in r <==> p in t.payments && OwnedBy(t, p, caller)
  {
    if t.users[caller].isSuperuser then t.payments
    else Filter(t.payments, (p: Payment) => OwnedBy(t, p, caller))
  }

  /** `get_object()` on the borrowing routes: the borrowing with that id in the caller's list. */
  function GetBorrowing(t: Tables, caller: nat, id: nat): (r: Option<Borrowing>)
    requires ValidTables(t) && caller in t.users
    ensures r.Some? ==> r.value.id == id && r.value in VisibleBorrowings(t, caller, NoParams).value
    ensures r.Some? ==> 1 <= id <= |t.borrowings| && t.borrowings[id - 1] == r.value
    ensures r.None? ==> forall b :: b in VisibleBorrowings(t, caller, NoParams).value ==> b.id != id
  {
    if 1 <= id <= |t.borrowings| && (t.users[caller].isSuperuser || t.borrowings[id - 1].userId == caller) then
      assert BorrowingRowValid(t, id - 1);
      Some(t.borrowings[id - 1])
    else
      assert forall b :: b in t.borrowings ==> 1 <= b.id <= |t.borrowings| && t.borrowings[b.id - 1] == b by {
        forall b | b in t.borrowings
          ensures 1 <= b.id <= |t.borrowings| && t.borrowings[b.id - 1] == b
        {
          StoredBorrowingValid(t, b);
        }
      }
      None
  }

  /** `get_object()` on the payment routes: the payment with that id in the caller's list. */
  function GetPayment(t: Tables, caller: nat, id: nat): (r: Option<Payment>)
    requires ValidTables(t) && caller in t.users
    ensures r.Some? ==> r.value.id == id && r.value in VisiblePayments(t, caller)
    ensures r.Some? ==> 1 <= id <= |t.payments| && t.payments[id - 1] == r.value
    ensures r.None? ==> forall p :: p in VisiblePayments(t, caller) ==> p.id != id
  {
    if 1 <= id <= |t.payments| && (t.users[caller].isSuperuser || OwnedBy(t, t.payments[id - 1], caller)) then
      assert PaymentRowValid(t, id - 1);
      Some(t.payments[id - 1])
    else
      assert forall p :: p in t.payments ==> 1 <= p.id <= |t.payments| && t.payments[p.id - 1] == p by {
        forall p | p in t.payments
          ensures 1 <= p.id <= |t.payments| && t.payments[p.id - 1] == p
        {
          var i :| 0 <= i < |t.payments| && t.payments[i] == p;
          assert PaymentRowValid(t, i);
        }
      }
      None
  }
}
