/**
 * One borrowing from start to finish on a concrete database, without a
 * payment key: a book at 50 cents a day with five copies, borrowed for three
 * days and returned 92 days late.
 */
module Scenario {
  import opened Wrappers
  import opened Books
  import opened BorrowingModels
  import opened Store
  import opened Queries
  import opened Lifecycle

  const Shelf: Book := Book("Dune", "Herbert", Soft, 5, 50)
  const Reader: User := User("reader@example.com", false)
  const Start: Tables := Tables(map[1 := Shelf], map[7 := Reader], [], [], [], [])
  const NoKey: Gateway := Gateway(false, None)

  lemma StartIsValid()
    ensures ValidTables(Start)
  {
    assert ValidBook(Shelf);
  }

  /**
   * The loan owes 150 cents and leaves four copies; the late return owes a
   * fine of 9200 cents and puts the copy back.
   */
  lemma BorrowThenReturnLate()
    ensures ValidTables(Start)
    ensures ValidTables(Start) &&
      var c := Create(Start, 7, CreateRequest(1, 0, 3), NoKey, "http://host/api/borrowings/");
      && c.Ok?
      && c.value.books[1].inventory == 4
      && c.value.payments == [Payment(1, Pending, Fee, 1, None, None, 150)]
      && var r := Return(c.value, 7, 1, 95, NoKey, "http://host/api/borrowings/1/return/");
      && r.Returned?
      && r.tables.books[1].inventory == 5
      && |r.tables.payments| == 2
      && r.tables.payments[1] == Payment(2, Pending, Fine, 1, None, None, 9200)
  {
    StartIsValid();
    var req := CreateRequest(1, 0, 3);
    assert CreateRejection(Start, 7, req).None?;
    var c := Create(Start, 7, req, NoKey, "http://host/api/borrowings/");
    var t := c.value;
    assert t.borrowings == [Borrowing(1, 0, 3, None, 1, 7)];
    assert GetBorrowing(t, 7, 1) == Some(t.borrowings[0]);
  }
}
