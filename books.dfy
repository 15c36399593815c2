/** The catalogue's `Book` record (books/models.py). */
module Books {
  import opened Wrappers

  const MaxTitleLength: nat := 255
  const MaxAuthorLength: nat := 63
  const MaxCoverLength: nat := 4
  /** `daily_fee` has at most three digits, two of them after the point: |fee| <= 9.99. */
  const MaxDailyFeeCents: nat := 999

  datatype Cover = Hard | Soft

  /** The value the cover column stores for each choice. */
  function CoverValue(c: Cover): (v: string)
    ensures |v| <= MaxCoverLength
  {
    match c
    case Hard => "HARD"
    case Soft => "SOFT"
  }

  /** A stored cover value read back as a choice; anything but the two choices is refused. */
  function ParseCover(v: string): (c: Option<Cover>)
    ensures c.Some? ==> CoverValue(c.value) == v
    ensures c.None? ==> v != CoverValue(Hard) && v != CoverValue(Soft)
  {
    if v == "HARD" then Some(Hard) else if v == "SOFT" then Some(Soft) else None
  }

  /** A book. `dailyFee` is in cents; `inventory` is the number of copies on the shelf. */
  datatype Book = Book(title: string, author: string, cover: Cover, inventory: int, dailyFee: int)

  /** The column limits and the inventory validator. */
  predicate ValidBook(b: Book)
  {
    && |b.title| <= MaxTitleLength
    && |b.author| <= MaxAuthorLength
    && b.inventory >= 0
    && -(MaxDailyFeeCents as int) <= b.dailyFee <= MaxDailyFeeCents
  }

  /** No two books share a title. */
  predicate TitlesUnique(books: map<nat, Book>)
  {
    forall i, j :: i in books && j in books && i != j ==> books[i].title != books[j].title
  }

  /** `str(book)`: the title. */
  function BookText(b: Book): string
  {
    b.title
  }

  /** Titles are unique, so within a catalogue `str(book)` names exactly one book. */
  lemma BookTextNamesOneBook(books: map<nat, Book>, i: nat, j: nat)
    requires TitlesUnique(books) && i in books && j in books
    requires BookText(books[i]) == BookText(books[j])
    ensures i == j
  {
  }

  /** Titles compared by character code; a prefix comes first. (The database orders by its collation.) */
  predicate TitleLe(a: string, b: string)
  {
    a == [] || (b != [] && (a[0] < b[0] || (a[0] == b[0] && TitleLe(a[1..], b[1..]))))
  }

  lemma {:induction false} TitleLeTotal(a: string, b: string)
    ensures TitleLe(a, b) || TitleLe(b, a)
  {
    if a != [] && b != [] && a[0] == b[0] {
      TitleLeTotal(a[1..], b[1..]);
    }
  }

  predicate SortedByTitle(bs: seq<Book>)
  {
    forall i :: 0 < i < |bs| ==> TitleLe(bs[i - 1].title, bs[i].title)
  }

  /** Puts `b` into a title-ordered list at its place. */
  function InsertByTitle(b: Book, bs: seq<Book>): (r: seq<Book>)
    requires SortedByTitle(bs)
    ensures SortedByTitle(r)
    ensures multiset(r) == multiset(bs) + multiset{b}
    ensures |r| == |bs| + 1 && (r[0] == b || (bs != [] && r[0] == bs[0]))
  {
    if bs == [] then [b]
    else if TitleLe(b.title, bs[0].title) then [b] + bs
    else
      TitleLeTotal(b.title, bs[0].title);
      assert bs == [bs[0]] + bs[1..];
      [bs[0]] + InsertByTitle(b, bs[1..])
  }

  /** The order of every book listing (`ordering = ["title"]`). */
  function SortByTitle(bs: seq<Book>): (r: seq<Book>)
    ensures SortedByTitle(r)
    ensures multiset(r) == multiset(bs)
  {
    if bs == [] then []
    else
      assert bs == [bs[0]] + bs[1..];
      InsertByTitle(bs[0], SortByTitle(bs[1..]))
  }
}
