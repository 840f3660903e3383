/**
 * The book service's parts that touch lending: the `S###` id generator, the
 * per-book borrow statistics and the availability it reports, the pagination
 * arithmetic of the catalogue listing, and the guards of the by-id operations.
 */
module BookService {
  import opened Wrappers
  import opened BorrowStatus
  import opened BorrowModel
  import opened Ledger
  import opened BookModel
  import opened IdFormat
  import opened Counting

  // ---- id generation ----

  /** `getNextBookId`, given the book id the descending sort returns (none for an empty collection). */
  function NextBookIdFromLast(last: Option<string>): (r: string)
    ensures last.None? ==> r == "S001"
    ensures last.Some? ==> |r| >= 4 && r[..1] == "S"
  {
    NextFromLast(last, "S", "S", "S001")
  }

  /** `getNextBookId` as written: the last id is the greatest in string order. */
  function NextBookIdAsWritten(ids: seq<string>): (r: string)
    ensures ids == [] ==> r == "S001"
    ensures ids != [] && WellFormedId("S", GreatestId(ids).value) ==>
              WellFormedId("S", r) && IdNumber("S", r) == IdNumber("S", GreatestId(ids).value) + 1
  {
    var r := NextBookIdFromLast(GreatestId(ids));
    assert ids != [] && WellFormedId("S", GreatestId(ids).value) ==>
             WellFormedId("S", r) && IdNumber("S", r) == IdNumber("S", GreatestId(ids).value) + 1 by {
      if ids != [] && WellFormedId("S", GreatestId(ids).value) {
        NextFromLastIncrements("S", GreatestId(ids).value);
      }
    }
    r
  }

  /** The book id generator as intended: one past the numerically largest id. */
  function NextBookId(ids: seq<string>): (r: string)
    ensures r !in ids
    ensures WellFormedId("S", r)
  {
    NextFreshIsFresh("S", ids);
    NextFresh("S", ids)
  }

  lemma NextBookIdOfNone()
    ensures NextBookIdFromLast(None) == "S001"
    ensures NextBookId([]) == "S001"
  {
    NextFreshOfEmpty("S");
  }

  /** `S` + (number of the greatest id + 1), zero-padded to at least three digits. */
  lemma NextBookIdIncrements(last: string)
    requires WellFormedId("S", last)
    ensures WellFormedId("S", NextBookIdFromLast(Some(last)))
    ensures IdNumber("S", NextBookIdFromLast(Some(last))) == IdNumber("S", last) + 1
  {
    NextFromLastIncrements("S", last);
  }

  /** In string order `S999` sorts after `S1000`, so the descending sort returns `S999`. */
  lemma S999SortsLast()
    ensures GreatestId(["S999", "S1000"]) == Some("S999")
  {
    assert !LexLess("S999", "S1000") by {
      assert "S999"[1..] == "999" && "S1000"[1..] == "1000";
    }
    assert ["S999", "S1000"][1..] == ["S1000"];
    assert ["S1000"][1..] == [];
  }

  lemma ParseNineNineNine()
    ensures ParseInt(ReplaceFirst("S999", "S")) == Some(999)
  {
    assert ReplaceFirst("S999", "S") == "999" by {
      assert "S999" == "S" + "999";
      ReplaceFirstAtStart("S", "999");
    }
    assert DigitsValue("999") == 999 by {
      assert "999"[..2] == "99" && "99"[..1] == "9" && "9"[..0] == "";
      assert DigitsValue("9") == 9;
      assert DigitsValue("99") == 99;
    }
    assert AllDigits("999");
  }

  lemma FormatThousand()
    ensures "S" + Format3(Some(1000)) == "S1000"
  {
    assert NatToString(1) == "1";
    assert NatToString(10) == "10";
    assert NatToString(100) == "100";
    assert NatToString(1000) == "1000";
  }

  lemma StepAfterS999(last: string)
    requires last == "S999"
    ensures NextBookIdFromLast(Some(last)) == "S" + Format3(Some(1000))
  {
    ParseNineNineNine();
    NextFromLastStep(last, "S", "S", "S001", Some(999));
  }

  lemma NextAfterS999(last: string)
    requires last == "S999"
    ensures NextBookIdFromLast(Some(last)) == "S1000"
  {
    StepAfterS999(last);
    FormatThousand();
  }

  /**
   * Once both `S999` and `S1000` exist the generator keeps proposing `S1000`,
   * an id already taken, so every later book creation fails on the unique index.
   */
  lemma DuplicateBookIdAfterS999()
    ensures NextBookIdAsWritten(["S999", "S1000"]) == "S1000"
    ensures NextBookIdAsWritten(["S999", "S1000"]) in ["S999", "S1000"]
  {
    S999SortsLast();
    NextAfterS999("S999");
  }

  // ---- per-book statistics ----

  datatype BookStats = BookStats(pendingQuantity: nat, approvedQuantity: nat)

  /** A record of book `bookId` in status `s`. */
  predicate OfBookWith(b: Borrow, bookId: string, s: Status) {
    b.bookId == bookId && b.status == s
  }

  /** `getBookStats`: one per pending or approved record of the book (a count, not a sum of quantities). */
  function GetBookStats(records: seq<Borrow>, bookId: string): (r: BookStats)
    ensures r.pendingQuantity == |set k | 0 <= k < |records| && OfBookWith(records[k], bookId, Pending)|
    ensures r.approvedQuantity == |set k | 0 <= k < |records| && OfBookWith(records[k], bookId, Approved)|
    ensures r.pendingQuantity + r.approvedQuantity <= |records|
  {
    if records == [] then BookStats(0, 0)
    else
      var rest := GetBookStats(records[1..], bookId);
      var b := records[0];
      OfBookWithCons(records, bookId, Pending);
      OfBookWithCons(records, bookId, Approved);
      if OfBookWith(b, bookId, Pending) then rest.(pendingQuantity := rest.pendingQuantity + 1)
      else if OfBookWith(b, bookId, Approved) then rest.(approvedQuantity := rest.approvedQuantity + 1)
      else rest
  }

  lemma OfBookWithCons(records: seq<Borrow>, bookId: string, s: Status)
    requires records != []
    ensures |set k | 0 <= k < |records| && OfBookWith(records[k], bookId, s)|
         == (if OfBookWith(records[0], bookId, s) then 1 else 0)
            + |set k | 0 <= k < |records[1..]| && OfBookWith(records[1..][k], bookId, s)|
  {
    var p := (b: Borrow) => OfBookWith(b, bookId, s);
    CountIfCons(records, p);
    assert Positions(records, p) == set k | 0 <= k < |records| && OfBookWith(records[k], bookId, s);
    assert Positions(records[1..], p) == set k | 0 <= k < |records[1..]| && OfBookWith(records[1..][k], bookId, s);
  }

  /** The `availableQuantity` the book views report: the stock less both counts, with no clamping. */
  function AvailableView(quantity: int, stats: BookStats): (r: int)
    ensures r <= quantity
    ensures r == quantity <==> stats.pendingQuantity == 0 && stats.approvedQuantity == 0
    ensures r + stats.pendingQuantity + stats.approvedQuantity == quantity
  {
    quantity - stats.pendingQuantity - stats.approvedQuantity
  }

  /** The record count agrees with the ledger's copy count exactly when every reservation is of one copy. */
  lemma {:induction false} StatsCountRecords(records: seq<Borrow>, bookId: string)
    requires forall k :: 0 <= k < |records| ==> records[k].quantity >= 1
    ensures GetBookStats(records, bookId).pendingQuantity + GetBookStats(records, bookId).approvedQuantity
            <= Committed(records, bookId)
    ensures (forall k :: 0 <= k < |records| && Contribution(records[k], bookId) != 0 ==> records[k].quantity == 1) ==>
            GetBookStats(records, bookId).pendingQuantity + GetBookStats(records, bookId).approvedQuantity
            == Committed(records, bookId)
  {
    if records != [] {
      StatsCountRecords(records[1..], bookId);
    }
  }

  /** So the book page never shows fewer copies than the borrow guard would grant. */
  lemma ViewAtLeastLedger(records: seq<Borrow>, bookId: string, stock: int)
    requires forall k :: 0 <= k < |records| ==> records[k].quantity >= 1
    ensures AvailableView(stock, GetBookStats(records, bookId)) >= stock - Committed(records, bookId)
    ensures Committed(records, bookId) <= stock ==>
            AvailableView(stock, GetBookStats(records, bookId)) >= AvailableQuantity(records, bookId, stock)
  {
    StatsCountRecords(records, bookId);
  }

  /** One pending request for 3 of 5 copies: the book page says 4 are available, the guard allows 2. */
  lemma ViewDiffersFromLedger()
    ensures var r := NewBorrow("DG001", "S001", 3, Some(""), 0);
            AvailableView(5, GetBookStats([r], "S001")) == 4 && AvailableQuantity([r], "S001", 5) == 2
  {
    var r := NewBorrow("DG001", "S001", 3, Some(""), 0);
    assert [r][1..] == [];
  }

  /** With the stock lowered below the reservations the reported value is negative; the guard's is 0. */
  lemma ViewCanBeNegative()
    ensures var r := NewBorrow("DG001", "S001", 1, Some(""), 0);
            AvailableView(0, GetBookStats([r], "S001")) == -1 && AvailableQuantity([r], "S001", 0) == 0
  {
    var r := NewBorrow("DG001", "S001", 1, Some(""), 0);
    assert [r][1..] == [];
  }

  // ---- by-id operations ----

  /** 404 "Book not found", 400 "This book is not available", and a `getFullInfo` that throws. */
  datatype BookError = NotFound | Inactive | InfoFailed

  /** The guard shared by `getBookById` and `updateBookById`: missing first, then inactive. */
  function FindActiveBook(books: map<string, Book>, bookId: string): (r: Result<Book, BookError>)
    ensures r == Err(NotFound) <==> bookId !in books
    ensures r == Err(Inactive) <==> bookId in books && !books[bookId].isActive
    ensures r.Ok? ==> bookId in books && r.value == books[bookId] && r.value.isActive
    ensures bookId in books && books[bookId].isActive ==> r == Ok(books[bookId])
  {
    if bookId !in books then Err(NotFound)
    else if !books[bookId].isActive then Err(Inactive)
    else Ok(books[bookId])
  }

  /** `getFullInfo` spread together with the statistics and the reported availability. */
  datatype BookView = BookView(info: BookFullInfo, pendingQuantity: nat, approvedQuantity: nat, availableQuantity: int)

  /**
   * One book as the listing and the by-id view build it: `getFullInfo`, then
   * the statistics; a missing publisher makes `getFullInfo` throw.
   */
  function ViewOf(b: Book, stats: BookStats, authorNames: map<string, string>, categoryNames: map<string, string>,
                  publisherNames: map<string, string>): (r: Result<BookView, string>)
    ensures r.Ok? <==> b.publisher in publisherNames
    ensures r.Ok? ==> r.value.info == GetFullInfo(b, authorNames, categoryNames, publisherNames).value
    ensures r.Ok? ==> r.value.pendingQuantity == stats.pendingQuantity && r.value.approvedQuantity == stats.approvedQuantity
    ensures r.Ok? ==> r.value.availableQuantity + r.value.pendingQuantity + r.value.approvedQuantity == b.quantity
    ensures r.Err? ==> r.error == GetFullInfo(b, authorNames, categoryNames, publisherNames).error
  {
    match GetFullInfo(b, authorNames, categoryNames, publisherNames)
    case Err(e) => Err(e)
    case Ok(info) =>
      Ok(BookView(info, stats.pendingQuantity, stats.approvedQuantity, AvailableView(info.quantity, stats)))
  }

  /** `getBookById`: the guard, then the full information and the statistics of `bookId`. */
  function GetBookById(books: map<string, Book>, records: seq<Borrow>, bookId: string,
                       authorNames: map<string, string>, categoryNames: map<string, string>,
                       publisherNames: map<string, string>): (r: Result<BookView, BookError>)
    ensures r == Err(NotFound) <==> bookId !in books
    ensures r == Err(Inactive) <==> bookId in books && !books[bookId].isActive
    ensures r == Err(InfoFailed) <==> bookId in books && books[bookId].isActive && books[bookId].publisher !in publisherNames
    ensures r.Ok? ==> FindActiveBook(books, bookId).Ok?
    ensures r.Ok? ==> r.value.info == GetFullInfo(books[bookId], authorNames, categoryNames, publisherNames).value
    ensures r.Ok? ==> r.value.info.isActive
    ensures r.Ok? ==> r.value.pendingQuantity == GetBookStats(records, bookId).pendingQuantity
    ensures r.Ok? ==> r.value.approvedQuantity == GetBookStats(records, bookId).approvedQuantity
    ensures r.Ok? ==> r.value.availableQuantity == AvailableView(books[bookId].quantity, GetBookStats(records, bookId))
  {
    match FindActiveBook(books, bookId)
    case Err(e) => Err(e)
    case Ok(b) =>
      match ViewOf(b, GetBookStats(records, bookId), authorNames, categoryNames, publisherNames)
      case Err(_) => Err(InfoFailed)
      case Ok(v) => Ok(v)
  }

  /** `updateBookById` up to the write: the same two guards, in the same order. */
  function UpdateBookGuard(books: map<string, Book>, bookId: string): (r: Option<BookError>)
    ensures r == Some(NotFound) <==> bookId !in books
    ensures r == Some(Inactive) <==> bookId in books && !books[bookId].isActive
    ensures bookId in books && books[bookId].isActive ==> r == None
  {
    match FindActiveBook(books, bookId)
    case Err(e) => Some(e)
    case Ok(_) => None
  }

  // ---- listing and pagination ----

  /** `Math.ceil(a / b)`. */
  function CeilDiv(a: int, b: int): (r: int)
    requires b != 0
    ensures b > 0 ==> (r - 1) * b < a <= r * b
    ensures b < 0 ==> r * b <= a < (r - 1) * b
  {
    if b > 0 then
      var q := (-a) / b;
      assert q * b <= -a < q * b + b;
      -q
    else
      var q := a / (-b);
      assert q * (-b) <= a < q * (-b) - b;
      -q
  }

  /** `search ? 0 : skip`: any non-empty search string, even blanks, resets the offset. */
  function EffectiveSkip(search: string, skip: int): (r: int)
    ensures search != "" ==> r == 0
    ensures search == "" ==> r == skip
  {
    if search != "" then 0 else skip
  }

  function TotalPages(total: int, limit: int): int
    requires limit != 0
  {
    CeilDiv(total, limit)
  }

  function CurrentPage(skip: int, limit: int): int
    requires limit != 0
  {
    CeilDiv(skip, limit) + 1
  }

  /** The page the query returns: from the effective offset, at most `|limit|` books. */
  function PageOf(listed: seq<Book>, skip: int, limit: int, search: string): (r: Result<seq<Book>, string>)
    requires limit != 0
    ensures r.Err? <==> EffectiveSkip(search, skip) < 0
    ensures r.Ok? ==> |r.value| <= if limit > 0 then limit else -limit
    ensures r.Ok? && EffectiveSkip(search, skip) <= |listed| ==>
              EffectiveSkip(search, skip) + |r.value| <= |listed| &&
              r.value == listed[EffectiveSkip(search, skip)..EffectiveSkip(search, skip) + |r.value|]
    ensures r.Ok? && EffectiveSkip(search, skip) >= |listed| ==> r.value == []
    ensures r.Ok? && EffectiveSkip(search, skip) < |listed| ==>
              var size := if limit > 0 then limit else -limit;
              |r.value| == if EffectiveSkip(search, skip) + size <= |listed| then size
                           else |listed| - EffectiveSkip(search, skip)
  {
    var from := EffectiveSkip(search, skip);
    var size := if limit > 0 then limit else -limit;
    if from < 0 then Err("skip must be non-negative")
    else if from >= |listed| then Ok([])
    else if from + size <= |listed| then Ok(listed[from..from + size])
    else Ok(listed[from..])
  }

  datatype BookPage = BookPage(totalBooks: int, totalPages: int, limit: int, currentPage: int,
                               books: seq<BookView>, skip: int)

  /** The listing's one error: every failure inside it is rethrown as this message. */
  const ListingFailed: string := "Failed to retrieve books"

  /** One listed book's entry: its full information and the statistics of its own id. */
  function ListedView(b: Book, records: seq<Borrow>, authorNames: map<string, string>,
                      categoryNames: map<string, string>, publisherNames: map<string, string>)
    : (r: Result<BookView, string>)
    ensures r.Ok? <==> b.publisher in publisherNames
  {
    ViewOf(b, GetBookStats(records, b.bookId), authorNames, categoryNames, publisherNames)
  }

  /** `Promise.all` over a page: every book's entry, or the failure of the first that fails. */
  function Views(page: seq<Book>, records: seq<Borrow>, authorNames: map<string, string>,
                 categoryNames: map<string, string>, publisherNames: map<string, string>)
    : (r: Result<seq<BookView>, string>)
    ensures r.Ok? <==> forall k :: 0 <= k < |page| ==> page[k].publisher in publisherNames
    ensures r.Ok? ==> |r.value| == |page|
    ensures r.Ok? ==> forall k :: 0 <= k < |page| ==>
              r.value[k] == ListedView(page[k], records, authorNames, categoryNames, publisherNames).value
  {
    if page == [] then Ok([])
    else
      var head := ListedView(page[0], records, authorNames, categoryNames, publisherNames);
      var tail := Views(page[1..], records, authorNames, categoryNames, publisherNames);
      assert forall k :: 1 <= k < |page| ==> page[k] == page[1..][k - 1];
      if head.Err? then Err(head.error)
      else if tail.Err? then Err(tail.error)
      else Ok([head.value] + tail.value)
  }

  /**
   * `getAllBooks`. `listed` holds the active books the query's filters match,
   * in store order; `total` is the separate count (which applies only the
   * title and category filters). A rejected offset or any book of the page
   * whose `getFullInfo` throws fails the whole listing with one message.
   */
  function GetAllBooks(listed: seq<Book>, total: nat, records: seq<Borrow>, skip: int, limit: int, search: string,
                       authorNames: map<string, string>, categoryNames: map<string, string>,
                       publisherNames: map<string, string>)
    : (r: Result<BookPage, string>)
    requires limit != 0
    ensures r.Err? <==> EffectiveSkip(search, skip) < 0 ||
                        exists k :: 0 <= k < |PageOf(listed, skip, limit, search).value| &&
                                    PageOf(listed, skip, limit, search).value[k].publisher !in publisherNames
    ensures r.Err? ==> r.error == ListingFailed
    ensures r.Ok? ==> r.value.totalBooks == total && r.value.limit == limit && r.value.skip == skip
    ensures r.Ok? ==> r.value.totalPages == TotalPages(total, limit) && r.value.currentPage == CurrentPage(skip, limit)
    ensures r.Ok? ==> PageOf(listed, skip, limit, search).Ok? &&
                      |r.value.books| == |PageOf(listed, skip, limit, search).value|
    ensures r.Ok? ==> forall k :: 0 <= k < |r.value.books| ==>
              r.value.books[k] == ListedView(PageOf(listed, skip, limit, search).value[k], records,
                                             authorNames, categoryNames, publisherNames).value
  {
    match PageOf(listed, skip, limit, search)
    case Err(_) => Err(ListingFailed)
    case Ok(page) =>
      match Views(page, records, authorNames, categoryNames, publisherNames)
      case Err(_) => Err(ListingFailed)
      case Ok(views) => Ok(BookPage(total, TotalPages(total, limit), limit, CurrentPage(skip, limit), views, skip))
  }

  lemma MulMonotone(a: int, b: int, n: int)
    requires n > 0
    ensures a <= b ==> a * n <= b * n
    ensures a < b ==> a * n < b * n
  {
    assert b * n - a * n == (b - a) * n;
  }

  /** With the controller's `skip = (page - 1) * limit`, the reported page is the requested one. */
  lemma CurrentPageRoundTrip(page: int, limit: int)
    requires limit > 0
    ensures CurrentPage((page - 1) * limit, limit) == page
  {
    var r := CeilDiv((page - 1) * limit, limit);
    assert (r - 1) * limit < (page - 1) * limit <= r * limit;
    MulMonotone(page - 1, r - 1, limit);
    MulMonotone(r, page - 1, limit);
  }

  /** The pages cover every counted book and the last one is not empty. */
  lemma TotalPagesCover(total: nat, limit: int)
    requires limit > 0
    ensures TotalPages(total, limit) >= 0
    ensures (TotalPages(total, limit) - 1) * limit < total <= TotalPages(total, limit) * limit
  {
  }

  /** A search resets the offset but the reported page is still computed from it: page 3 is claimed, page 1 is shown. */
  lemma SearchReportsStalePage(listed: seq<Book>, publisherNames: map<string, string>)
    requires |listed| >= 30
    requires forall k :: 0 <= k < |listed| ==> listed[k].publisher in publisherNames
    ensures GetAllBooks(listed, |listed|, [], 20, 10, "x", map[], map[], publisherNames).Ok?
    ensures GetAllBooks(listed, |listed|, [], 20, 10, "x", map[], map[], publisherNames).value.currentPage == 3
    ensures PageOf(listed, 20, 10, "x").value == listed[..10]
  {
    assert PageOf(listed, 20, 10, "x").value == listed[..10];
  }
}
