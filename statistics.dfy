/**
 * The dashboard statistics: counts, quantity sums and top-N lists computed
 * over the borrow, book, reader and category collections once they have been
 * read. Counting filters and `reduce` folds are functions; the objects the
 * source fills key by key are built by the `Tally` loop.
 */
module Statistics {
  import opened Wrappers
  import opened BorrowStatus
  import opened BorrowModel
  import BookModel
  import Ledger
  import BorrowService
  import opened Counting

  const DayMs: int := 24 * 60 * 60 * 1000

  // ---- the time window ----

  /** Length of the window in days: 7, 90 and 365 for "week", "quarter", "year"; 30 for anything else. */
  function WindowDays(timeRange: string): (days: nat)
    ensures days == 7 <==> timeRange == "week"
    ensures days == 90 <==> timeRange == "quarter"
    ensures days == 365 <==> timeRange == "year"
    ensures days == 30 <==> timeRange != "week" && timeRange != "quarter" && timeRange != "year"
  {
    if timeRange == "week" then 7
    else if timeRange == "quarter" then 90
    else if timeRange == "year" then 365
    else 30
  }

  /** The window's first instant: `now` minus the window length. */
  function WindowStart(timeRange: string, now: int): (start: int)
    ensures 7 * DayMs <= now - start <= 365 * DayMs
  {
    now - WindowDays(timeRange) * DayMs
  }

  // ---- borrow statistics ----

  /** The `Borrow.find` filter: created inside the window and no longer pending. */
  predicate InWindow(b: Borrow, start: int) {
    b.createdAt >= start && b.status != Pending
  }

  /** The records the query returns, in collection order. */
  function Selected(records: seq<Borrow>, start: int): (r: seq<Borrow>)
    ensures |r| <= |records|
    ensures forall b :: b in r <==> b in records && InWindow(b, start)
    ensures forall b :: multiset(r)[b] == if InWindow(b, start) then multiset(records)[b] else 0
    ensures |r| == |set k | 0 <= k < |records| && InWindow(records[k], start)|
    decreases |records|
  {
    if records == [] then []
    else
      var rest := Selected(records[1..], start);
      SelectedStep(records, start, rest);
      InWindowCountCons(records, start);
      (if InWindow(records[0], start) then [records[0]] else []) + rest
  }

  lemma SelectedStep(records: seq<Borrow>, start: int, rest: seq<Borrow>)
    requires records != []
    requires forall b :: multiset(rest)[b] == if InWindow(b, start) then multiset(records[1..])[b] else 0
    ensures forall b :: multiset((if InWindow(records[0], start) then [records[0]] else []) + rest)[b]
                     == if InWindow(b, start) then multiset(records)[b] else 0
  {
    assert records == [records[0]] + records[1..];
  }

  lemma InWindowCountCons(records: seq<Borrow>, start: int)
    requires records != []
    ensures |set k | 0 <= k < |records| && InWindow(records[k], start)|
         == (if InWindow(records[0], start) then 1 else 0)
            + |set k | 0 <= k < |records[1..]| && InWindow(records[1..][k], start)|
  {
    CountIfCons(records, b => InWindow(b, start));
    assert Positions(records, b => InWindow(b, start)) == set k | 0 <= k < |records| && InWindow(records[k], start);
    assert Positions(records[1..], b => InWindow(b, start))
        == set k | 0 <= k < |records[1..]| && InWindow(records[1..][k], start);
  }

  /** A JavaScript relational comparison of two optional dates: `null` compares as 0. */
  function JsTime(d: Option<int>): int {
    match d
    case None => 0
    case Some(t) => t
  }

  /** The `filter` callbacks of the borrow statistics. */
  datatype Filter = WithStatus(status: Status) | ReturnedOnTime | ReturnedLate

  predicate Matches(f: Filter, b: Borrow) {
    match f
    case WithStatus(s) => b.status == s
    case ReturnedOnTime => b.status == Returned && JsTime(b.returnDate) <= JsTime(b.dueDate)
    case ReturnedLate => b.status == Returned && JsTime(b.returnDate) > JsTime(b.dueDate)
  }

  /** `records.filter(f).length`. */
  function Count(records: seq<Borrow>, f: Filter): (n: nat)
    ensures n <= |records|
    ensures n == 0 <==> forall k :: 0 <= k < |records| ==> !Matches(f, records[k])
    ensures n == |records| <==> forall k :: 0 <= k < |records| ==> Matches(f, records[k])
    ensures n == |set k | 0 <= k < |records| && Matches(f, records[k])|
    decreases |records|
  {
    if records == [] then 0
    else
      var rest := Count(records[1..], f);
      assert forall k :: 1 <= k < |records| ==> records[k] == records[1..][k - 1];
      MatchesCons(records, f);
      (if Matches(f, records[0]) then 1 else 0) + rest
  }

  lemma MatchesCons(records: seq<Borrow>, f: Filter)
    requires records != []
    ensures |set k | 0 <= k < |records| && Matches(f, records[k])|
         == (if Matches(f, records[0]) then 1 else 0) + |set k | 0 <= k < |records[1..]| && Matches(f, records[1..][k])|
  {
    var p := b => Matches(f, b);
    CountIfCons(records, p);
    assert Positions(records, p) == set k | 0 <= k < |records| && Matches(f, records[k]);
    assert Positions(records[1..], p) == set k | 0 <= k < |records[1..]| && Matches(f, records[1..][k]);
  }

  datatype BorrowSummary = BorrowSummary(total: nat, onTime: nat, overdue: nat, active: nat)
  datatype StatusCounts = StatusCounts(returned: nat, rejected: nat, cancelled: nat)
  datatype BorrowStatistics = BorrowStatistics(summary: BorrowSummary, status: StatusCounts)

  /** Every returned record is either on time or late, never both. */
  lemma {:induction false} OnTimeLateSplit(xs: seq<Borrow>)
    ensures Count(xs, ReturnedOnTime) + Count(xs, ReturnedLate) == Count(xs, WithStatus(Returned))
    decreases |xs|
  {
    if xs != [] {
      OnTimeLateSplit(xs[1..]);
    }
  }

  /** Without pending records, every record is active, returned, rejected or cancelled. */
  lemma {:induction false} StatusPartition(xs: seq<Borrow>)
    requires forall k :: 0 <= k < |xs| ==> xs[k].status != Pending
    ensures |xs| == Count(xs, WithStatus(Approved)) + Count(xs, WithStatus(Returned))
                  + Count(xs, WithStatus(Rejected)) + Count(xs, WithStatus(Cancelled))
    decreases |xs|
  {
    if xs != [] {
      StatusPartition(xs[1..]);
    }
  }

  /** Reference count: the records of the collection inside the window that pass `f`, by position. */
  ghost function WindowCount(records: seq<Borrow>, start: int, f: Filter): nat {
    |set k | 0 <= k < |records| && InWindow(records[k], start) && Matches(f, records[k])|
  }

  /** Counting over the query's result is counting over the collection with both filters. */
  lemma {:induction false} CountSelected(records: seq<Borrow>, start: int, f: Filter)
    ensures Count(Selected(records, start), f) == WindowCount(records, start, f)
    decreases |records|
  {
    if records != [] {
      CountSelected(records[1..], start, f);
      var rest := Selected(records[1..], start);
      if InWindow(records[0], start) {
        assert ([records[0]] + rest)[1..] == rest;
      } else {
        assert [] + rest == rest;
      }
      WindowCountCons(records, start, f);
    }
  }

  lemma WindowCountCons(records: seq<Borrow>, start: int, f: Filter)
    requires records != []
    ensures WindowCount(records, start, f)
         == (if InWindow(records[0], start) && Matches(f, records[0]) then 1 else 0) + WindowCount(records[1..], start, f)
  {
    var p := b => InWindow(b, start) && Matches(f, b);
    CountIfCons(records, p);
    assert Positions(records, p) == set k | 0 <= k < |records| && InWindow(records[k], start) && Matches(f, records[k]);
    assert Positions(records[1..], p)
        == set k | 0 <= k < |records[1..]| && InWindow(records[1..][k], start) && Matches(f, records[1..][k]);
  }

  /** The query's result splits into returned-on-time and late, and into the four non-pending statuses. */
  lemma SelectedPartition(records: seq<Borrow>, start: int)
    ensures var sel := Selected(records, start);
            Count(sel, ReturnedOnTime) + Count(sel, ReturnedLate) == Count(sel, WithStatus(Returned))
    ensures var sel := Selected(records, start);
            |sel| == Count(sel, WithStatus(Approved)) + Count(sel, WithStatus(Returned))
                     + Count(sel, WithStatus(Rejected)) + Count(sel, WithStatus(Cancelled))
  {
    var sel := Selected(records, start);
    assert forall k :: 0 <= k < |sel| ==> sel[k] in sel;
    OnTimeLateSplit(sel);
    StatusPartition(sel);
  }

  /**
   * `getBorrowStatistics` without the trend series: the summary counts and the
   * status distribution over the window's non-pending records.
   */
  function GetBorrowStatistics(records: seq<Borrow>, timeRange: string, now: int): (r: BorrowStatistics)
    ensures var start := WindowStart(timeRange, now);
            r.summary.total == |set k | 0 <= k < |records| && InWindow(records[k], start)|
    ensures var start := WindowStart(timeRange, now);
            r.summary.onTime == WindowCount(records, start, ReturnedOnTime) &&
            r.summary.overdue == WindowCount(records, start, ReturnedLate) &&
            r.summary.active == WindowCount(records, start, WithStatus(Approved))
    ensures var start := WindowStart(timeRange, now);
            r.status.returned == WindowCount(records, start, WithStatus(Returned)) &&
            r.status.rejected == WindowCount(records, start, WithStatus(Rejected)) &&
            r.status.cancelled == WindowCount(records, start, WithStatus(Cancelled))
    ensures r.summary.onTime + r.summary.overdue == r.status.returned
    ensures r.summary.total == r.summary.active + r.status.returned + r.status.rejected + r.status.cancelled
    ensures r.summary.total <= |records|
    ensures forall b :: b in records && InWindow(b, WindowStart(timeRange, now)) && b.status == Approved ==> r.summary.active > 0
  {
    var start := WindowStart(timeRange, now);
    var selected := Selected(records, start);
    SelectedPartition(records, start);
    CountSelected(records, start, ReturnedOnTime);
    CountSelected(records, start, ReturnedLate);
    CountSelected(records, start, WithStatus(Approved));
    CountSelected(records, start, WithStatus(Returned));
    CountSelected(records, start, WithStatus(Rejected));
    CountSelected(records, start, WithStatus(Cancelled));
    BorrowStatistics(
      BorrowSummary(|selected|, Count(selected, ReturnedOnTime), Count(selected, ReturnedLate),
                    Count(selected, WithStatus(Approved))),
      StatusCounts(Count(selected, WithStatus(Returned)), Count(selected, WithStatus(Rejected)),
                   Count(selected, WithStatus(Cancelled))))
  }

  /**
   * Approval sets `returnDate` but never `dueDate`, so for every record the
   * lending flow produces the on-time test compares a date with `null`: no
   * return is on time, and every return after 1970 counts as overdue.
   */
  lemma NoReturnIsOnTime(xs: seq<Borrow>)
    requires forall k :: 0 <= k < |xs| ==> BorrowService.Reachable(xs[k])
    requires forall k :: 0 <= k < |xs| ==> xs[k].returnDate.Some? ==> xs[k].returnDate.value > 0
    ensures Count(xs, ReturnedOnTime) == 0
    ensures Count(xs, ReturnedLate) == Count(xs, WithStatus(Returned))
  {
    OnTimeLateSplit(xs);
  }

  // ---- book statistics: the reduce folds ----

  /** `borrowedBooks`: the summed quantity of approved records. */
  function BorrowedBooks(records: seq<Borrow>): (n: int)
    ensures (forall k :: 0 <= k < |records| ==> records[k].quantity >= 0) ==> n >= 0
    ensures (forall k :: 0 <= k < |records| ==> records[k].status != Approved) ==> n == 0
    ensures (forall k :: 0 <= k < |records| ==> records[k].quantity >= 0) ==>
              forall k :: 0 <= k < |records| && records[k].status == Approved ==> records[k].quantity <= n
    decreases |records|
  {
    if records == [] then 0
    else
      assert forall k :: 1 <= k < |records| ==> records[k] == records[1..][k - 1];
      (if records[0].status == Approved then records[0].quantity else 0) + BorrowedBooks(records[1..])
  }

  /** `totalQuantity`: the summed stock of all books. */
  function TotalQuantity(books: seq<BookModel.Book>): (t: int)
    ensures (forall j :: 0 <= j < |books| ==> books[j].quantity >= 0) ==>
              t >= 0 && forall j :: 0 <= j < |books| ==> books[j].quantity <= t
    decreases |books|
  {
    if books == [] then 0
    else
      assert forall j :: 1 <= j < |books| ==> books[j] == books[1..][j - 1];
      books[0].quantity + TotalQuantity(books[1..])
  }

  /** `availableBooks`: stock minus approved copies, with no clamping at zero. */
  function AvailableBooks(records: seq<Borrow>, books: seq<BookModel.Book>): (a: int)
    ensures (forall k :: 0 <= k < |records| ==> records[k].quantity >= 0) ==> a <= TotalQuantity(books)
    ensures (forall k :: 0 <= k < |records| ==> records[k].status != Approved) ==> a == TotalQuantity(books)
  {
    TotalQuantity(books) - BorrowedBooks(records)
  }

  /** The business ids of a list of books. */
  function BookIds(books: seq<BookModel.Book>): (ids: set<string>)
    ensures forall id :: id in ids <==> exists j :: 0 <= j < |books| && books[j].bookId == id
    decreases |books|
  {
    if books == [] then {}
    else
      var rest := BookIds(books[1..]);
      assert forall j :: 1 <= j < |books| ==> books[j] == books[1..][j - 1];
      {books[0].bookId} + rest
  }

  /** Approved quantity over the records whose book is one of `ids`. */
  function ApprovedIn(records: seq<Borrow>, ids: set<string>): int
    decreases |records|
  {
    if records == [] then 0
    else (if records[0].status == Approved && records[0].bookId in ids then records[0].quantity else 0)
         + ApprovedIn(records[1..], ids)
  }

  lemma {:induction false} ApprovedInAll(records: seq<Borrow>, ids: set<string>)
    requires forall k :: 0 <= k < |records| ==> records[k].bookId in ids
    ensures ApprovedIn(records, ids) == BorrowedBooks(records)
    decreases |records|
  {
    if records != [] {
      ApprovedInAll(records[1..], ids);
    }
  }

  lemma {:induction false} ApprovedInSplit(records: seq<Borrow>, ids: set<string>, id: string)
    ensures ApprovedIn(records, ids) == ApprovedIn(records, ids - {id}) + ApprovedIn(records, ids * {id})
    decreases |records|
  {
    if records != [] {
      ApprovedInSplit(records[1..], ids, id);
    }
  }

  lemma {:induction false} ApprovedInNone(records: seq<Borrow>)
    ensures ApprovedIn(records, {}) == 0
    decreases |records|
  {
    if records != [] {
      ApprovedInNone(records[1..]);
    }
  }

  /** A book's approved copies are part of its committed copies. */
  lemma {:induction false} ApprovedWithinCommitted(records: seq<Borrow>, id: string)
    requires forall k :: 0 <= k < |records| ==> records[k].quantity >= 0
    ensures ApprovedIn(records, {id}) <= Ledger.Committed(records, id)
    decreases |records|
  {
    if records != [] {
      ApprovedWithinCommitted(records[1..], id);
    }
  }

  lemma {:induction false} ApprovedWithinStock(records: seq<Borrow>, books: seq<BookModel.Book>)
    requires BookModel.UniqueBookIds(books)
    requires forall k :: 0 <= k < |records| ==> records[k].quantity >= 0
    requires forall j :: 0 <= j < |books| ==> Ledger.Committed(records, books[j].bookId) <= books[j].quantity
    ensures ApprovedIn(records, BookIds(books)) <= TotalQuantity(books)
    decreases |books|
  {
    if books != [] {
      var id := books[0].bookId;
      assert id !in BookIds(books[1..]);
      assert BookIds(books) - {id} == BookIds(books[1..]);
      assert BookIds(books) * {id} == {id};
      ApprovedInSplit(records, BookIds(books), id);
      ApprovedWithinCommitted(records, id);
      ApprovedWithinStock(records, books[1..]);
      assert Ledger.Committed(records, books[0].bookId) <= books[0].quantity;
      assert ApprovedIn(records, BookIds(books))
          == ApprovedIn(records, BookIds(books[1..])) + ApprovedIn(records, {id});
    } else {
      ApprovedInNone(records);
    }
  }

  /**
   * The unclamped `available` figure is never negative while every book's
   * committed copies stay within its stock and every record names a listed book.
   */
  lemma AvailableNeverNegative(records: seq<Borrow>, books: seq<BookModel.Book>)
    requires BookModel.UniqueBookIds(books)
    requires forall k :: 0 <= k < |records| ==> records[k].quantity >= 0
    requires forall k :: 0 <= k < |records| ==> records[k].bookId in BookIds(books)
    requires forall j :: 0 <= j < |books| ==> Ledger.Committed(records, books[j].bookId) <= books[j].quantity
    ensures AvailableBooks(records, books) >= 0
  {
    ApprovedInAll(records, BookIds(books));
    ApprovedWithinStock(records, books);
  }

  /** With no ledger guarantee the figure goes negative: one approved copy of a book with no stock. */
  lemma AvailableCanBeNegative()
    ensures AvailableBooks([Borrow("DG001", "S001", Some("NV001"), None, 1, Approved, None, None, Some(1), None, 0, 0)],
                           [BookModel.Book("S001", "t", [], [], "p", 0, true)]) == -1
  {
  }

  // ---- accumulator objects: countBorrowedBooks and borrowCounts ----

  /** One `(key, amount)` contribution to an accumulator object, and one entry of `Object.entries`. */
  datatype Entry = Entry(key: string, count: int)

  /** The object after adding every contribution in order: `acc[key] = (acc[key] || 0) + amount`. */
  function Totals(pairs: seq<Entry>): map<string, int>
    decreases |pairs|
  {
    if pairs == [] then map[]
    else
      var t := Totals(pairs[..|pairs| - 1]);
      var p := pairs[|pairs| - 1];
      t[p.key := (if p.key in t then t[p.key] else 0) + p.count]
  }

  /** The object's key order: a key takes its place when it is first assigned. */
  function KeysInOrder(pairs: seq<Entry>): (keys: seq<string>)
    ensures forall k :: k in keys <==> k in Totals(pairs)
    ensures forall i, j :: 0 <= i < j < |keys| ==> keys[i] != keys[j]
    decreases |pairs|
  {
    if pairs == [] then []
    else
      var keys := KeysInOrder(pairs[..|pairs| - 1]);
      var p := pairs[|pairs| - 1];
      if p.key in keys then keys else keys + [p.key]
  }

  /** Reference definition: the sum of the amounts given for `key`. */
  function SumFor(pairs: seq<Entry>, key: string): int
    decreases |pairs|
  {
    if pairs == [] then 0
    else SumFor(pairs[..|pairs| - 1], key) + (if pairs[|pairs| - 1].key == key then pairs[|pairs| - 1].count else 0)
  }

  predicate Occurs(pairs: seq<Entry>, key: string) {
    exists i :: 0 <= i < |pairs| && pairs[i].key == key
  }

  /** The object holds exactly the keys that were given, each with the sum of its amounts. */
  lemma {:induction false} TotalsAreSums(pairs: seq<Entry>)
    ensures forall key :: key in Totals(pairs) <==> Occurs(pairs, key)
    ensures forall key :: key in Totals(pairs) ==> Totals(pairs)[key] == SumFor(pairs, key)
    decreases |pairs|
  {
    if pairs != [] {
      var pre := pairs[..|pairs| - 1];
      TotalsAreSums(pre);
      forall key ensures Occurs(pairs, key) <==> Occurs(pre, key) || pairs[|pairs| - 1].key == key {
        if Occurs(pairs, key) && pairs[|pairs| - 1].key != key {
          var i :| 0 <= i < |pairs| && pairs[i].key == key;
          assert pre[i].key == key;
        }
        if Occurs(pre, key) {
          var i :| 0 <= i < |pre| && pre[i].key == key;
          assert pairs[i].key == key;
        }
      }
      forall key | key in Totals(pairs) && key !in Totals(pre)
        ensures SumFor(pre, key) == 0
      {
        SumForAbsent(pre, key);
      }
    }
  }

  lemma {:induction false} SumForAbsent(pairs: seq<Entry>, key: string)
    requires !Occurs(pairs, key)
    ensures SumFor(pairs, key) == 0
    decreases |pairs|
  {
    if pairs != [] {
      var pre := pairs[..|pairs| - 1];
      assert forall i :: 0 <= i < |pre| ==> pre[i] == pairs[i];
      SumForAbsent(pre, key);
    }
  }

  /**
   * The accumulator loop (`forEach` writing into an object, or `reduce` with
   * an object accumulator): the keys in insertion order and the final totals.
   */
  method Tally(pairs: seq<Entry>) returns (keys: seq<string>, totals: map<string, int>)
    ensures keys == KeysInOrder(pairs)
    ensures totals == Totals(pairs)
  {
    keys := [];
    totals := map[];
    var i := 0;
    while i < |pairs|
      invariant 0 <= i <= |pairs|
      invariant keys == KeysInOrder(pairs[..i])
      invariant totals == Totals(pairs[..i])
    {
      var p := pairs[i];
      TallyStep(pairs, i, keys, totals);
      if p.key in totals {
        totals := totals[p.key := totals[p.key] + p.count];
      } else {
        keys := keys + [p.key];
        totals := totals[p.key := p.count];
      }
      i := i + 1;
    }
    assert pairs[..|pairs|] == pairs;
  }

  /** One more contribution: its key joins the order if new, and its amount is added to that key. */
  lemma TallyStep(pairs: seq<Entry>, i: nat, keys: seq<string>, totals: map<string, int>)
    requires i < |pairs| && keys == KeysInOrder(pairs[..i]) && totals == Totals(pairs[..i])
    ensures Totals(pairs[..i + 1]) == totals[pairs[i].key := (if pairs[i].key in totals then totals[pairs[i].key] else 0) + pairs[i].count]
    ensures KeysInOrder(pairs[..i + 1]) == if pairs[i].key in totals then keys else keys + [pairs[i].key]
  {
    assert pairs[..i + 1][..i] == pairs[..i];
  }

  /** `Object.entries(acc)`: each key with its total, in key order. */
  function Entries(keys: seq<string>, totals: map<string, int>): seq<Entry>
    requires forall k :: k in keys ==> k in totals
  {
    seq(|keys|, i requires 0 <= i < |keys| => Entry(keys[i], totals[keys[i]]))
  }

  // ---- sorting by descending count, then the first n ----

  predicate SortedDesc(s: seq<Entry>) {
    forall i, j :: 0 <= i < j < |s| ==> s[i].count >= s[j].count
  }

  /**
   * Places `e` before the first entry whose count is not above its own, so
   * ahead of any entry with an equal count. `SortDesc` inserts each head into
   * the sorted tail, so equal counts keep their original order.
   */
  function Insert(e: Entry, s: seq<Entry>): (r: seq<Entry>)
    requires SortedDesc(s)
    ensures |r| == |s| + 1
    ensures forall x :: x in r <==> x == e || x in s
    ensures SortedDesc(r)
    ensures multiset(r) == multiset(s) + multiset{e}
    decreases |s|
  {
    if s == [] || s[0].count <= e.count then
      ConsSorted(e, s);
      [e] + s
    else
      var rest := Insert(e, s[1..]);
      assert s == [s[0]] + s[1..];
      HeadDominates(e, s, rest);
      ConsSorted(s[0], rest);
      [s[0]] + rest
  }

  /** Everything placed after the head of a sorted list, or below it, counts no more than the head. */
  lemma HeadDominates(e: Entry, s: seq<Entry>, rest: seq<Entry>)
    requires SortedDesc(s) && s != [] && e.count < s[0].count
    requires forall x :: x in rest <==> x == e || x in s[1..]
    ensures forall k :: 0 <= k < |rest| ==> rest[k].count <= s[0].count
  {
    forall k | 0 <= k < |rest|
      ensures rest[k].count <= s[0].count
    {
      assert rest[k] in rest;
      if rest[k] != e {
        var j :| 0 <= j < |s[1..]| && s[1..][j] == rest[k];
        assert s[j + 1] == rest[k];
      }
    }
  }

  /** A head no smaller than every later count keeps a sorted list sorted. */
  lemma ConsSorted(h: Entry, s: seq<Entry>)
    requires SortedDesc(s)
    requires forall k :: 0 <= k < |s| ==> s[k].count <= h.count
    ensures SortedDesc([h] + s)
  {
  }

  /** `.sort((a, b) => b.count - a.count)`. */
  function SortDesc(s: seq<Entry>): (r: seq<Entry>)
    ensures SortedDesc(r)
    ensures multiset(r) == multiset(s)
    decreases |s|
  {
    if s == [] then []
    else
      assert s == [s[0]] + s[1..];
      Insert(s[0], SortDesc(s[1..]))
  }

  /** In a list sorted by descending count, a prefix dominates everything left out of it. */
  lemma PrefixDominates(s: seq<Entry>, m: nat)
    requires SortedDesc(s) && m <= |s|
    ensures forall x, y :: x in s[..m] && y in multiset(s) - multiset(s[..m]) ==> y.count <= x.count
  {
    SuffixIsRest(s, m);
    forall x, y | x in s[..m] && y in s[m..]
      ensures y.count <= x.count
    {
      var i :| 0 <= i < m && s[..m][i] == x;
      var j :| 0 <= j < |s| - m && s[m..][j] == y;
      assert s[i] == x && s[m + j] == y;
    }
  }

  /** What a prefix leaves of the list's multiset is the multiset of the rest. */
  lemma SuffixIsRest(s: seq<Entry>, m: nat)
    requires m <= |s|
    ensures forall y :: y in multiset(s) - multiset(s[..m]) ==> y in s[m..]
  {
    assert s == s[..m] + s[m..];
    assert multiset(s) - multiset(s[..m]) == multiset(s[m..]);
  }

  /** `.sort(...).slice(0, n)`: the n largest counts, largest first. */
  function TopN(entries: seq<Entry>, n: nat): (r: seq<Entry>)
    ensures |r| == if |entries| < n then |entries| else n
    ensures SortedDesc(r)
    ensures multiset(r) <= multiset(entries)
    ensures forall x, y :: x in r && y in multiset(entries) - multiset(r) ==> y.count <= x.count
  {
    var s := SortDesc(entries);
    var m := if |s| < n then |s| else n;
    assert s == s[..m] + s[m..];
    assert |s| == |entries| by {
      assert |multiset(s)| == |multiset(entries)|;
    }
    PrefixDominates(s, m);
    s[..m]
  }

  // ---- the two rankings: books by borrowed copies, readers by borrowed copies ----

  /** Which accumulator a record feeds: `countBorrowedBooks` or `borrowCounts`. */
  datatype Grouping = ByBook | ByReader

  /** `countBorrowedBooks` skips pending and cancelled records; `borrowCounts` takes every record. */
  predicate Feeds(g: Grouping, b: Borrow) {
    match g
    case ByBook => b.status != Pending && b.status != Cancelled
    case ByReader => true
  }

  function GroupKey(g: Grouping, b: Borrow): string {
    match g
    case ByBook => b.bookId
    case ByReader => b.readerId
  }

  /** The `(key, quantity)` contributions, in record order. */
  function Contributions(records: seq<Borrow>, g: Grouping): (r: seq<Entry>)
    ensures |r| <= |records|
    decreases |records|
  {
    if records == [] then []
    else
      var pre := Contributions(records[..|records| - 1], g);
      var b := records[|records| - 1];
      if Feeds(g, b) then pre + [Entry(GroupKey(g, b), b.quantity)] else pre
  }

  /** Reference definition: the summed quantity of the records that feed `key`. */
  function GroupTotal(records: seq<Borrow>, g: Grouping, key: string): int
    decreases |records|
  {
    if records == [] then 0
    else
      var b := records[|records| - 1];
      GroupTotal(records[..|records| - 1], g, key) + (if Feeds(g, b) && GroupKey(g, b) == key then b.quantity else 0)
  }

  /** Some record feeds `key`. */
  predicate Fed(records: seq<Borrow>, g: Grouping, key: string) {
    exists k :: 0 <= k < |records| && Feeds(g, records[k]) && GroupKey(g, records[k]) == key
  }

  lemma {:induction false} ContributionsSum(records: seq<Borrow>, g: Grouping, key: string)
    ensures SumFor(Contributions(records, g), key) == GroupTotal(records, g, key)
    decreases |records|
  {
    if records != [] {
      var pre := records[..|records| - 1];
      var b := records[|records| - 1];
      var cs := Contributions(pre, g);
      ContributionsSum(pre, g, key);
      if Feeds(g, b) {
        assert (cs + [Entry(GroupKey(g, b), b.quantity)])[..|cs|] == cs;
      }
    }
  }

  lemma {:induction false} ContributionsOccur(records: seq<Borrow>, g: Grouping, key: string)
    ensures Occurs(Contributions(records, g), key) <==> Fed(records, g, key)
    decreases |records|
  {
    if records != [] {
      var pre := records[..|records| - 1];
      var b := records[|records| - 1];
      var cs := Contributions(pre, g);
      ContributionsOccur(pre, g, key);
      assert Fed(records, g, key) <==> Fed(pre, g, key) || (Feeds(g, b) && GroupKey(g, b) == key) by {
        if Fed(records, g, key) {
          var k :| 0 <= k < |records| && Feeds(g, records[k]) && GroupKey(g, records[k]) == key;
          if k < |pre| {
            assert pre[k] == records[k];
          }
        }
        if Fed(pre, g, key) {
          var k :| 0 <= k < |pre| && Feeds(g, pre[k]) && GroupKey(g, pre[k]) == key;
          assert records[k] == pre[k];
        }
      }
      if Feeds(g, b) {
        var e := Entry(GroupKey(g, b), b.quantity);
        assert Occurs(cs + [e], key) <==> Occurs(cs, key) || e.key == key by {
          if Occurs(cs + [e], key) {
            var i :| 0 <= i < |cs + [e]| && (cs + [e])[i].key == key;
            if i < |cs| {
              assert cs[i] == (cs + [e])[i];
            }
          }
          if Occurs(cs, key) {
            var i :| 0 <= i < |cs| && cs[i].key == key;
            assert (cs + [e])[i] == cs[i];
          }
          assert (cs + [e])[|cs|] == e;
        }
      }
    }
  }

  /** `Object.entries` of the finished accumulator. */
  function Ranking(records: seq<Borrow>, g: Grouping): seq<Entry> {
    var pairs := Contributions(records, g);
    Entries(KeysInOrder(pairs), Totals(pairs))
  }

  /** The accumulator lists every fed key once, with the summed quantity of its records. */
  lemma RankingSpec(records: seq<Borrow>, g: Grouping)
    ensures forall i :: 0 <= i < |Ranking(records, g)| ==>
              Fed(records, g, Ranking(records, g)[i].key) &&
              Ranking(records, g)[i].count == GroupTotal(records, g, Ranking(records, g)[i].key)
    ensures forall key :: Fed(records, g, key) ==>
              exists i :: 0 <= i < |Ranking(records, g)| && Ranking(records, g)[i].key == key
    ensures forall i, j :: 0 <= i < j < |Ranking(records, g)| ==> Ranking(records, g)[i].key != Ranking(records, g)[j].key
  {
    var pairs := Contributions(records, g);
    var keys := KeysInOrder(pairs);
    var ranking := Ranking(records, g);
    TotalsAreSums(pairs);
    forall i | 0 <= i < |ranking|
      ensures Fed(records, g, ranking[i].key) && ranking[i].count == GroupTotal(records, g, ranking[i].key)
    {
      ContributionsOccur(records, g, keys[i]);
      ContributionsSum(records, g, keys[i]);
    }
    forall key | Fed(records, g, key)
      ensures exists i :: 0 <= i < |ranking| && ranking[i].key == key
    {
      ContributionsOccur(records, g, key);
      assert key in keys;
      var i :| 0 <= i < |keys| && keys[i] == key;
      assert ranking[i].key == key;
    }
  }

  /** Every kept entry comes from the list. */
  lemma TopKeepsEntries(entries: seq<Entry>, n: nat)
    ensures forall i :: 0 <= i < |TopN(entries, n)| ==> TopN(entries, n)[i] in entries
  {
    var top := TopN(entries, n);
    forall i | 0 <= i < |top|
      ensures top[i] in entries
    {
      assert top[i] in multiset(top);
    }
  }

  /** An entry left out has a count no larger than any kept one. */
  lemma TopDominates(entries: seq<Entry>, n: nat, y: Entry)
    requires y in entries && y !in TopN(entries, n)
    ensures forall i :: 0 <= i < |TopN(entries, n)| ==> y.count <= TopN(entries, n)[i].count
  {
    var top := TopN(entries, n);
    assert multiset(top)[y] == 0;
    assert y in multiset(entries) - multiset(top);
    forall i | 0 <= i < |top|
      ensures y.count <= top[i].count
    {
      assert top[i] in top;
    }
  }

  /** Any entry of the ranking is a fed key with the summed quantity of its records. */
  lemma RankedEntryFed(records: seq<Borrow>, g: Grouping, e: Entry)
    requires e in Ranking(records, g)
    ensures Fed(records, g, e.key) && e.count == GroupTotal(records, g, e.key)
  {
    var ranking := Ranking(records, g);
    RankingSpec(records, g);
    var j :| 0 <= j < |ranking| && ranking[j] == e;
  }

  /** Each kept entry is a fed key with the summed quantity of its records. */
  lemma TopEntriesFed(records: seq<Borrow>, g: Grouping, n: nat)
    ensures forall i :: 0 <= i < |TopN(Ranking(records, g), n)| ==>
              Fed(records, g, TopN(Ranking(records, g), n)[i].key) &&
              TopN(Ranking(records, g), n)[i].count == GroupTotal(records, g, TopN(Ranking(records, g), n)[i].key)
  {
    var ranking := Ranking(records, g);
    var top := TopN(ranking, n);
    TopKeepsEntries(ranking, n);
    forall i | 0 <= i < |top|
      ensures Fed(records, g, top[i].key) && top[i].count == GroupTotal(records, g, top[i].key)
    {
      RankedEntryFed(records, g, top[i]);
    }
  }

  /** A fed key that was cut off has a total no larger than any kept count. */
  lemma TopLeavesOutSmaller(records: seq<Borrow>, g: Grouping, n: nat, key: string)
    requires Fed(records, g, key)
    requires forall j :: 0 <= j < |TopN(Ranking(records, g), n)| ==> TopN(Ranking(records, g), n)[j].key != key
    ensures forall i :: 0 <= i < |TopN(Ranking(records, g), n)| ==>
              GroupTotal(records, g, key) <= TopN(Ranking(records, g), n)[i].count
  {
    var ranking := Ranking(records, g);
    RankingSpec(records, g);
    var k :| 0 <= k < |ranking| && ranking[k].key == key;
    TopDominates(ranking, n, ranking[k]);
  }

  /** The accumulator loop followed by the sort and the slice. */
  method Rank(records: seq<Borrow>, g: Grouping, n: nat) returns (top: seq<Entry>)
    ensures top == TopN(Ranking(records, g), n)
  {
    var keys, totals := Tally(Contributions(records, g));
    top := TopN(Entries(keys, totals), n);
  }

  // ---- getBookStatistics ----

  /** `Book.findOne({ bookId })` over the book list. */
  function BookTable(books: seq<BookModel.Book>): (t: map<string, BookModel.Book>)
    ensures forall j :: 0 <= j < |books| ==> books[j].bookId in t
    ensures forall id :: id in t ==> t[id] in books && t[id].bookId == id
    decreases |books|
  {
    if books == [] then map[]
    else
      var t := BookTable(books[1..]);
      assert forall j :: 1 <= j < |books| ==> books[j] == books[1..][j - 1];
      t[books[0].bookId := books[0]]
  }

  datatype TopBook = TopBook(info: BookModel.BookFullInfo, borrowCount: int)

  /** One top entry mapped to full book information, as `TopBookInfos` does for each. */
  function TopBookInfo(e: Entry, books: map<string, BookModel.Book>, authorNames: map<string, string>,
                       categoryNames: map<string, string>, publisherNames: map<string, string>)
    : (r: Result<Option<TopBook>, string>)
    ensures r.Ok? <==> (e.key in books ==> books[e.key].publisher in publisherNames)
    ensures r.Ok? ==> (r.value.None? <==> e.key !in books)
    ensures r.Ok? && r.value.Some? ==>
              r.value.value.borrowCount == e.count &&
              r.value.value.info == BookModel.GetFullInfo(books[e.key], authorNames, categoryNames, publisherNames).value &&
              r.value.value.info.bookId == books[e.key].bookId
  {
    if e.key !in books then Ok(None)
    else
      match BookModel.GetFullInfo(books[e.key], authorNames, categoryNames, publisherNames)
      case Err(err) => Err(err)
      case Ok(info) => Ok(Some(TopBook(info, e.count)))
  }

  /**
   * The top list mapped to full book information: `null` where the book no
   * longer exists; a missing publisher makes `getFullInfo` throw.
   */
  function TopBookInfos(top: seq<Entry>, books: map<string, BookModel.Book>, authorNames: map<string, string>,
                        categoryNames: map<string, string>, publisherNames: map<string, string>)
    : (r: Result<seq<Option<TopBook>>, string>)
    ensures r.Ok? <==> forall i :: 0 <= i < |top| && top[i].key in books ==> books[top[i].key].publisher in publisherNames
    ensures r.Ok? ==> |r.value| == |top|
    ensures r.Ok? ==> forall i :: 0 <= i < |top| ==> (r.value[i].None? <==> top[i].key !in books)
    ensures r.Ok? ==> forall i :: 0 <= i < |top| && r.value[i].Some? ==>
              r.value[i].value.borrowCount == top[i].count && r.value[i].value.info.bookId == books[top[i].key].bookId
    ensures r.Ok? ==> forall i :: 0 <= i < |top| && r.value[i].Some? ==>
              r.value[i].value.info == BookModel.GetFullInfo(books[top[i].key], authorNames, categoryNames, publisherNames).value
    decreases |top|
  {
    if top == [] then Ok([])
    else
      var rest := TopBookInfos(top[1..], books, authorNames, categoryNames, publisherNames);
      var head := TopBookInfo(top[0], books, authorNames, categoryNames, publisherNames);
      assert forall i :: 1 <= i < |top| ==> top[i] == top[1..][i - 1];
      if head.Err? then Err(head.error)
      else if rest.Err? then rest
      else Ok([head.value] + rest.value)
  }

  datatype Category = Category(id: string, name: string)
  datatype CategoryStats = CategoryStats(labels: seq<string>, bookCounts: seq<nat>, borrowCounts: seq<nat>)

  /** `booksInCategory`: the books whose category list contains `id`, each as often as it is listed. */
  function InCategory(books: seq<BookModel.Book>, id: string): (r: seq<BookModel.Book>)
    ensures |r| <= |books|
    ensures forall b :: multiset(r)[b] == if id in b.categories then multiset(books)[b] else 0
    ensures |r| == |set j | 0 <= j < |books| && id in books[j].categories|
    decreases |books|
  {
    if books == [] then []
    else
      var rest := InCategory(books[1..], id);
      assert books == [books[0]] + books[1..];
      ListedCountCons(books, id);
      (if id in books[0].categories then [books[0]] else []) + rest
  }

  lemma ListedCountCons(books: seq<BookModel.Book>, id: string)
    requires books != []
    ensures |set j | 0 <= j < |books| && id in books[j].categories|
         == (if id in books[0].categories then 1 else 0) + |set j | 0 <= j < |books[1..]| && id in books[1..][j].categories|
  {
    var p := (b: BookModel.Book) => id in b.categories;
    CountIfCons(books, p);
    assert Positions(books, p) == set j | 0 <= j < |books| && id in books[j].categories;
    assert Positions(books[1..], p) == set j | 0 <= j < |books[1..]| && id in books[1..][j].categories;
  }

  /** `borrowed.length`: the records, of any status, whose book is one of `ids`. */
  function RecordsOfBooks(records: seq<Borrow>, ids: set<string>): (n: nat)
    ensures n <= |records|
    ensures n == 0 <==> forall k :: 0 <= k < |records| ==> records[k].bookId !in ids
    ensures n == |set k | 0 <= k < |records| && records[k].bookId in ids|
    decreases |records|
  {
    if records == [] then 0
    else
      var rest := RecordsOfBooks(records[1..], ids);
      assert forall k :: 1 <= k < |records| ==> records[k] == records[1..][k - 1];
      RecordsOfCons(records, ids);
      (if records[0].bookId in ids then 1 else 0) + rest
  }

  lemma RecordsOfCons(records: seq<Borrow>, ids: set<string>)
    requires records != []
    ensures |set k | 0 <= k < |records| && records[k].bookId in ids|
         == (if records[0].bookId in ids then 1 else 0) + |set k | 0 <= k < |records[1..]| && records[1..][k].bookId in ids|
  {
    var p := (b: Borrow) => b.bookId in ids;
    CountIfCons(records, p);
    assert Positions(records, p) == set k | 0 <= k < |records| && records[k].bookId in ids;
    assert Positions(records[1..], p) == set k | 0 <= k < |records[1..]| && records[1..][k].bookId in ids;
  }

  /** Some listed book carries category `id` and has business id `bookId`. */
  predicate HasBookIn(books: seq<BookModel.Book>, id: string, bookId: string) {
    exists j :: 0 <= j < |books| && id in books[j].categories && books[j].bookId == bookId
  }

  /** The ids collected from a category's books are the ids of the books listed in it. */
  lemma CategoryBookIds(books: seq<BookModel.Book>, id: string)
    ensures forall bookId :: bookId in BookIds(InCategory(books, id)) <==> HasBookIn(books, id, bookId)
  {
    var inCat := InCategory(books, id);
    forall bookId ensures bookId in BookIds(inCat) <==> HasBookIn(books, id, bookId) {
      if bookId in BookIds(inCat) {
        var j :| 0 <= j < |inCat| && inCat[j].bookId == bookId;
        assert multiset(inCat)[inCat[j]] > 0;
        var b := inCat[j];
        assert b in multiset(books);
        var i :| 0 <= i < |books| && books[i] == b;
      }
      if HasBookIn(books, id, bookId) {
        var j :| 0 <= j < |books| && id in books[j].categories && books[j].bookId == bookId;
        assert books[j] in multiset(books);
        assert books[j] in multiset(inCat);
        var i :| 0 <= i < |inCat| && inCat[i] == books[j];
      }
    }
  }

  /** `getCategoryStatistics`: per category, its name, its books and the records of those books. */
  function CategoryStatistics(categories: seq<Category>, books: seq<BookModel.Book>, records: seq<Borrow>)
    : (r: CategoryStats)
    ensures |r.labels| == |categories| && |r.bookCounts| == |categories| && |r.borrowCounts| == |categories|
    ensures forall i :: 0 <= i < |categories| ==> r.labels[i] == categories[i].name
    ensures forall i :: 0 <= i < |categories| ==> r.bookCounts[i] <= |books| && r.borrowCounts[i] <= |records|
    ensures forall i :: 0 <= i < |categories| ==>
              (r.bookCounts[i] == 0 <==> forall j :: 0 <= j < |books| ==> categories[i].id !in books[j].categories)
    ensures forall i :: 0 <= i < |categories| && r.bookCounts[i] == 0 ==> r.borrowCounts[i] == 0
    ensures forall i :: 0 <= i < |categories| ==>
              r.bookCounts[i] == |set j | 0 <= j < |books| && categories[i].id in books[j].categories|
    ensures forall i :: 0 <= i < |categories| ==>
              r.borrowCounts[i] == |set k | 0 <= k < |records| && HasBookIn(books, categories[i].id, records[k].bookId)|
  {
    CategoryStats(
      seq(|categories|, i requires 0 <= i < |categories| => categories[i].name),
      seq(|categories|, i requires 0 <= i < |categories| => BookCount(books, categories[i].id)),
      seq(|categories|, i requires 0 <= i < |categories| => BorrowCount(books, records, categories[i].id)))
  }

  /** `booksInCategory.length`. */
  function BookCount(books: seq<BookModel.Book>, id: string): (n: nat)
    ensures n <= |books|
    ensures n == 0 <==> forall j :: 0 <= j < |books| ==> id !in books[j].categories
    ensures n == |set j | 0 <= j < |books| && id in books[j].categories|
  {
    var inCat := InCategory(books, id);
    assert (exists j :: 0 <= j < |books| && id in books[j].categories) ==> inCat != [] by {
      if exists j :: 0 <= j < |books| && id in books[j].categories {
        var j :| 0 <= j < |books| && id in books[j].categories;
        assert books[j] in multiset(books);
        assert multiset(inCat)[books[j]] > 0;
      }
    }
    |inCat|
  }

  /** `borrowed.length` for one category: the records whose book is listed in it. */
  function BorrowCount(books: seq<BookModel.Book>, records: seq<Borrow>, id: string): (n: nat)
    ensures n <= |records|
    ensures (forall j :: 0 <= j < |books| ==> id !in books[j].categories) ==> n == 0
    ensures n == |set k | 0 <= k < |records| && HasBookIn(books, id, records[k].bookId)|
  {
    var ids := BookIds(InCategory(books, id));
    CategoryBookIds(books, id);
    assert (set k | 0 <= k < |records| && records[k].bookId in ids)
        == set k | 0 <= k < |records| && HasBookIn(books, id, records[k].bookId);
    RecordsOfBooks(records, ids)
  }

  datatype BookSummary = BookSummary(total: nat, borrowed: int, available: int, categories: nat)
  datatype BookStatistics = BookStatistics(summary: BookSummary, topBorrowed: seq<Option<TopBook>>,
                                           categoryStats: CategoryStats)

  /** `getBookStatistics` over the three collections once read. */
  method GetBookStatistics(records: seq<Borrow>, books: seq<BookModel.Book>, categories: seq<Category>,
                           authorNames: map<string, string>, categoryNames: map<string, string>,
                           publisherNames: map<string, string>)
    returns (r: Result<BookStatistics, string>)
    ensures r.Err? <==>
              TopBookInfos(TopN(Ranking(records, ByBook), 10), BookTable(books), authorNames, categoryNames,
                           publisherNames).Err?
    ensures r.Ok? ==> r.value.summary == BookSummary(|books|, BorrowedBooks(records), AvailableBooks(records, books),
                                                     |categories|)
    ensures r.Ok? ==> r.value.topBorrowed == TopBookInfos(TopN(Ranking(records, ByBook), 10), BookTable(books),
                                                          authorNames, categoryNames, publisherNames).value
    ensures r.Ok? ==> r.value.categoryStats == CategoryStatistics(categories, books, records)
  {
    var borrowed := BorrowedBooks(records);
    var available := TotalQuantity(books) - borrowed;
    var top := Rank(records, ByBook, 10);
    var infos := TopBookInfos(top, BookTable(books), authorNames, categoryNames, publisherNames);
    if infos.Err? {
      return Err(infos.error);
    }
    r := Ok(BookStatistics(BookSummary(|books|, borrowed, available, |categories|), infos.value,
                           CategoryStatistics(categories, books, records)));
  }

  // ---- getUserStatistics: the top borrowers ----

  /** The user document behind a reader; `None` when the reference does not resolve. */
  datatype Person = Person(firstName: string, lastName: string, email: string)
  datatype TopBorrower = TopBorrower(name: string, email: string, borrowCount: int)

  /** Every record's reader exists; otherwise the fold reads `.reader` of `null` and throws. */
  predicate ReadersResolved(records: seq<Borrow>, readers: map<string, Option<Person>>) {
    forall k :: 0 <= k < |records| ==> records[k].readerId in readers
  }

  /** The top entries as name, email and count; an entry without its user makes the template literal throw. */
  function Borrowers(top: seq<Entry>, readers: map<string, Option<Person>>): (r: Result<seq<TopBorrower>, string>)
    ensures r.Ok? <==> forall i :: 0 <= i < |top| ==> top[i].key in readers && readers[top[i].key].Some?
    ensures r.Ok? ==> |r.value| == |top|
    ensures r.Ok? ==> forall i :: 0 <= i < |top| ==>
              var p := readers[top[i].key].value;
              r.value[i].borrowCount == top[i].count && r.value[i].email == p.email &&
              r.value[i].name == p.firstName + " " + p.lastName
    decreases |top|
  {
    if top == [] then Ok([])
    else
      var rest := Borrowers(top[1..], readers);
      assert forall i :: 1 <= i < |top| ==> top[i] == top[1..][i - 1];
      if top[0].key !in readers || readers[top[0].key].None? then Err("cannot read properties of null")
      else if rest.Err? then rest
      else
        var p := readers[top[0].key].value;
        Ok([TopBorrower(p.firstName + " " + p.lastName, p.email, top[0].count)] + rest.value)
  }

  /** `topBorrowers` of `getUserStatistics`: readers ranked by borrowed copies, at most nine. */
  method GetTopBorrowers(records: seq<Borrow>, readers: map<string, Option<Person>>)
    returns (r: Result<seq<TopBorrower>, string>)
    ensures !ReadersResolved(records, readers) ==> r.Err?
    ensures ReadersResolved(records, readers) ==> r == Borrowers(TopN(Ranking(records, ByReader), 9), readers)
  {
    if !ReadersResolved(records, readers) {
      return Err("cannot read properties of null");
    }
    var top := Rank(records, ByReader, 9);
    r := Borrowers(top, readers);
  }

  /** Once every reader resolves, each listed borrower's user exists. */
  lemma TopBorrowersResolve(records: seq<Borrow>, readers: map<string, Option<Person>>)
    requires ReadersResolved(records, readers)
    ensures forall i :: 0 <= i < |TopN(Ranking(records, ByReader), 9)| ==> TopN(Ranking(records, ByReader), 9)[i].key in readers
  {
    TopEntriesFed(records, ByReader, 9);
  }
}
