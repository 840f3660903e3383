/**
 * The inventory ledger: how many copies of a book are reserved by pending or
 * approved borrow records, and how many remain available for a new request.
 */
module Ledger {
  import opened BorrowStatus
  import opened BorrowModel
  import BookModel

  /** What one record adds to a book's committed quantity. */
  function Contribution(r: Borrow, bookId: string): int {
    if r.bookId == bookId && IsCommitted(r.status) then r.quantity else 0
  }

  /** Sum of `quantity` over the book's pending and approved records (the `$match`/`$sum` aggregation). */
  function Committed(records: seq<Borrow>, bookId: string): (r: int)
    ensures (forall k :: 0 <= k < |records| ==> Contribution(records[k], bookId) == 0) ==> r == 0
    ensures (forall k :: 0 <= k < |records| ==> records[k].quantity >= 0) ==>
              r >= 0 && forall k :: 0 <= k < |records| ==> Contribution(records[k], bookId) <= r
    decreases |records|
  {
    if records == [] then 0
    else
      assert forall k :: 1 <= k < |records| ==> records[k] == records[1..][k - 1];
      Contribution(records[0], bookId) + Committed(records[1..], bookId)
  }

  /** `getAvailableBookQuantity`: stock minus committed copies, never below zero. */
  function AvailableQuantity(records: seq<Borrow>, bookId: string, stock: int): (r: int)
    ensures r >= 0
    ensures r >= stock - Committed(records, bookId)
    ensures r == 0 || r == stock - Committed(records, bookId)
  {
    var available := stock - Committed(records, bookId);
    if available < 0 then 0 else available
  }

  /** Every book in the table has no more copies committed than it has in stock. */
  ghost predicate LedgerHolds(records: seq<Borrow>, books: map<string, BookModel.Book>) {
    forall id :: id in books ==> Committed(records, id) <= books[id].quantity
  }

  lemma {:induction false} CommittedAppend(xs: seq<Borrow>, ys: seq<Borrow>, bookId: string)
    ensures Committed(xs + ys, bookId) == Committed(xs, bookId) + Committed(ys, bookId)
  {
    if xs == [] {
      assert xs + ys == ys;
    } else {
      assert (xs + ys)[1..] == xs[1..] + ys;
      CommittedAppend(xs[1..], ys, bookId);
    }
  }

  /** Replacing one record changes the committed total by the difference of the two contributions. */
  lemma {:induction false} CommittedUpdate(xs: seq<Borrow>, i: int, r: Borrow, bookId: string)
    requires 0 <= i < |xs|
    ensures Committed(xs[i := r], bookId)
         == Committed(xs, bookId) - Contribution(xs[i], bookId) + Contribution(r, bookId)
  {
    if i == 0 {
      assert xs[i := r][1..] == xs[1..];
    } else {
      assert xs[i := r][1..] == xs[1..][i - 1 := r];
      CommittedUpdate(xs[1..], i - 1, r, bookId);
    }
  }

  /**
   * Records of other books, and records whose status is rejected, cancelled or
   * returned, do not take part: two stores that agree on the contributions
   * agree on the committed total.
   */
  lemma {:induction false} CommittedIgnoresOthers(xs: seq<Borrow>, ys: seq<Borrow>, bookId: string)
    requires |xs| == |ys|
    requires forall k :: 0 <= k < |xs| ==> Contribution(xs[k], bookId) == Contribution(ys[k], bookId)
    ensures Committed(xs, bookId) == Committed(ys, bookId)
  {
    if xs != [] {
      CommittedIgnoresOthers(xs[1..], ys[1..], bookId);
    }
  }

  /** A record that does not count for the book leaves its availability unchanged. */
  lemma AvailabilityIgnoresRecord(xs: seq<Borrow>, r: Borrow, bookId: string, stock: int)
    requires r.bookId != bookId || !IsCommitted(r.status)
    ensures AvailableQuantity(xs + [r], bookId, stock) == AvailableQuantity(xs, bookId, stock)
  {
    CommittedAppend(xs, [r], bookId);
    assert Committed([r], bookId) == Contribution(r, bookId) + Committed([], bookId);
  }

  /** With every quantity at least one, the committed total is never negative. */
  lemma {:induction false} CommittedNonNegative(xs: seq<Borrow>, bookId: string)
    requires forall k :: 0 <= k < |xs| ==> xs[k].quantity >= 1
    ensures Committed(xs, bookId) >= 0
  {
    if xs != [] {
      CommittedNonNegative(xs[1..], bookId);
    }
  }

  /**
   * The availability guard is exact: a request of `q >= 1` copies passes
   * `available >= q` precisely when the committed total plus `q` fits the stock.
   */
  lemma AdmissionIsExact(records: seq<Borrow>, bookId: string, stock: int, q: int)
    requires q >= 1
    ensures AvailableQuantity(records, bookId, stock) >= q <==> Committed(records, bookId) + q <= stock
  {
  }

  /** Appending an admitted pending or approved record keeps the book within its stock. */
  lemma AdmissionKeepsStock(records: seq<Borrow>, r: Borrow, stock: int)
    requires r.quantity >= 1 && IsCommitted(r.status)
    requires AvailableQuantity(records, r.bookId, stock) >= r.quantity
    ensures Committed(records + [r], r.bookId) <= stock
  {
    CommittedAppend(records, [r], r.bookId);
    assert Committed([r], r.bookId) == r.quantity + Committed([], r.bookId);
  }

  /** An admitted append touches only its own book's total, so a ledger that held still holds. */
  lemma AdmissionKeepsLedger(records: seq<Borrow>, r: Borrow, books: map<string, BookModel.Book>)
    requires r.quantity >= 1 && IsCommitted(r.status) && r.bookId in books
    requires AvailableQuantity(records, r.bookId, books[r.bookId].quantity) >= r.quantity
    ensures Committed(records + [r], r.bookId) <= books[r.bookId].quantity
    ensures forall id :: id != r.bookId ==> Committed(records + [r], id) == Committed(records, id)
    ensures LedgerHolds(records, books) ==> LedgerHolds(records + [r], books)
  {
    AdmissionKeepsStock(records, r, books[r.bookId].quantity);
    forall id | id != r.bookId
      ensures Committed(records + [r], id) == Committed(records, id)
    {
      CommittedAppend(records, [r], id);
    }
  }
}
