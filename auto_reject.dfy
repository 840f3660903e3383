/**
 * The hourly expiry sweep: one bulk conditional update that turns every
 * pending record created at least 48 hours before `now` into a rejected one
 * carrying a fixed note. The update also refreshes `updatedAt`, as every
 * update of a timestamped record does.
 */
module AutoReject {
  import opened Wrappers
  import opened BorrowStatus
  import opened BorrowModel
  import opened Ledger
  import BorrowService

  /** 48 hours in milliseconds. */
  const ExpiryWindow: int := 48 * 60 * 60 * 1000

  /** "The borrow request was rejected automatically: it waited longer than 48 hours." */
  const TimeoutNote: string := "Yêu cầu mượn sách đã tự động từ chối do quá thời gian chờ (48 giờ)."

  /** The update's filter: still pending, and created at or before `now - 48h`. */
  predicate Expired(b: Borrow, now: int) {
    b.status == Pending && b.createdAt <= now - ExpiryWindow
  }

  /** The update's `$set`, applied to one matching record. */
  function Reject(b: Borrow, now: int): Borrow {
    b.(status := Rejected, note := Some(TimeoutNote), updatedAt := now)
  }

  function SweepOne(b: Borrow, now: int): Borrow {
    if Expired(b, now) then Reject(b, now) else b
  }

  /** The collection after the update. */
  function Swept(records: seq<Borrow>, now: int): (r: seq<Borrow>)
    ensures |r| == |records|
    ensures forall k :: 0 <= k < |records| ==> (r[k] == records[k] <==> !Expired(records[k], now))
    ensures forall k :: 0 <= k < |records| && Expired(records[k], now) ==>
              r[k].status == Rejected && r[k].note == Some(TimeoutNote) && r[k].updatedAt == now &&
              r[k].(status := Pending, note := records[k].note, updatedAt := records[k].updatedAt) == records[k]
  {
    if records == [] then [] else [SweepOne(records[0], now)] + Swept(records[1..], now)
  }

  /** The number of records the filter matches. */
  function ExpiredCount(records: seq<Borrow>, now: int): nat {
    if records == [] then 0 else (if Expired(records[0], now) then 1 else 0) + ExpiredCount(records[1..], now)
  }

  /** The copies of one book held by records the filter matches. */
  function ExpiredQuantity(records: seq<Borrow>, now: int, bookId: string): int {
    if records == [] then 0
    else (if Expired(records[0], now) && records[0].bookId == bookId then records[0].quantity else 0)
         + ExpiredQuantity(records[1..], now, bookId)
  }

  /** How many positions differ between two collections of equal length. */
  function ChangedCount(xs: seq<Borrow>, ys: seq<Borrow>): nat
    requires |xs| == |ys|
  {
    if xs == [] then 0 else (if xs[0] != ys[0] then 1 else 0) + ChangedCount(xs[1..], ys[1..])
  }

  lemma {:induction false} ExpiredCountAppend(xs: seq<Borrow>, ys: seq<Borrow>, now: int)
    ensures ExpiredCount(xs + ys, now) == ExpiredCount(xs, now) + ExpiredCount(ys, now)
  {
    if xs == [] {
      assert xs + ys == ys;
    } else {
      assert (xs + ys)[1..] == xs[1..] + ys;
      ExpiredCountAppend(xs[1..], ys, now);
    }
  }

  /** `modifiedCount` is the number of records whose stored value the update changes. */
  lemma {:induction false} ExpiredCountIsChangedCount(records: seq<Borrow>, now: int)
    ensures ExpiredCount(records, now) == ChangedCount(records, Swept(records, now))
  {
    if records != [] {
      var r := Swept(records, now);
      assert r[1..] == Swept(records[1..], now);
      ExpiredCountIsChangedCount(records[1..], now);
    }
  }

  /** A second sweep at the same time matches nothing: matched records are no longer pending. */
  lemma {:induction false} SweepIdempotent(records: seq<Borrow>, now: int)
    ensures Swept(Swept(records, now), now) == Swept(records, now)
    ensures ExpiredCount(Swept(records, now), now) == 0
  {
    if records != [] {
      var r := Swept(records, now);
      assert r[1..] == Swept(records[1..], now);
      SweepIdempotent(records[1..], now);
    }
  }

  /** The sweep lowers each book's committed total by exactly the copies of the records it rejects. */
  lemma {:induction false} SweepReleases(records: seq<Borrow>, now: int, bookId: string)
    ensures Committed(Swept(records, now), bookId) == Committed(records, bookId) - ExpiredQuantity(records, now, bookId)
  {
    if records != [] {
      var r := Swept(records, now);
      assert r[1..] == Swept(records[1..], now);
      SweepReleases(records[1..], now, bookId);
    }
  }

  /** With every quantity at least one, the sweep never raises a book's committed total. */
  lemma {:induction false} SweepNeverRaisesCommitted(records: seq<Borrow>, now: int, bookId: string)
    requires forall k :: 0 <= k < |records| ==> records[k].quantity >= 1
    ensures ExpiredQuantity(records, now, bookId) >= 0
    ensures Committed(Swept(records, now), bookId) <= Committed(records, bookId)
  {
    if records != [] {
      SweepNeverRaisesCommitted(records[1..], now, bookId);
    }
    SweepReleases(records, now, bookId);
  }

  /** A rejected request is still a record the lifecycle can leave behind. */
  lemma RejectKeepsReachable(b: Borrow, now: int)
    requires BorrowService.Reachable(b) && b.status == Pending
    ensures BorrowService.Reachable(Reject(b, now))
  {
  }

  /**
   * The scheduled callback's body, as a loop over the shared collection:
   * every matching record is rewritten in place, and `modifiedCount` says how
   * many were.
   */
  method Sweep(store: BorrowService.BorrowStore, now: int) returns (modifiedCount: nat)
    requires store.Valid()
    modifies store
    ensures store.Valid()
    ensures store.books == old(store.books) && store.readers == old(store.readers) && store.staff == old(store.staff)
    ensures store.borrows == Swept(old(store.borrows), now)
    ensures modifiedCount == ExpiredCount(old(store.borrows), now)
    ensures LedgerHolds(old(store.borrows), store.books) ==> LedgerHolds(store.borrows, store.books)
  {
    ghost var before := store.borrows;
    var i := 0;
    modifiedCount := 0;
    while i < |store.borrows|
      invariant 0 <= i <= |store.borrows| == |before|
      invariant store.books == old(store.books) && store.readers == old(store.readers) && store.staff == old(store.staff)
      invariant forall k :: 0 <= k < i ==> store.borrows[k] == SweepOne(before[k], now)
      invariant forall k :: i <= k < |before| ==> store.borrows[k] == before[k]
      invariant modifiedCount == ExpiredCount(before[..i], now)
      invariant store.Valid()
    {
      var b := store.borrows[i];
      ExpiredCountAppend(before[..i], [before[i]], now);
      assert before[..i + 1] == before[..i] + [before[i]];
      if Expired(b, now) {
        RejectKeepsReachable(b, now);
        store.borrows := store.borrows[i := Reject(b, now)];
        modifiedCount := modifiedCount + 1;
      }
      i := i + 1;
    }
    assert before[..i] == before;
    var after := Swept(before, now);
    assert store.borrows == after;
    forall id | id in store.books
      ensures Committed(after, id) <= Committed(before, id)
    {
      SweepNeverRaisesCommitted(before, now, id);
    }
  }
}
