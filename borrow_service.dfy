/**
 * The borrow lifecycle service: a store of borrow records beside the book,
 * reader and staff tables it reads, and the four guarded operations that
 * append a pending record or move one record along the lifecycle.
 * Operations run one at a time; `now` is the wall-clock time of the call.
 */
module BorrowService {
  import opened Wrappers
  import opened BorrowStatus
  import opened BorrowModel
  import opened Ledger
  import BookModel

  /** The errors the four operations raise, in the service's own wording. */
  datatype BorrowError =
    | ReaderNotFound     // 404 "Reader not found"
    | BookNotFound       // 404 "Book not found"
    | BookInactive       // 400 "This book is not available for borrowing"
    | NotEnoughBooks     // 400 "Not enough available books for this borrow"
    | InvalidQuantity    // schema validation on save: quantity below 1
    | BorrowNotFound     // 404 "Borrow not found"
    | NotOwner           // 403 "You are not authorized to cancel this borrow"
    | NotStaff           // 403 "You are not authorized to approve/confirm ..."
    | CannotCancel       // 400 "This borrow cannot be cancelled"
    | CannotApprove      // 400 "This borrow cannot be approved"
    | CannotConfirm      // 400 "This borrow cannot be confirmed as returned"
    | ProjectionFailed   // `getInfo` after the save threw: the record's book or its publisher is gone

  /** The status code carried by the error; schema validation raises no `ApiError`. */
  function ApiStatus(e: BorrowError): (r: Option<int>)
    ensures r.None? <==> e == InvalidQuantity || e == ProjectionFailed
    ensures r.Some? ==> r.value in {400, 403, 404}
  {
    match e
    case ReaderNotFound => Some(404)
    case BookNotFound => Some(404)
    case BorrowNotFound => Some(404)
    case NotOwner => Some(403)
    case NotStaff => Some(403)
    case InvalidQuantity => None
    case ProjectionFailed => None
    case _ => Some(400)
  }

  /** Fourteen days in milliseconds: the loan period set on approval. */
  const LoanPeriod: int := 14 * 24 * 60 * 60 * 1000

  /** The status changes the lifecycle and the expiry sweep can make. */
  predicate Edge(s: Status, t: Status) {
    (s == Pending && t == Cancelled) || (s == Pending && t == Approved) ||
    (s == Approved && t == Returned) || (s == Pending && t == Rejected)
  }

  /** One record before and after an operation: untouched, or moved along an edge. */
  predicate LegalStep(a: Borrow, b: Borrow) {
    a == b || Edge(a.status, b.status)
  }

  lemma TerminalRecordsNeverChange(a: Borrow, b: Borrow)
    requires LegalStep(a, b) && IsTerminal(a.status)
    ensures a == b
  {
  }

  /** What the lifecycle leaves in a record, status by status. No operation sets `borrowDate` or `dueDate`. */
  predicate Reachable(b: Borrow) {
    && SchemaValid(b)
    && b.borrowDate == None && b.dueDate == None
    && (b.status == Approved ==> b.approvedStaffId.Some? && b.returnDate.Some? && b.returnedStaffId == None)
    && (b.status == Returned ==> b.approvedStaffId.Some? && b.returnDate.Some? && b.returnedStaffId.Some?)
    && (b.status in {Pending, Cancelled, Rejected} ==>
          b.approvedStaffId == None && b.returnedStaffId == None && b.returnDate == None)
  }

  /** `borrowData.note || ""`. */
  function NoteOrEmpty(note: Option<string>): (r: string)
    ensures Truthy(note) ==> r == note.value
    ensures !Truthy(note) ==> r == ""
  {
    if Truthy(note) then note.value else ""
  }

  /** The response after a save: the projection, or the error its failure raises. */
  function Respond(p: Result<BorrowInfo, string>): (r: Result<BorrowInfo, BorrowError>)
    ensures r.Ok? <==> p.Ok?
    ensures r.Ok? ==> r.value == p.value
    ensures r.Err? ==> r.error == ProjectionFailed
  {
    match p
    case Ok(info) => Ok(info)
    case Err(_) => Err(ProjectionFailed)
  }

  /** The operation reached its save: it succeeded, or only the projection after the save failed. */
  predicate Saved(r: Result<BorrowInfo, BorrowError>) {
    r.Ok? || r == Err(ProjectionFailed)
  }

  class BorrowStore {
    var borrows: seq<Borrow>               // the borrow collection; a record's id is its index
    var books: map<string, BookModel.Book>   // books by `bookId`
    var readers: map<string, string>         // user id to `readerId`
    var staff: map<string, string>           // user id to `staffId`

    ghost predicate Valid()
      reads this
    {
      && (forall k :: 0 <= k < |borrows| ==> Reachable(borrows[k]))
      && (forall id :: id in books ==> id != "" && books[id].bookId == id)
      && (forall u :: u in readers ==> readers[u] != "")
    }

    constructor (books: map<string, BookModel.Book>, readers: map<string, string>, staff: map<string, string>)
      requires forall id :: id in books ==> id != "" && books[id].bookId == id
      requires forall u :: u in readers ==> readers[u] != ""
      ensures Valid()
      ensures this.borrows == [] && this.books == books && this.readers == readers && this.staff == staff
    {
      this.borrows := [];
      this.books := books;
      this.readers := readers;
      this.staff := staff;
    }

    /** `getAvailableBookQuantity` for a book of the table. */
    function Available(bookId: string): (r: int)
      reads this
      requires bookId in books
      ensures r >= 0
      ensures r <= books[bookId].quantity - Committed(borrows, bookId) || r == 0
      ensures r >= books[bookId].quantity - Committed(borrows, bookId)
      ensures r == 0 || r == books[bookId].quantity - Committed(borrows, bookId)
    {
      AvailableQuantity(borrows, bookId, books[bookId].quantity)
    }

    /**
     * `createBorrow`: checks reader, book, active flag and availability in
     * that order, then saves a new pending record (whose validation rejects a
     * quantity below 1), and answers with the saved record's `getInfo`,
     * which throws after the save when the book's publisher is gone. Once
     * saved, the book's committed total stays within its stock, whatever the
     * state before.
     */
    method CreateBorrow(userId: string, bookId: string, quantity: int, note: Option<string>, now: int, dir: Directory)
      returns (r: Result<BorrowInfo, BorrowError>)
      requires Valid()
      modifies this
      ensures Valid()
      ensures books == old(books) && readers == old(readers) && staff == old(staff)
      ensures userId !in readers ==> r == Err(ReaderNotFound)
      ensures userId in readers && bookId !in books ==> r == Err(BookNotFound)
      ensures userId in readers && bookId in books && !books[bookId].isActive ==> r == Err(BookInactive)
      ensures (userId in readers && bookId in books && books[bookId].isActive
               && AvailableQuantity(old(borrows), bookId, books[bookId].quantity) < quantity) ==> r == Err(NotEnoughBooks)
      ensures (userId in readers && bookId in books && books[bookId].isActive
               && AvailableQuantity(old(borrows), bookId, books[bookId].quantity) >= quantity
               && quantity < 1) ==> r == Err(InvalidQuantity)
      ensures !Saved(r) ==> borrows == old(borrows)
      ensures Saved(r) ==> userId in readers && bookId in books && books[bookId].isActive && quantity >= 1
      ensures (userId in readers && bookId in books && books[bookId].isActive
               && AvailableQuantity(old(borrows), bookId, books[bookId].quantity) >= quantity
               && quantity >= 1) ==> Saved(r)
      ensures Saved(r) ==> borrows == old(borrows) + [NewBorrow(readers[userId], bookId, quantity, Some(NoteOrEmpty(note)), now)]
      ensures Saved(r) ==> r == Respond(Project(borrows[|borrows| - 1], books, dir))
      ensures Saved(r) ==> (r.Ok? <==> books[bookId].publisher in dir.publisherNames)
      ensures r.Ok? ==> r.value.status == Pending && r.value.quantity == quantity
      ensures Saved(r) ==> Committed(borrows, bookId) <= books[bookId].quantity
      ensures Saved(r) ==> forall id :: id != bookId ==> Committed(borrows, id) == Committed(old(borrows), id)
      ensures LedgerHolds(old(borrows), books) ==> LedgerHolds(borrows, books)
    {
      if userId !in readers {
        return Err(ReaderNotFound);
      }
      var readerId := readers[userId];
      if bookId !in books {
        return Err(BookNotFound);
      }
      var book := books[bookId];
      if !book.isActive {
        return Err(BookInactive);
      }
      var available := AvailableQuantity(borrows, bookId, book.quantity);
      if available < quantity {
        return Err(NotEnoughBooks);
      }
      var record := NewBorrow(readerId, bookId, quantity, Some(NoteOrEmpty(note)), now);
      if !SchemaValid(record) {
        assert readerId != "" && bookId != "";
        return Err(InvalidQuantity);
      }
      AdmissionKeepsLedger(borrows, record, books);
      assert Reachable(record);
      borrows := borrows + [record];
      r := Respond(Project(record, books, dir));
      assert Saved(r) && borrows[|borrows| - 1] == record;
    }

    /**
     * `cancelBorrow`: the borrow must exist, the caller must be a reader and
     * its owner, and the record must be pending; then only the status (and
     * the save time) changes, to cancelled, releasing its copies.
     */
    method CancelBorrow(userId: string, borrowId: int, now: int) returns (r: Result<Borrow, BorrowError>)
      requires Valid()
      modifies this
      ensures Valid()
      ensures books == old(books) && readers == old(readers) && staff == old(staff)
      ensures !(0 <= borrowId < |old(borrows)|) ==> r == Err(BorrowNotFound)
      ensures 0 <= borrowId < |old(borrows)| && userId !in readers ==> r == Err(ReaderNotFound)
      ensures (0 <= borrowId < |old(borrows)| && userId in readers
               && old(borrows)[borrowId].readerId != readers[userId]) ==> r == Err(NotOwner)
      ensures (0 <= borrowId < |old(borrows)| && userId in readers
               && old(borrows)[borrowId].readerId == readers[userId]
               && old(borrows)[borrowId].status != Pending) ==> r == Err(CannotCancel)
      ensures r.Err? ==> borrows == old(borrows)
      ensures r.Ok? ==> 0 <= borrowId < |old(borrows)| && old(borrows)[borrowId].status == Pending
      ensures (0 <= borrowId < |old(borrows)| && userId in readers
               && old(borrows)[borrowId].readerId == readers[userId]
               && old(borrows)[borrowId].status == Pending) ==> r.Ok?
      ensures r.Ok? ==> r.value == old(borrows)[borrowId].(status := Cancelled, updatedAt := now)
      ensures r.Ok? ==> borrows == old(borrows)[borrowId := r.value]
      ensures r.Ok? ==> forall id :: Committed(borrows, id)
                                   == Committed(old(borrows), id) - Contribution(old(borrows)[borrowId], id)
      ensures |borrows| == |old(borrows)| && forall k :: 0 <= k < |borrows| ==> LegalStep(old(borrows)[k], borrows[k])
      ensures LedgerHolds(old(borrows), books) ==> LedgerHolds(borrows, books)
    {
      if !(0 <= borrowId < |borrows|) {
        return Err(BorrowNotFound);
      }
      var borrow := borrows[borrowId];
      if userId !in readers {
        return Err(ReaderNotFound);
      }
      if borrow.readerId != readers[userId] {
        return Err(NotOwner);
      }
      if borrow.status != Pending {
        return Err(CannotCancel);
      }
      var updated := borrow.(status := Cancelled, updatedAt := now);
      forall id | true
        ensures Committed(borrows[borrowId := updated], id) == Committed(borrows, id) - Contribution(borrow, id)
      {
        CommittedUpdate(borrows, borrowId, updated, id);
      }
      borrows := borrows[borrowId := updated];
      r := Ok(updated);
    }

    /**
     * `approveBorrow`: the borrow must exist, the caller must be staff and the
     * record pending; the record becomes approved with a return date fourteen
     * days after `now` and the approving staff id, and the answer is its
     * `getInfo`, which can still throw after the save. Its copies stay
     * committed.
     */
    method ApproveBorrow(userId: string, borrowId: int, now: int, dir: Directory) returns (r: Result<BorrowInfo, BorrowError>)
      requires Valid()
      modifies this
      ensures Valid()
      ensures books == old(books) && readers == old(readers) && staff == old(staff)
      ensures !(0 <= borrowId < |old(borrows)|) ==> r == Err(BorrowNotFound)
      ensures 0 <= borrowId < |old(borrows)| && userId !in staff ==> r == Err(NotStaff)
      ensures (0 <= borrowId < |old(borrows)| && userId in staff
               && old(borrows)[borrowId].status != Pending) ==> r == Err(CannotApprove)
      ensures !Saved(r) ==> borrows == old(borrows)
      ensures Saved(r) ==> 0 <= borrowId < |old(borrows)| && userId in staff && old(borrows)[borrowId].status == Pending
      ensures 0 <= borrowId < |old(borrows)| && userId in staff && old(borrows)[borrowId].status == Pending ==> Saved(r)
      ensures Saved(r) ==> borrows == old(borrows)[borrowId := old(borrows)[borrowId].(
                             status := Approved, returnDate := Some(now + LoanPeriod),
                             approvedStaffId := Some(staff[userId]), updatedAt := now)]
      ensures Saved(r) ==> r == Respond(Project(borrows[borrowId], books, dir))
      ensures Saved(r) ==> (r.Ok? <==> old(borrows)[borrowId].bookId in books &&
                                       books[old(borrows)[borrowId].bookId].publisher in dir.publisherNames)
      ensures r.Ok? ==> r.value.status == Approved && r.value.returnDate == Some(now + LoanPeriod)
      ensures r.Ok? ==> r.value.approvedStaff == StaffLookup(Some(staff[userId]), dir.staffUsers)
      ensures forall id :: Committed(borrows, id) == Committed(old(borrows), id)
      ensures |borrows| == |old(borrows)| && forall k :: 0 <= k < |borrows| ==> LegalStep(old(borrows)[k], borrows[k])
    {
      if !(0 <= borrowId < |borrows|) {
        return Err(BorrowNotFound);
      }
      var borrow := borrows[borrowId];
      if userId !in staff {
        return Err(NotStaff);
      }
      if borrow.status != Pending {
        return Err(CannotApprove);
      }
      var updated := borrow.(status := Approved, returnDate := Some(now + LoanPeriod),
                             approvedStaffId := Some(staff[userId]), updatedAt := now);
      forall id | true
        ensures Committed(borrows[borrowId := updated], id) == Committed(borrows, id)
      {
        CommittedUpdate(borrows, borrowId, updated, id);
      }
      borrows := borrows[borrowId := updated];
      r := Respond(Project(updated, books, dir));
    }

    /**
     * `confirmBorrowReturn`: the borrow must exist, the caller must be staff
     * and the record approved; the record becomes returned with the
     * confirming staff id and no date changes (only the save time moves), its
     * copies are released, and the answer is its `getInfo`, which can still
     * throw after the save.
     */
    method ConfirmBorrowReturn(userId: string, borrowId: int, now: int, dir: Directory)
      returns (r: Result<BorrowInfo, BorrowError>)
      requires Valid()
      modifies this
      ensures Valid()
      ensures books == old(books) && readers == old(readers) && staff == old(staff)
      ensures !(0 <= borrowId < |old(borrows)|) ==> r == Err(BorrowNotFound)
      ensures 0 <= borrowId < |old(borrows)| && userId !in staff ==> r == Err(NotStaff)
      ensures (0 <= borrowId < |old(borrows)| && userId in staff
               && old(borrows)[borrowId].status != Approved) ==> r == Err(CannotConfirm)
      ensures !Saved(r) ==> borrows == old(borrows)
      ensures Saved(r) ==> 0 <= borrowId < |old(borrows)| && userId in staff && old(borrows)[borrowId].status == Approved
      ensures 0 <= borrowId < |old(borrows)| && userId in staff && old(borrows)[borrowId].status == Approved ==> Saved(r)
      ensures Saved(r) ==> borrows == old(borrows)[borrowId := old(borrows)[borrowId].(
                             status := Returned, returnedStaffId := Some(staff[userId]), updatedAt := now)]
      ensures Saved(r) ==> r == Respond(Project(borrows[borrowId], books, dir))
      ensures Saved(r) ==> (r.Ok? <==> old(borrows)[borrowId].bookId in books &&
                                       books[old(borrows)[borrowId].bookId].publisher in dir.publisherNames)
      ensures r.Ok? ==> r.value.status == Returned && r.value.returnDate == old(borrows)[borrowId].returnDate
      ensures Saved(r) ==> forall id :: Committed(borrows, id)
                                       == Committed(old(borrows), id) - Contribution(old(borrows)[borrowId], id)
      ensures |borrows| == |old(borrows)| && forall k :: 0 <= k < |borrows| ==> LegalStep(old(borrows)[k], borrows[k])
      ensures LedgerHolds(old(borrows), books) ==> LedgerHolds(borrows, books)
    {
      if !(0 <= borrowId < |borrows|) {
        return Err(BorrowNotFound);
      }
      var borrow := borrows[borrowId];
      if userId !in staff {
        return Err(NotStaff);
      }
      if borrow.status != Approved {
        return Err(CannotConfirm);
      }
      var updated := borrow.(status := Returned, returnedStaffId := Some(staff[userId]), updatedAt := now);
      forall id | true
        ensures Committed(borrows[borrowId := updated], id) == Committed(borrows, id) - Contribution(borrow, id)
      {
        CommittedUpdate(borrows, borrowId, updated, id);
      }
      borrows := borrows[borrowId := updated];
      r := Respond(Project(updated, books, dir));
    }
  }
}
