/**
 * The borrow record: who borrows which book, how many copies, its status and
 * the dates and staff ids the lifecycle fills in. Times are milliseconds.
 */
module BorrowModel {
  import opened Wrappers
  import opened BorrowStatus
  import BookModel

  datatype Borrow = Borrow(
    readerId: string,
    bookId: string,
    approvedStaffId: Option<string>,
    returnedStaffId: Option<string>,
    quantity: int,
    status: Status,
    borrowDate: Option<int>,
    dueDate: Option<int>,
    returnDate: Option<int>,
    note: Option<string>,
    createdAt: int,
    updatedAt: int)

  /**
   * A new record built from the given fields: status defaults to pending and
   * the staff ids, dates and note to null; both timestamps are the save time.
   */
  function NewBorrow(readerId: string, bookId: string, quantity: int, note: Option<string>, now: int): (b: Borrow)
    ensures b.status == Pending
    ensures b.readerId == readerId && b.bookId == bookId && b.quantity == quantity && b.note == note
    ensures b.approvedStaffId == None && b.returnedStaffId == None
    ensures b.borrowDate == None && b.dueDate == None && b.returnDate == None
    ensures b.createdAt == now && b.updatedAt == now
  {
    Borrow(readerId, bookId, None, None, quantity, Pending, None, None, None, note, now, now)
  }

  /** The schema validators run on save: both ids required (non-empty) and `quantity >= 1`. */
  predicate SchemaValid(b: Borrow) {
    b.readerId != "" && b.bookId != "" && b.quantity >= 1
  }

  /** `getInfo`: the record without its four id keys, with the documents they name. */
  datatype BorrowInfo = BorrowInfo(
    quantity: int,
    status: Status,
    borrowDate: Option<int>,
    dueDate: Option<int>,
    returnDate: Option<int>,
    note: Option<string>,
    createdAt: int,
    updatedAt: int,
    reader: Option<string>,            // the reader's user id, null if not found
    book: BookModel.BookFullInfo,
    approvedStaff: Option<string>,     // the staff member's user id, null if none
    returnedStaff: Option<string>)

  /** A staff lookup done only when the id is truthy; `findOne` gives null for an unknown id. */
  function StaffLookup(id: Option<string>, staff: map<string, string>): (r: Option<string>)
    ensures r.Some? <==> Truthy(id) && id.value in staff
    ensures r.Some? ==> r.value == staff[id.value]
  {
    if Truthy(id) && id.value in staff then Some(staff[id.value]) else None
  }

  /**
   * `getInfo`. `readers` maps reader ids to user ids, `books` holds the book
   * documents by book id, `staff` maps staff ids to user ids. A missing book
   * (or a failing `getFullInfo`) makes the projection throw.
   */
  function GetInfo(b: Borrow, readers: map<string, string>, books: map<string, BookModel.Book>,
                   authorNames: map<string, string>, categoryNames: map<string, string>,
                   publisherNames: map<string, string>, staff: map<string, string>): (r: Result<BorrowInfo, string>)
    ensures r.Ok? <==> b.bookId in books && books[b.bookId].publisher in publisherNames
    ensures r.Ok? ==> r.value.book.bookId == books[b.bookId].bookId && r.value.book.quantity == books[b.bookId].quantity
    ensures r.Ok? ==> r.value.quantity == b.quantity && r.value.status == b.status && r.value.note == b.note
    ensures r.Ok? ==> (r.value.approvedStaff == None <==> !Truthy(b.approvedStaffId) || b.approvedStaffId.value !in staff)
    ensures r.Ok? ==> (r.value.returnedStaff == None <==> !Truthy(b.returnedStaffId) || b.returnedStaffId.value !in staff)
    ensures r.Ok? ==> (r.value.reader == None <==> b.readerId !in readers)
    ensures r.Ok? && b.readerId in readers ==> r.value.reader == Some(readers[b.readerId])
    ensures r.Ok? ==> r.value.approvedStaff == StaffLookup(b.approvedStaffId, staff)
    ensures r.Ok? ==> r.value.returnedStaff == StaffLookup(b.returnedStaffId, staff)
    ensures r.Ok? ==> r.value.book == BookModel.GetFullInfo(books[b.bookId], authorNames, categoryNames, publisherNames).value
    ensures r.Ok? ==> r.value.borrowDate == b.borrowDate && r.value.dueDate == b.dueDate && r.value.returnDate == b.returnDate
    ensures r.Ok? ==> r.value.createdAt == b.createdAt && r.value.updatedAt == b.updatedAt
  {
    if b.bookId !in books then Err("book not found")
    else
      match BookModel.GetFullInfo(books[b.bookId], authorNames, categoryNames, publisherNames)
      case Err(e) => Err(e)
      case Ok(info) =>
        Ok(BorrowInfo(b.quantity, b.status, b.borrowDate, b.dueDate, b.returnDate, b.note,
                      b.createdAt, b.updatedAt,
                      if b.readerId in readers then Some(readers[b.readerId]) else None,
                      info,
                      StaffLookup(b.approvedStaffId, staff),
                      StaffLookup(b.returnedStaffId, staff)))
  }

  /**
   * The other collections `getInfo` reads: reader ids and staff ids to user
   * ids, and the names of authors, categories and publishers by document id.
   */
  datatype Directory = Directory(
    readerUsers: map<string, string>,
    staffUsers: map<string, string>,
    authorNames: map<string, string>,
    categoryNames: map<string, string>,
    publisherNames: map<string, string>)

  /** `getInfo` run against the book table and the directory. */
  function Project(b: Borrow, books: map<string, BookModel.Book>, dir: Directory): (r: Result<BorrowInfo, string>)
    ensures r.Ok? <==> b.bookId in books && books[b.bookId].publisher in dir.publisherNames
    ensures r.Ok? ==> r.value.quantity == b.quantity && r.value.status == b.status && r.value.note == b.note
    ensures r.Ok? ==> r.value.returnDate == b.returnDate && r.value.updatedAt == b.updatedAt
    ensures r.Ok? ==> r.value.approvedStaff == StaffLookup(b.approvedStaffId, dir.staffUsers)
    ensures r.Ok? ==> r.value.returnedStaff == StaffLookup(b.returnedStaffId, dir.staffUsers)
  {
    GetInfo(b, dir.readerUsers, books, dir.authorNames, dir.categoryNames, dir.publisherNames, dir.staffUsers)
  }

  /** With no staff ids recorded (a pending record) both staff entries of the projection are null. */
  lemma PendingProjectionHasNoStaff(b: Borrow, readers: map<string, string>, books: map<string, BookModel.Book>,
                                    authorNames: map<string, string>, categoryNames: map<string, string>,
                                    publisherNames: map<string, string>, staff: map<string, string>)
    requires b.approvedStaffId == None && b.returnedStaffId == None
    requires b.bookId in books && books[b.bookId].publisher in publisherNames
    ensures GetInfo(b, readers, books, authorNames, categoryNames, publisherNames, staff).Ok?
    ensures GetInfo(b, readers, books, authorNames, categoryNames, publisherNames, staff).value.approvedStaff == None
    ensures GetInfo(b, readers, books, authorNames, categoryNames, publisherNames, staff).value.returnedStaff == None
  {
  }
}
