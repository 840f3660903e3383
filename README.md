# CodeX lending backend — a Dafny model

This project models the core of the CodeX library backend. The backend is an
Express/Mongoose service in which readers request books and staff approve
the requests and confirm the returns. The model covers:

- the borrow lifecycle (`createBorrow`, `cancelBorrow`, `approveBorrow`,
  `confirmBorrowReturn`). It is a class `BorrowService.BorrowStore` whose
  collection of borrow records the four methods update in place. Every
  method keeps the stock ledger: no book has more copies pending or
  approved than its stock.
- the availability rule `getAvailableBookQuantity` (`Ledger`), and the
  different, unclamped "available quantity" the book pages show
  (`BookService`).
- the job that automatically rejects pending requests older than 48 hours
  (`AutoReject.Sweep`, a loop over the records).
- the id generators for books (`S001`…), staff (`NV001`…) and readers
  (`DG001`…): JavaScript's `parseInt`, `replace` and `padStart` are written
  out in `IdFormat`.
- the statistics service: the time window, the borrow summary, book
  totals, the per-book and per-reader rankings, the per-category counts and
  the top borrowers (`Statistics`).
- the user helpers: the password-strength check and the two converters to
  and from the identity provider (`UserUtil`).
- the role middleware (`Authorize`).

Timestamps are integers in milliseconds. The current time is a parameter
wherever the source reads the clock. A borrow record's database id is its
index in the store's sequence. Database lookups become maps or sequences
passed in.

## Model

| member | source | states |
|---|---|---|
| BorrowStatus.Member | backend/app/enums/borrowStatus.enum.js:6-12 | a key lookup returns only the status of that key; an unknown key is undefined |
| BorrowStatus.FromValue | backend/app/models/borrow.model.js:30-34 | a stored string parses only to the status whose value it is; the schema enum refuses anything else |
| BorrowStatus.DocumentedActor | backend/app/enums/borrowStatus.enum.js:9-11 | staff moves a record to rejected and the reader moves it to cancelled, and no other status names an actor |
| BorrowStatus.ValuesDistinct | backend/app/enums/borrowStatus.enum.js:7-11 | two statuses share a stored value exactly when they are the same status |
| BorrowStatus.ValueRoundTrip | backend/app/enums/borrowStatus.enum.js:7-11 | parsing a status's stored value gives that status back |
| BorrowStatus.ExactlyFiveMembers | backend/app/enums/borrowStatus.enum.js:6-12 | the enumeration has exactly five members, each reachable by its key, and no `BORROWED` key |
| BorrowStatus.CommittedAndTerminalPartition | backend/app/services/borrow.service.js:19-22 | every status either reserves stock (pending, approved) or is terminal, never both |
| BorrowModel.NewBorrow | backend/app/models/borrow.model.js:23-44 | a new record is pending, carries the given reader, book, quantity and note, has no staff ids and no dates, and both timestamps are `now` |
| BorrowModel.StaffLookup | backend/app/models/borrow.model.js:52-66 | a staff entry is found exactly when the id is truthy and names a known staff member, and it is that member's document |
| BorrowModel.GetInfo | backend/app/models/borrow.model.js:46-78 | the projection succeeds exactly when the book and its publisher exist; it keeps the record's quantity, status, note, three dates and both timestamps, carries the user id the reader entry refers to, or null, each staff lookup, and the book's `getFullInfo` view |
| BorrowModel.PendingProjectionHasNoStaff | backend/app/models/borrow.model.js:52-62 | a record without staff ids projects with both staff entries null |
| BorrowModel.Project | backend/app/models/borrow.model.js:46-78 | the projection against the book table and the other collections succeeds exactly when the record's book and its publisher exist, and keeps status, quantity, note, return date and `updatedAt` |
| BookModel.NewBook | backend/app/models/book.model.js:31 | a new book is active, with the given id and quantity |
| BookModel.Names | backend/app/models/book.model.js:44-46 | mapping references to names yields one known name per resolvable reference, keeps every resolvable reference's name, and, when every reference is known, the names element by element |
| BookModel.GetFullInfo | backend/app/models/book.model.js:40-49 | the full view exists exactly when the publisher resolves; it keeps id, quantity and active flag and replaces references by names |
| Ledger.AvailableQuantity | backend/app/services/borrow.service.js:15-39 | availability is never negative and is either 0 or the stock minus the copies of pending and approved records |
| Ledger.Committed | backend/app/services/borrow.service.js:17-32 | the aggregated sum is 0 when no pending or approved record names the book, and with non-negative quantities it is non-negative and at least each record's share |
| Ledger.CommittedAppend | backend/app/services/borrow.service.js:17-30 | the committed total of two collections is the sum of their totals |
| Ledger.CommittedUpdate | backend/app/services/borrow.service.js:17-30 | replacing one record changes the committed total by the difference of the two records' contributions |
| Ledger.CommittedIgnoresOthers | backend/app/services/borrow.service.js:19-22 | collections that agree record by record on what they contribute to a book commit the same total for it |
| Ledger.AvailabilityIgnoresRecord | backend/app/services/borrow.service.js:19-22 | a record of another book, or one that is neither pending nor approved, does not change a book's availability |
| Ledger.CommittedNonNegative | backend/app/models/borrow.model.js:29 | with the schema's `min: 1` on quantity, the committed total is never negative |
| Ledger.AdmissionIsExact | backend/app/services/borrow.service.js:68-71 | the availability guard admits a quantity exactly when the committed total plus it fits in the stock |
| Ledger.AdmissionKeepsStock | backend/app/services/borrow.service.js:68-84 | appending an admitted pending record keeps the book's committed copies within its stock |
| BorrowService.ApiStatus | backend/app/services/borrow.service.js:51-71 | every service error carries 400, 403 or 404, except the schema's quantity validation and a failing projection after the save, which carry none |
| BorrowService.TerminalRecordsNeverChange | backend/app/services/borrow.service.js:119-122 | no operation changes a rejected, returned or cancelled record |
| BorrowService.NoteOrEmpty | backend/app/services/borrow.service.js:81 | a truthy note is kept and any other becomes the empty string |
| BorrowService.Respond | backend/app/services/borrow.service.js:84-87 | the answer after a save is the projection when it succeeds and the post-save failure otherwise |
| BorrowService.BorrowStore.Available | backend/app/services/borrow.service.js:15-39 | the availability of a stocked book is its stock minus its committed copies, or 0 when that difference is negative |
| BorrowService.BorrowStore.CreateBorrow | backend/app/services/borrow.service.js:48-92 | unknown reader, unknown book, inactive book, too few copies and a quantity below 1 fail in that order and change nothing; a request passing every guard is saved: the new pending record is appended, the ledger still holds, and the answer is its projection, which fails, with the record kept, exactly when the book's publisher is gone |
| BorrowService.BorrowStore.CancelBorrow | backend/app/services/borrow.service.js:101-136 | unknown record, unknown reader, another reader's record and a non-pending record fail in that order and change nothing; the owner's pending record is always cancelled, only that record changes, and its copies are released |
| BorrowService.BorrowStore.ApproveBorrow | backend/app/services/borrow.service.js:144-175 | unknown record, non-staff user and a non-pending record fail in that order and change nothing; staff approving a pending record always saves it: only that record is approved, with the return date fourteen days ahead and the staff id, committed totals are unchanged, and the answer is its projection, which can fail after the save |
| BorrowService.BorrowStore.ConfirmBorrowReturn | backend/app/services/borrow.service.js:183-213 | unknown record, non-staff user and a non-approved record fail in that order and change nothing; staff confirming an approved record always saves it: only that record becomes returned with the staff id, its dates untouched and only `updatedAt` moved, its copies are released, and the answer is its projection, which can fail after the save |
| AutoReject.Swept | backend/app/jobs/autoRejectBorrow.js:12-23 | exactly the records pending since 48 hours or more change, to rejected with the fixed note and `updatedAt` now; all others stay as they were |
| AutoReject.ExpiredCountAppend | backend/app/jobs/autoRejectBorrow.js:12-16 | the number of matched records of two collections is the sum of the two counts |
| AutoReject.ExpiredCountIsChangedCount | backend/app/jobs/autoRejectBorrow.js:25 | the reported modified count is the number of records the update actually changes |
| AutoReject.SweepIdempotent | backend/app/jobs/autoRejectBorrow.js:12-23 | a second run at the same time matches and changes nothing |
| AutoReject.SweepReleases | backend/app/jobs/autoRejectBorrow.js:12-23 | each book's committed copies drop by exactly the copies of the records rejected |
| AutoReject.SweepNeverRaisesCommitted | backend/app/jobs/autoRejectBorrow.js:12-23 | with quantities of at least 1 the sweep never raises a book's committed copies |
| AutoReject.Sweep | backend/app/jobs/autoRejectBorrow.js:6-28 | the loop leaves the collection as the update defines it, returns the matched count, and keeps the stock ledger |
| IdFormat.DigitChar | backend/app/services/book.service.js:26 | the digit character printed for a value below ten reads back as that value |
| IdFormat.NatToString | backend/app/services/book.service.js:26 | `String(n)` is a non-empty run of digits |
| IdFormat.PadStart | backend/app/services/book.service.js:26 | `padStart` yields at least the width, ends with the input, and fills the front with the pad character |
| IdFormat.ReplaceFirst | backend/app/services/book.service.js:24 | `replace` with a string pattern leaves the string unchanged when the pattern does not occur, and otherwise removes exactly its first occurrence |
| IdFormat.SkipSpace | backend/app/services/book.service.js:24 | `parseInt` skips exactly the leading white space: the rest is a suffix that starts with no space, and everything skipped is space |
| IdFormat.LeadingDigits | backend/app/services/book.service.js:24 | `parseInt` reads the longest prefix of digits: it is all digits, and the next character, if any, is not a digit |
| IdFormat.ParseInt | backend/app/services/book.service.js:24 | `parseInt(s, 10)` is NaN for the empty string and for a string starting with anything but space, sign or digit, and the decimal value for a run of digits |
| IdFormat.ParseIntOfIntToString | backend/app/services/book.service.js:24-26 | `parseInt` reads back exactly the integer `String` printed, negative or not |
| IdFormat.NextFromLast | backend/app/services/book.service.js:21-26 | no last id gives the first id; otherwise the result is the prefix followed by at least three characters |
| IdFormat.NaNStaysNaN | backend/app/services/book.service.js:24-26 | the next id is the prefix followed by `NaN` exactly when the last id's remainder does not parse |
| IdFormat.GreatestId | backend/app/services/book.service.js:21 | the descending sort's first id is one of the ids and no id is greater in string order; there is none only for an empty collection |
| IdFormat.LexLessTotal | backend/app/services/book.service.js:21 | any two distinct ids are ordered one way or the other |
| IdFormat.LexLessTransitive | backend/app/services/book.service.js:21 | string order is transitive |
| IdFormat.MaxIdNumber | backend/app/services/book.service.js:21-26 | the corrected generator's maximum bounds the number of every well-formed id and is the number of one of them, or 0 when there is none |
| IdFormat.DigitsValueOfNatToString | backend/app/services/book.service.js:24-26 | parsing the printed form of a number gives the number back |
| IdFormat.PaddedNumberValue | backend/app/services/book.service.js:26 | padding a printed number with zeros keeps its value |
| IdFormat.NextFromLastIncrements | backend/app/services/book.service.js:24-26 | from a well-formed last id the generator yields a well-formed id whose number is one more |
| IdFormat.FirstIdWellFormed | backend/app/services/book.service.js:22 | the first id of an empty collection is well-formed with number 1 |
| IdFormat.NextFreshIsFresh | backend/app/services/book.service.js:18-31 | the corrected generator yields a well-formed id one past the largest number and never an existing id |
| IdFormat.NextFreshOfEmpty | backend/app/services/book.service.js:22 | on an empty collection the corrected generator starts with the original's first id |
| BookService.NextBookId | backend/app/services/book.service.js:18-31 | the corrected book id is well-formed and not in use |
| BookService.NextBookIdFromLast | backend/app/services/book.service.js:18-31 | without a last book the id is `S001`; otherwise it starts with `S` followed by at least three characters |
| BookService.NextBookIdAsWritten | backend/app/services/book.service.js:18-31 | an empty collection gives `S001`; when the greatest id in string order is well-formed the result is well-formed with number one more |
| BookService.NextBookIdOfNone | backend/app/services/book.service.js:22 | the first book id is `S001` |
| BookService.NextBookIdIncrements | backend/app/services/book.service.js:24-26 | after a well-formed book id the next one is well-formed with number one more |
| BookService.S999SortsLast | backend/app/services/book.service.js:21 | in string order the descending sort picks `S999` over `S1000` |
| BookService.NextAfterS999 | backend/app/services/book.service.js:24-26 | the id generated from `S999` is `S1000` |
| BookService.DuplicateBookIdAfterS999 | backend/app/services/book.service.js:21-26 | with `S999` and `S1000` stored, the generator as written proposes `S1000`, an id already in use |
| BookService.GetBookStats | backend/app/services/book.service.js:34-52 | the pending count is the number of the book's pending records and the approved count the number of its approved records |
| BookService.AvailableView | backend/app/services/book.service.js:137-141 | the reported availability plus both counts is the stock; it equals the stock exactly when both counts are 0 |
| BookService.StatsCountRecords | backend/app/services/book.service.js:38-45 | the statistics count records, not copies: at most the committed copies, and equal to them when every reservation is of one copy |
| BookService.ViewAtLeastLedger | backend/app/services/book.service.js:137-141 | the book page never shows fewer copies than the borrow guard would grant |
| BookService.ViewDiffersFromLedger | backend/app/services/book.service.js:188-192 | a pending request for 3 of 5 copies shows 4 available on the page while the guard grants 2 |
| BookService.ViewCanBeNegative | backend/app/services/book.service.js:190-191 | with the stock below the reservations the page shows a negative availability while the guard reports 0 |
| BookService.FindActiveBook | backend/app/services/book.service.js:175-182 | a missing book fails first, then an inactive one; an active book is always returned as stored |
| BookService.ViewOf | backend/app/services/book.service.js:132-141 | one book's entry exists exactly when its publisher resolves; it is `getFullInfo`'s view with the given counts, and availability plus counts is the stock |
| BookService.GetBookById | backend/app/services/book.service.js:173-197 | a missing book, an inactive book and a missing publisher fail, each exactly in its own case; otherwise the result is the book's full view with the statistics of that id and the unclamped availability |
| BookService.UpdateBookGuard | backend/app/services/book.service.js:206-215 | the update refuses a missing book, then an inactive one, and lets an active one through |
| BookService.CeilDiv | backend/app/services/book.service.js:155 | `Math.ceil(a / b)` is the least whole multiple count covering `a` |
| BookService.EffectiveSkip | backend/app/services/book.service.js:129 | any non-empty search string resets the offset to 0; without one the offset is kept |
| BookService.PageOf | backend/app/services/book.service.js:122-130 | the query fails only for a negative offset; otherwise it returns the listed books from the offset on, `limit` of them or as many as remain, and none past the end |
| BookService.Views | backend/app/services/book.service.js:132-145 | `Promise.all` over the page succeeds exactly when every book's publisher resolves, and then gives one entry per book, in order |
| BookService.GetAllBooks | backend/app/services/book.service.js:112-165 | the listing fails, with one message, exactly for a negative effective offset or a page book without a publisher; otherwise it carries the total, the limit, the requested skip, the page count and current page, and each page book's full view with its statistics |
| BookService.CurrentPageRoundTrip | backend/app/controllers/book.controller.js:57-59 | with the controller's `skip = (page - 1) * limit` the reported current page is the requested page |
| BookService.TotalPagesCover | backend/app/services/book.service.js:155 | the reported pages cover every counted book and the last page is not empty |
| BookService.SearchReportsStalePage | backend/app/services/book.service.js:129-157 | a search on page 3 is reported as page 3 while the first page of results is returned |
| StaffService.NextStaffId | backend/app/services/staff.service.js:10-22 | the corrected staff id is well-formed and not in use |
| StaffService.NextStaffIdFromLast | backend/app/services/staff.service.js:10-22 | without a last staff member the id is `NV001`; otherwise it starts with `NV` followed by at least three characters |
| StaffService.NextStaffIdAsWritten | backend/app/services/staff.service.js:10-22 | an empty collection gives `NV001`; when the greatest id in string order is well-formed the result is well-formed with number one more |
| StaffService.NextStaffIdOfNone | backend/app/services/staff.service.js:13 | the first staff id is `NV001` |
| StaffService.NextStaffIdIncrements | backend/app/services/staff.service.js:15-17 | after a well-formed staff id the next one is well-formed with number one more |
| StaffService.ConsecutiveStaffIdsDiffer | backend/app/services/staff.service.js:12-17 | generating from a well-formed id never returns that id, nor repeats on the next step |
| ReaderService.NextReaderId | backend/app/services/reader.service.js:11-23 | the corrected reader id is a well-formed `DG` id not in use |
| ReaderService.NextReaderIdFromLastAsWritten | backend/app/services/reader.service.js:11-23 | without a last reader the id is `DG001`; otherwise, as written, it starts with `NV` |
| ReaderService.NextReaderIdFromLast | backend/app/services/reader.service.js:11-23 | the corrected step: `DG001` first, otherwise an id starting with `DG` |
| ReaderService.NextReaderIdAsWritten | backend/app/services/reader.service.js:11-23 | an empty collection gives `DG001`; as written, any other collection gives an id that is not a well-formed `DG` id |
| ReaderService.SecondReaderIdIsNV | backend/app/services/reader.service.js:14-18 | as written the first reader id is `DG001` and the second is `NV002` |
| ReaderService.ThirdReaderIdIsNaN | backend/app/services/reader.service.js:16-18 | as written the id after `NV002` is `NVNaN` |
| ReaderService.AsWrittenReaderIdIsNotDG | backend/app/services/reader.service.js:18 | as written no id derived from a well-formed `DG` id is itself a `DG` id |
| ReaderService.NextReaderIdIncrements | backend/app/services/reader.service.js:16-18 | the corrected step keeps the `DG` format and adds one to the number |
| ReaderService.CheckGenderAsWritten | backend/app/services/reader.service.js:56-64 | as written every update with a truthy gender is rejected |
| ReaderService.CheckGender | backend/app/services/reader.service.js:56-64 | the corrected check rejects exactly a truthy gender outside the valid list |
| ReaderService.ValidGenderRejected | backend/app/services/reader.service.js:57-58 | a valid gender is rejected as written and accepted by the corrected check |
| ReaderService.NoGenderSkipsCheck | backend/app/services/reader.service.js:56 | without a truthy gender neither check rejects |
| Statistics.WindowDays | backend/app/services/statistics.service.js:25-37 | week is 7 days, quarter 90, year 365 and anything else 30 |
| Statistics.WindowStart | backend/app/services/statistics.service.js:25-37 | the window starts between 7 and 365 days before now |
| Statistics.Selected | backend/app/services/statistics.service.js:40-43 | the query keeps exactly the non-pending records created inside the window, each as often as it occurs, so its length is the number of such positions |
| Statistics.Count | backend/app/services/statistics.service.js:46-77 | `filter(f).length` is the number of positions whose record passes `f`: 0 exactly when none does, the length exactly when all do |
| Statistics.OnTimeLateSplit | backend/app/services/statistics.service.js:47-57 | on-time and overdue returns together are all returned records |
| Statistics.StatusPartition | backend/app/services/statistics.service.js:46-77 | without pending records, every record falls in exactly one of the status counts |
| Statistics.CountSelected | backend/app/services/statistics.service.js:40-77 | counting a filter over the query's result equals counting the records of the collection that are in the window and pass the filter |
| Statistics.GetBorrowStatistics | backend/app/services/statistics.service.js:40-77 | the total is the number of in-window non-pending records, and on time, overdue, active, returned, rejected and cancelled are the numbers of those records with that property; on time plus overdue is returned, and the total is active plus the three terminal counts |
| Statistics.NoReturnIsOnTime | backend/app/services/statistics.service.js:47-57 | since approval never sets a due date, no return counts as on time and every return counts as overdue |
| Statistics.BorrowedBooks | backend/app/services/statistics.service.js:109-114 | with non-negative quantities the summed copies of approved records are non-negative and at least each approved record's quantity; without approved records they are 0 |
| Statistics.TotalQuantity | backend/app/services/statistics.service.js:117-120 | with non-negative stocks the summed stock is non-negative and at least each book's stock |
| Statistics.AvailableBooks | backend/app/services/statistics.service.js:121 | with non-negative quantities the available total is at most the total stock, and equals it when no record is approved |
| Statistics.BookIds | backend/app/services/statistics.service.js:118-121 | the set of book ids is exactly the ids of the listed books |
| Statistics.ApprovedInAll | backend/app/services/statistics.service.js:109-114 | when every record names a listed book, the approved copies of the listed books are all approved copies |
| Statistics.ApprovedWithinCommitted | backend/app/services/statistics.service.js:109-114 | a book's approved copies are at most its committed copies |
| Statistics.ApprovedWithinStock | backend/app/services/statistics.service.js:109-121 | when the ledger holds, the approved copies of distinct listed books fit within their total stock |
| Statistics.AvailableNeverNegative | backend/app/services/statistics.service.js:118-121 | when the ledger holds and every record names a listed book, total stock minus borrowed copies is not negative |
| Statistics.AvailableCanBeNegative | backend/app/services/statistics.service.js:121 | without that, the reported available total can be negative |
| Statistics.KeysInOrder | backend/app/services/statistics.service.js:123-136 | the object's keys are exactly the keys tallied, each once |
| Statistics.TotalsAreSums | backend/app/services/statistics.service.js:123-132 | the tally has a key exactly when a pair carries it, and holds the sum of that key's counts |
| Statistics.Tally | backend/app/services/statistics.service.js:124-132 | the accumulation loop produces the keys in insertion order and the per-key sums |
| Statistics.Insert | backend/app/services/statistics.service.js:137 | inserting into a descending list keeps it descending and adds exactly that entry |
| Statistics.SortDesc | backend/app/services/statistics.service.js:137 | the sort by descending count is a permutation and is descending |
| Statistics.TopN | backend/app/services/statistics.service.js:135-138 | the top n is the first min(n, size) entries, descending, drawn from the entries, and no left-out entry counts more than a kept one |
| Statistics.ContributionsSum | backend/app/services/statistics.service.js:125-130 | the per-record contributions of a key add up to its group total |
| Statistics.ContributionsOccur | backend/app/services/statistics.service.js:125-130 | a key contributes exactly when some record feeds it |
| Statistics.RankingSpec | backend/app/services/statistics.service.js:123-136 | the ranking lists every fed key once, each with its group total |
| Statistics.TopEntriesFed | backend/app/services/statistics.service.js:135-138 | every top entry is a fed key with its group total |
| Statistics.TopLeavesOutSmaller | backend/app/services/statistics.service.js:135-138 | a fed key left out of the top counts no more than any kept key |
| Statistics.Rank | backend/app/services/statistics.service.js:123-138 | the tally, sort and slice produce the top n of the ranking |
| Statistics.BookTable | backend/app/services/statistics.service.js:140-142 | every listed book can be looked up by id, and each lookup returns a listed book with that id |
| Statistics.TopBookInfos | backend/app/services/statistics.service.js:140-152 | the lookup fails exactly when a found book's publisher is missing; otherwise one entry per top id, null for an unknown book, else the book's `getFullInfo` view with its count |
| Statistics.InCategory | backend/app/services/statistics.service.js:415-417 | the filter keeps exactly the books listing the category, with their multiplicity |
| Statistics.RecordsOfBooks | backend/app/services/statistics.service.js:419-421 | the count is the number of records, of any status, whose book is one of the given ids, and 0 exactly when there is none |
| Statistics.BookCount | backend/app/services/statistics.service.js:415-417 | a category's book count is the number of books listing it, 0 exactly when none does |
| Statistics.BorrowCount | backend/app/services/statistics.service.js:415-421 | a category's borrow count is the number of records whose book is listed in the category |
| Statistics.CategoryBookIds | backend/app/services/statistics.service.js:418-419 | the ids collected from a category's books are exactly the ids of the books listing it |
| Statistics.CategoryStatistics | backend/app/services/statistics.service.js:409-435 | one label and two counts per category: the number of books listing it, and the number of records whose book is one of those books |
| Statistics.GetBookStatistics | backend/app/services/statistics.service.js:100-175 | the result is the summary totals, the resolved top ten of the per-book ranking and the category statistics, failing exactly when a publisher is missing |
| Statistics.Borrowers | backend/app/services/statistics.service.js:237-244 | a top borrower list exists exactly when every reader resolves, with full name, email and count in ranking order |
| Statistics.GetTopBorrowers | backend/app/services/statistics.service.js:212-244 | an unresolved reader fails the call; otherwise the result is the nine readers with the most borrowed copies, summed over records of every status |
| Statistics.TopBorrowersResolve | backend/app/services/statistics.service.js:212-234 | once all readers resolve, every top reader is known |
| UserUtil.CheckPasswordStrength | backend/app/utils/user.util.js:64-87 | the result is true exactly for a strong password, otherwise the first broken rule in the source's order |
| UserUtil.StrengthSurvivesExtension | backend/app/utils/user.util.js:66-69 | appending characters never makes a strong password weak |
| UserUtil.OrNull | backend/app/utils/user.util.js:14-19 | `s \|\| null` keeps truthy strings and nulls the rest |
| UserUtil.OrFalse | backend/app/utils/user.util.js:20-21 | `b \|\| false` is true only for true |
| UserUtil.RoleOrReader | backend/app/utils/user.util.js:24 | a truthy role is kept and any other becomes the reader role |
| UserUtil.ConvertToSupabaseUser | backend/app/utils/user.util.js:12-27 | falsy strings become null, flags false, the role the reader role and the creation date now; `is_active` is always true |
| UserUtil.ConvertToUser | backend/app/utils/user.util.js:35-51 | it fails exactly without metadata; otherwise id, raw email and email flag, phone or null, role or reader, and always active |
| UserUtil.RoundTrip | backend/app/utils/user.util.js:12-51 | the round trip through the provider normalises falsy strings to null and flags to false, defaults the role and forces active |
| UserUtil.RoundTripKeepsTruthyFields | backend/app/utils/user.util.js:12-51 | a user whose string fields are all truthy comes back with them unchanged |
| UserUtil.DeactivationIsLost | backend/app/utils/user.util.js:22 | a deactivated user comes back active |
| Authorize.RoleValuesDistinct | backend/app/enums/role.enum.js:6-9 | the two role values differ |
| Authorize.StatusCode | backend/app/middlewares/authorize.middleware.js:9-23 | refusals carry 401 or 403 and only refusals carry a status |
| Authorize.Authorize | backend/app/middlewares/authorize.middleware.js:6-27 | no user is 401, a falsy top-level role 403, missing metadata throws, a metadata role outside the list 403, and otherwise the request goes on |
| Authorize.AuthorizeMonotone | backend/app/middlewares/authorize.middleware.js:19-23 | allowing more roles never refuses a user that passed |
| Authorize.PresenceAndMembershipUseDifferentRoles | backend/app/middlewares/authorize.middleware.js:14-23 | a missing top-level role is refused despite a staff metadata role, and a top-level reader with staff metadata passes a staff-only gate |
| Authorize.TopLevelRoleOnlyGates | backend/app/middlewares/authorize.middleware.js:14-23 | the value of a truthy top-level role never changes the decision |

## Left out

- Persistence, indexes other than the unique `bookId`, concurrency between requests, the cron schedule of the rejection job and console logging are not modelled. Each operation is one atomic step over the store.
- The services rethrow every error as a plain `Error` whose message is prefixed with "Failed to …", so the HTTP status is lost on the way out. `BorrowService.ApiStatus` gives the status the inner error carries, not the one the client sees.
- `BorrowService.BorrowStore.CreateBorrow`: the reader is looked up by user id and the record stores the reader document's id. The reader, book and staff collections are maps, not modelled documents.
- `createReader` passes the promise returned by an unawaited `getNextReaderId` (reader.service.js:36) as the id; this model covers only the id generator itself.
- gender.enum.js is not part of this model: the valid genders are a parameter.
- `IdFormat.NatToString`: JavaScript prints numbers from 1e21 upward in exponent form and loses precision above 2^53; both are out of range for these ids and not modelled.
- `IdFormat.SkipSpace`: `parseInt` skips all Unicode white space; the model skips the ASCII white space, no-break space and the byte order mark.
- `UserUtil.CheckPasswordStrength` measures length in Dafny characters, while JavaScript counts UTF-16 code units; the two differ for characters outside the basic plane.
- `UserUtil.ConvertToSupabaseUser`: the calls to the identity provider's API are left out; only the conversions are modelled.
- `BookService.GetAllBooks`: the title regex and the category, author and publisher filters are not modelled. The listed books and their total are parameters.
- `BookService.GetBookById` reports which of its three failures occurred. The source's catch rethrows each of them as the same generic "Failed to find book by ID" error.
- `BorrowService.BorrowStore.CreateBorrow`, `ApproveBorrow` and `ConfirmBorrowReturn` take the other collections the projection reads as a parameter (`BorrowModel.Directory`). Their agreement with the store's reader and staff tables is not modelled.
- `BorrowModel.GetInfo` attaches the reader as the user id its document refers to. The source attaches the whole Reader document, and likewise the staff documents.
- `Statistics.Person` has plain string names. A user stored with null names is printed by the source's template literal as "null"; the model does not show that text.
- `Statistics.CategoryStatistics` compares category ids as strings, while the source compares an ObjectId with the references stored in each book.
- `Statistics.TopN`: sort stability is not stated. `Statistics.Insert` places the new entry before existing entries of equal count; `Statistics.SortDesc` inserts each head into the sorted tail, so equal counts keep their original order, but no contract says so.
- `Statistics.KeysInOrder` assumes keys are not integer-like and not inherited property names, whose order or presence would differ in a JavaScript object.
- The trend helpers, the Mongo aggregation behind the second top-borrowers list, the `countDocuments` totals and the new-this-month count in `getUserStatistics` are not modelled.
- `getDashboardStats` reads an undefined status key (`BORROWED`) and is not modelled; `BorrowStatus.ExactlyFiveMembers` shows the key does not exist.
- The `unavailable: 0` field of the book statistics is a constant and not modelled.

## Findings

| source | as written | input that shows it | evidently intended | confidence | as-written member | corrected member |
|---|---|---|---|---|---|---|
| backend/app/services/reader.service.js:18 | the next reader id is built with the staff prefix `NV` after stripping `DG` | one reader `DG001`: the next id is `NV002`, and the one after is `NVNaN` | the `DG` prefix on both sides | high, not executed | ReaderService.SecondReaderIdIsNV | ReaderService.NextReaderIdIncrements |
| backend/app/services/reader.service.js:58 | the gender check tests whether the valid list includes the whole update object | an update with gender set to a valid value is rejected | test the update's gender against the list | high, not executed | ReaderService.ValidGenderRejected | ReaderService.CheckGender |
| backend/app/services/book.service.js:21-26 | the greatest id is taken in string order, so `S999` sorts after `S1000` | books `S999` and `S1000`: the generator proposes `S1000` again, which the unique index refuses (staff.service.js:12-17 repeats the pattern) | one past the numerically largest id | medium, not executed | BookService.DuplicateBookIdAfterS999 | BookService.NextBookId |
