/**
 * The borrow status enumeration: five members, each with the lower-case
 * string value stored in a borrow record's `status` field.
 */
module BorrowStatus {
  import opened Wrappers

  datatype Status = Pending | Approved | Rejected | Returned | Cancelled

  /** Who the enumeration's documentation says moves a record into a status. */
  datatype Actor = Reader | Staff

  /** The string stored for each status. */
  function Value(s: Status): string {
    match s
    case Pending => "pending"
    case Approved => "approved"
    case Rejected => "rejected"
    case Returned => "returned"
    case Cancelled => "cancelled"
  }

  /** Member lookup by key (`BorrowStatus.PENDING` and so on); an unknown key is `undefined`. */
  function Member(key: string): (r: Option<Status>)
    ensures r.Some? ==> key == KeyOf(r.value)
  {
    if key == "PENDING" then Some(Pending)
    else if key == "APPROVED" then Some(Approved)
    else if key == "REJECTED" then Some(Rejected)
    else if key == "RETURNED" then Some(Returned)
    else if key == "CANCELLED" then Some(Cancelled)
    else None
  }

  function KeyOf(s: Status): string {
    match s
    case Pending => "PENDING"
    case Approved => "APPROVED"
    case Rejected => "REJECTED"
    case Returned => "RETURNED"
    case Cancelled => "CANCELLED"
  }

  /** Parses a stored string back to its status; the schema's enum validator rejects anything else. */
  function FromValue(v: string): (r: Option<Status>)
    ensures r.Some? ==> Value(r.value) == v
  {
    if v == "pending" then Some(Pending)
    else if v == "approved" then Some(Approved)
    else if v == "rejected" then Some(Rejected)
    else if v == "returned" then Some(Returned)
    else if v == "cancelled" then Some(Cancelled)
    else None
  }

  /** The actor the enumeration's comments name: staff rejects, the reader cancels. */
  function DocumentedActor(s: Status): (r: Option<Actor>)
    ensures r == Some(Staff) <==> s == Rejected
    ensures r == Some(Reader) <==> s == Cancelled
  {
    match s
    case Rejected => Some(Staff)
    case Cancelled => Some(Reader)
    case _ => None
  }

  /** The statuses whose quantity is reserved against a book's stock. */
  predicate IsCommitted(s: Status) {
    s == Pending || s == Approved
  }

  /** Statuses that no operation ever leaves. */
  predicate IsTerminal(s: Status) {
    s == Rejected || s == Returned || s == Cancelled
  }

  lemma ValuesDistinct(s: Status, t: Status)
    ensures Value(s) == Value(t) <==> s == t
  {
  }

  lemma {:induction false} ValueRoundTrip(s: Status)
    ensures FromValue(Value(s)) == Some(s)
  {
    match s
    case Pending =>
    case Approved =>
    case Rejected =>
    case Returned =>
    case Cancelled =>
  }

  /** Exactly five members; there is no BORROWED key. */
  lemma ExactlyFiveMembers()
    ensures Member("BORROWED") == None
    ensures forall s: Status :: Member(KeyOf(s)) == Some(s)
    ensures |{Pending, Approved, Rejected, Returned, Cancelled}| == 5
  {
  }

  lemma CommittedAndTerminalPartition(s: Status)
    ensures IsCommitted(s) != IsTerminal(s)
  {
  }
}
