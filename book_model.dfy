/**
 * The book record as the lending core sees it: the business id, the stock
 * `quantity`, the `isActive` flag and the references resolved by `getFullInfo`.
 */
module BookModel {
  import opened Wrappers
  import opened Counting

  datatype Book = Book(
    bookId: string,
    title: string,
    authors: seq<string>,     // author document ids
    categories: seq<string>,  // category document ids
    publisher: string,        // publisher document id
    quantity: int,            // required, no declared lower bound
    isActive: bool)

  /** `getFullInfo`: the book with its references replaced by names. */
  datatype BookFullInfo = BookFullInfo(
    bookId: string,
    title: string,
    authors: seq<string>,
    categories: seq<string>,
    publisher: string,
    quantity: int,
    isActive: bool)

  /** A new book document: `isActive` takes its schema default, true. */
  function NewBook(bookId: string, title: string, authors: seq<string>, categories: seq<string>,
                   publisher: string, quantity: int): (b: Book)
    ensures b.isActive
    ensures b.bookId == bookId && b.quantity == quantity
  {
    Book(bookId, title, authors, categories, publisher, quantity, true)
  }

  /** The schema's `required` string check: a missing or empty string fails. */
  predicate SchemaValid(b: Book) {
    b.bookId != "" && b.title != "" && b.publisher != ""
  }

  /** The `unique` index on `bookId`. */
  predicate UniqueBookIds(books: seq<Book>) {
    forall i, j :: 0 <= i < j < |books| ==> books[i].bookId != books[j].bookId
  }

  /**
   * Populating a list of references and keeping each `name`: references whose
   * document is missing are dropped by population, the rest keep their order.
   */
  function Names(ids: seq<string>, names: map<string, string>): (r: seq<string>)
    ensures |r| <= |ids|
    ensures (forall k :: 0 <= k < |ids| ==> ids[k] in names) ==>
              |r| == |ids| && forall k :: 0 <= k < |ids| ==> r[k] == names[ids[k]]
    ensures forall x :: x in r ==> x in names.Values
    ensures |r| == |set k | 0 <= k < |ids| && ids[k] in names|
    ensures forall k :: 0 <= k < |ids| && ids[k] in names ==> names[ids[k]] in r
  {
    if ids == [] then []
    else
      var rest := Names(ids[1..], names);
      ResolvedCons(ids, names);
      assert forall k :: 1 <= k < |ids| ==> ids[k] == ids[1..][k - 1];
      if ids[0] in names then [names[ids[0]]] + rest else rest
  }

  lemma ResolvedCons(ids: seq<string>, names: map<string, string>)
    requires ids != []
    ensures |set k | 0 <= k < |ids| && ids[k] in names|
         == (if ids[0] in names then 1 else 0) + |set k | 0 <= k < |ids[1..]| && ids[1..][k] in names|
  {
    var p := (id: string) => id in names;
    CountIfCons(ids, p);
    assert Positions(ids, p) == set k | 0 <= k < |ids| && ids[k] in names;
    assert Positions(ids[1..], p) == set k | 0 <= k < |ids[1..]| && ids[1..][k] in names;
  }

  /**
   * `getFullInfo`: authors and categories become their names, element by
   * element, and the publisher becomes its name; a missing publisher makes the
   * `.name` access throw.
   */
  function GetFullInfo(b: Book, authorNames: map<string, string>, categoryNames: map<string, string>,
                       publisherNames: map<string, string>): (r: Result<BookFullInfo, string>)
    ensures r.Ok? <==> b.publisher in publisherNames
    ensures r.Ok? ==> r.value.publisher == publisherNames[b.publisher]
    ensures r.Ok? ==> r.value.bookId == b.bookId && r.value.quantity == b.quantity && r.value.isActive == b.isActive
    ensures r.Ok? && (forall k :: 0 <= k < |b.authors| ==> b.authors[k] in authorNames) ==>
              |r.value.authors| == |b.authors| &&
              forall k :: 0 <= k < |b.authors| ==> r.value.authors[k] == authorNames[b.authors[k]]
    ensures r.Ok? && (forall k :: 0 <= k < |b.categories| ==> b.categories[k] in categoryNames) ==>
              |r.value.categories| == |b.categories| &&
              forall k :: 0 <= k < |b.categories| ==> r.value.categories[k] == categoryNames[b.categories[k]]
  {
    if b.publisher !in publisherNames then Err("publisher not found")
    else Ok(BookFullInfo(b.bookId, b.title, Names(b.authors, authorNames), Names(b.categories, categoryNames),
                         publisherNames[b.publisher], b.quantity, b.isActive))
  }
}
