/**
 * Book records and the in-memory, ordered store that both variants of the
 * Bookly service keep them in: the record values, the three seed records,
 * the linear scan for an id, the id assignment of `create_book` and the
 * removal of one record.
 */
module Books {

  datatype Option<T> = None | Some(value: T)

  /** The JSON values a field of a loosely typed record can hold in this model. */
  datatype Value = Int(i: int) | Str(s: string)

  /** A book record: a dictionary from field names to values. */
  type Book = map<string, Value>

  const ID_KEY: string := "id"
  const TITLE_KEY: string := "title"

  /** The ways a handler fails. */
  datatype Error =
    | NotFound               // no record carries the requested id
    | KeyError(key: string)  // a dictionary lookup of a field the record lacks
    | TypeError              // `max` over ids of mixed type, or `+ 1` applied to a string id

  /** What a handler yields instead of raising. */
  datatype Result<T> = Ok(value: T) | Err(error: Error)

  /** The reply of a handler together with the store it leaves behind. */
  datatype Outcome<T> = Outcome(reply: Result<T>, books: seq<Book>)

  const HTTP_200_OK: int := 200
  const HTTP_201_CREATED: int := 201
  const HTTP_204_NO_CONTENT: int := 204
  const HTTP_404_NOT_FOUND: int := 404
  const HTTP_500_INTERNAL_SERVER_ERROR: int := 500

  /** The `detail` of the 404 raised by every handler that misses its id. */
  const NOT_FOUND_DETAIL: string := "Book not found"

  /** The book routes of the store. */
  datatype Route = ListRoute | GetRoute | CreateRoute | UpdateRoute | DeleteRoute

  /** The status each route's decorator declares for a normal return. */
  function SuccessStatus(route: Route): int
  {
    match route
    case CreateRoute => HTTP_201_CREATED
    case DeleteRoute => HTTP_204_NO_CONTENT
    case _ => HTTP_200_OK
  }

  /**
   * The HTTP status of a handler's reply: the route's declared success status,
   * 404 for a missing record, and 500 for an exception the handler does not catch.
   */
  function StatusCode<T>(route: Route, r: Result<T>): (code: int)
    ensures r.Ok? ==> code == SuccessStatus(route)
    ensures code == HTTP_404_NOT_FOUND <==> r == Err(NotFound)
    ensures r.Err? && r.error != NotFound ==> code == HTTP_500_INTERNAL_SERVER_ERROR
    ensures code in {HTTP_200_OK, HTTP_201_CREATED, HTTP_204_NO_CONTENT, HTTP_404_NOT_FOUND, HTTP_500_INTERNAL_SERVER_ERROR}
  {
    match r
    case Ok(_) => SuccessStatus(route)
    case Err(NotFound) => HTTP_404_NOT_FOUND
    case Err(_) => HTTP_500_INTERNAL_SERVER_ERROR
  }

  /** The `detail` of the error body: "Book not found" for the 404 that the handlers raise themselves. */
  function Detail<T>(r: Result<T>): (d: Option<string>)
    ensures d.Some? <==> r == Err(NotFound)
    ensures d.Some? ==> d.value == NOT_FOUND_DETAIL
  {
    if r == Err(NotFound) then Some(NOT_FOUND_DETAIL) else None
  }

  /** The module-level `books` list both variants start from. */
  function Seed(): (s: seq<Book>)
    ensures |s| == 3
    ensures forall k :: 0 <= k < 3 ==>
              && s[k].Keys == {ID_KEY, TITLE_KEY, "author", "publisher", "publisher_date", "page_count", "language"}
              && s[k][ID_KEY] == Int(k + 1)
              && s[k]["page_count"].Int? && s[k]["page_count"].i >= 0
              && s[k]["language"] == Str("English")
  {
    [ map[ID_KEY := Int(1), TITLE_KEY := Str("1984"), "author" := Str("George Orwell"),
           "publisher" := Str("Secker & Warburg"), "publisher_date" := Str("1949-06-08"),
           "page_count" := Int(328), "language" := Str("English")],
      map[ID_KEY := Int(2), TITLE_KEY := Str("To Kill a Mockingbird"), "author" := Str("Harper Lee"),
           "publisher" := Str("J.B. Lippincott & Co."), "publisher_date" := Str("1960-07-11"),
           "page_count" := Int(281), "language" := Str("English")],
      map[ID_KEY := Int(3), TITLE_KEY := Str("The Great Gatsby"), "author" := Str("F. Scott Fitzgerald"),
           "publisher" := Str("Charles Scribner's Sons"), "publisher_date" := Str("1925-04-10"),
           "page_count" := Int(180), "language" := Str("English")] ]
  }

  /** `book["id"] == book_id` for a path id, which is an int: a string id never matches. */
  predicate HasId(b: Book, id: int)
  {
    ID_KEY in b && b[ID_KEY] == Int(id)
  }

  /** Every record has an "id" field, so that `book["id"]` never raises. */
  predicate IdKeysPresent(books: seq<Book>)
  {
    forall k :: 0 <= k < |books| ==> ID_KEY in books[k]
  }

  /** Every record's id is an integer. */
  predicate IntIds(books: seq<Book>)
  {
    forall k :: 0 <= k < |books| ==> ID_KEY in books[k] && books[k][ID_KEY].Int?
  }

  /** No two records share an id. */
  predicate DistinctIds(books: seq<Book>)
    requires IdKeysPresent(books)
  {
    forall j, k :: 0 <= j < k < |books| ==> books[j][ID_KEY] != books[k][ID_KEY]
  }

  /** The index of the first record whose id is `id`, as the handlers' `for` scans find it. */
  function FindFirst(books: seq<Book>, id: int): (r: Option<nat>)
    ensures r.Some? ==> r.value < |books| && HasId(books[r.value], id)
    ensures r.Some? ==> forall k :: 0 <= k < r.value ==> !HasId(books[k], id)
    ensures r.None? <==> forall k :: 0 <= k < |books| ==> !HasId(books[k], id)
  {
    if |books| == 0 then None
    else if HasId(books[0], id) then Some(0)
    else match FindFirst(books[1..], id)
      case None => None
      case Some(k) => Some(k + 1)
  }

  /** The linear scan with early exit that each handler runs over the store. */
  method Scan(books: seq<Book>, id: int) returns (found: Option<nat>)
    requires IdKeysPresent(books)
    ensures found == FindFirst(books, id)
  {
    var i := 0;
    while i < |books|
      invariant 0 <= i <= |books|
      invariant forall k :: 0 <= k < i ==> !HasId(books[k], id)
    {
      if books[i][ID_KEY] == Int(id) {
        return Some(i);
      }
      i := i + 1;
    }
    return None;
  }

  /** The largest id of a non-empty store whose ids are all integers. */
  function MaxId(books: seq<Book>): (m: int)
    requires |books| > 0 && IntIds(books)
    ensures exists k :: 0 <= k < |books| && books[k][ID_KEY] == Int(m)
    ensures forall k :: 0 <= k < |books| ==> books[k][ID_KEY].i <= m
  {
    if |books| == 1 then books[0][ID_KEY].i
    else
      var rest := MaxId(books[1..]);
      assert forall k :: 1 <= k < |books| ==> books[k] == books[1..][k - 1];
      if books[0][ID_KEY].i >= rest then books[0][ID_KEY].i else rest
  }

  /**
   * `max(book["id"] for book in books) + 1 if books else 1`: 1 on an empty store,
   * one more than the largest id when all ids are integers, and a TypeError when
   * some id is a string (comparing it with an int, or adding 1 to it, raises).
   */
  function NextId(books: seq<Book>): (r: Result<int>)
    requires IdKeysPresent(books)
    ensures r.Ok? <==> IntIds(books)
    ensures r.Err? ==> r.error == TypeError
    ensures |books| == 0 ==> r == Ok(1)
    ensures r.Ok? ==> forall k :: 0 <= k < |books| ==> books[k][ID_KEY].i < r.value
    ensures r.Ok? && |books| > 0 ==> exists k :: 0 <= k < |books| && books[k][ID_KEY] == Int(r.value - 1)
  {
    if |books| == 0 then Ok(1)
    else if IntIds(books) then Ok(MaxId(books) + 1)
    else Err(TypeError)
  }

  /** The running-maximum loop that Python's `max` performs over the ids. */
  method ComputeNextId(books: seq<Book>) returns (r: Result<int>)
    requires IdKeysPresent(books)
    ensures r == NextId(books)
  {
    if |books| == 0 {
      return Ok(1);
    }
    var best := books[0][ID_KEY];
    var i := 1;
    while i < |books|
      invariant 1 <= i <= |books|
      invariant best.Int? ==> forall k :: 0 <= k < i ==> books[k][ID_KEY].Int? && books[k][ID_KEY].i <= best.i
      invariant best.Int? ==> exists k :: 0 <= k < i && books[k][ID_KEY] == best
      invariant best.Str? ==> books[0][ID_KEY].Str?
    {
      var id := books[i][ID_KEY];
      if id.Int? != best.Int? {
        return Err(TypeError);
      }
      if id.Int? && id.i > best.i {
        best := id;
      }
      i := i + 1;
    }
    if best.Str? {
      return Err(TypeError);
    }
    return Ok(best.i + 1);
  }

  /** `del books[index]`: the store without the record at `index`. */
  function RemoveAt(books: seq<Book>, index: nat): (r: seq<Book>)
    requires index < |books|
    ensures |r| == |books| - 1
    ensures forall k :: 0 <= k < index ==> r[k] == books[k]
    ensures forall k :: index <= k < |r| ==> r[k] == books[k + 1]
  {
    books[..index] + books[index + 1..]
  }

  /** On a store with distinct ids, the only record carrying an id is the first one found. */
  lemma DistinctFindsOnly(books: seq<Book>, k: nat, id: int)
    requires IdKeysPresent(books) && DistinctIds(books)
    requires k < |books| && HasId(books[k], id)
    ensures FindFirst(books, id) == Some(k)
    ensures forall j :: 0 <= j < |books| && j != k ==> !HasId(books[j], id)
  {
    forall j | 0 <= j < |books| && j != k
      ensures !HasId(books[j], id)
    {
      if j < k {
        assert books[j][ID_KEY] != books[k][ID_KEY];
      } else {
        assert books[k][ID_KEY] != books[j][ID_KEY];
      }
    }
  }

  /** Removing a record keeps the other ids present and distinct. */
  lemma RemoveAtKeepsDistinct(books: seq<Book>, index: nat)
    requires IdKeysPresent(books) && DistinctIds(books) && index < |books|
    ensures IdKeysPresent(RemoveAt(books, index)) && DistinctIds(RemoveAt(books, index))
  {
    var r := RemoveAt(books, index);
    forall j, k | 0 <= j < k < |r|
      ensures r[j][ID_KEY] != r[k][ID_KEY]
    {
      var j' := if j < index then j else j + 1;
      var k' := if k < index then k else k + 1;
      assert r[j] == books[j'] && r[k] == books[k'] && j' < k';
    }
  }

  /** The seed store has integer ids 1, 2 and 3, pairwise distinct, so the next id is 4. */
  lemma SeedIds()
    ensures IdKeysPresent(Seed()) && IntIds(Seed()) && DistinctIds(Seed())
    ensures forall k :: 0 <= k < 3 ==> Seed()[k][ID_KEY] == Int(k + 1)
    ensures NextId(Seed()) == Ok(4)
  {
    var s := Seed();
    assert s[0][ID_KEY] == Int(1) && s[1][ID_KEY] == Int(2) && s[2][ID_KEY] == Int(3);
  }
}
