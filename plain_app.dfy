/**
 * The plain variant of the service (main.py): the same book store and
 * handlers without tracing. Its update merges the payload over the stored
 * record without forcing the id back, so a payload "id" replaces the stored one.
 */
module PlainApp {
  import opened Books

  /** `get_book`: the first record with the id; 404 when absent. */
  function GetBookStep(books: seq<Book>, bookId: int): (r: Outcome<Book>)
    requires IdKeysPresent(books)
    ensures r.books == books
    ensures r.reply.Err? <==> forall k :: 0 <= k < |books| ==> !HasId(books[k], bookId)
    ensures r.reply.Err? ==> r.reply.error == NotFound
    ensures r.reply.Ok? ==>
              FindFirst(books, bookId).Some? && r.reply.value == books[FindFirst(books, bookId).value]
              && HasId(r.reply.value, bookId)
  {
    match FindFirst(books, bookId)
    case None => Outcome(Err(NotFound), books)
    case Some(k) => Outcome(Ok(books[k]), books)
  }

  /**
   * `create_book`: the payload with its "id" overwritten by the next id is
   * appended and returned. A string id in the store makes `max` raise before
   * anything changes.
   */
  function CreateBookStep(books: seq<Book>, payload: Book): (r: Outcome<Book>)
    requires IdKeysPresent(books)
    ensures IdKeysPresent(r.books)
    ensures r.reply.Ok? <==> IntIds(books)
    ensures r.reply.Err? ==> r.reply.error == TypeError && r.books == books
    ensures r.reply.Ok? ==>
              && |r.books| == |books| + 1
              && r.books[..|books|] == books
              && r.books[|books|] == r.reply.value
              && r.reply.value.Keys == payload.Keys + {ID_KEY}
              && (forall key :: key in payload && key != ID_KEY ==> r.reply.value[key] == payload[key])
              && r.reply.value[ID_KEY] == Int(NextId(books).value)
              && (forall k :: 0 <= k < |books| ==> books[k][ID_KEY] != r.reply.value[ID_KEY])
  {
    match NextId(books)
    case Err(e) => Outcome(Err(e), books)
    case Ok(newId) =>
      var book := payload[ID_KEY := Int(newId)];
      var after := books + [book];
      assert forall k :: 0 <= k < |books| ==> after[k] == books[k];
      Outcome(Ok(book), after)
  }

  /**
   * `update_book`: the first record with the id becomes `{**existing, **payload}`,
   * so the payload's "id", when it has one, replaces the stored id. 404 when absent.
   */
  function UpdateBookStep(books: seq<Book>, bookId: int, payload: Book): (r: Outcome<Book>)
    requires IdKeysPresent(books)
    ensures IdKeysPresent(r.books) && |r.books| == |books|
    ensures FindFirst(books, bookId).None? ==> r.reply == Err(NotFound) && r.books == books
    ensures FindFirst(books, bookId).Some? ==>
              var k := FindFirst(books, bookId).value;
              && r.reply.Ok?
              && r.reply.value == r.books[k]
              && (forall j :: 0 <= j < |books| && j != k ==> r.books[j] == books[j])
              && r.books[k].Keys == books[k].Keys + payload.Keys
              && (forall key :: key in payload ==> r.books[k][key] == payload[key])
              && (forall key :: key in books[k] && key !in payload ==> r.books[k][key] == books[k][key])
              && r.books[k][ID_KEY] == (if ID_KEY in payload then payload[ID_KEY] else Int(bookId))
  {
    match FindFirst(books, bookId)
    case None => Outcome(Err(NotFound), books)
    case Some(k) =>
      var merged := books[k] + payload;
      Outcome(Ok(merged), books[k := merged])
  }

  /** `delete_book`: the first record with the id is removed; 404 when absent. */
  function DeleteBookStep(books: seq<Book>, bookId: int): (r: Outcome<()>)
    requires IdKeysPresent(books)
    ensures IdKeysPresent(r.books)
    ensures FindFirst(books, bookId).None? ==> r.reply == Err(NotFound) && r.books == books
    ensures FindFirst(books, bookId).Some? ==>
              r.reply == Ok(()) && r.books == RemoveAt(books, FindFirst(books, bookId).value)
  {
    match FindFirst(books, bookId)
    case None => Outcome(Err(NotFound), books)
    case Some(k) => Outcome(Ok(()), RemoveAt(books, k))
  }

  /**
   * Updating id 1 of the seed with payload {"id": 2} leaves two records with
   * id 2; a delete of 2 then removes only the first, so a get of 2 still succeeds.
   */
  lemma UpdateDuplicatesIds()
    ensures var u := UpdateBookStep(Seed(), 1, map[ID_KEY := Int(2)]);
            && u.reply.Ok?
            && !DistinctIds(u.books)
            && GetBookStep(u.books, 1).reply == Err(NotFound)
            && DeleteBookStep(u.books, 2).reply == Ok(())
            && GetBookStep(DeleteBookStep(u.books, 2).books, 2).reply.Ok?
  {
    var s := Seed();
    SeedIds();
    DistinctFindsOnly(s, 0, 1);
    var u := UpdateBookStep(s, 1, map[ID_KEY := Int(2)]);
    assert u.books[0][ID_KEY] == Int(2) && u.books[1] == s[1];
    assert FindFirst(u.books, 2) == Some(0);
    var d := RemoveAt(u.books, 0);
    assert d[0] == s[1];
  }

  /** After an update gives a record a string id, every later create fails with a TypeError. */
  lemma StringIdBlocksCreate(books: seq<Book>, bookId: int, id: string, payload: Book)
    requires IdKeysPresent(books) && FindFirst(books, bookId).Some?
    ensures var u := UpdateBookStep(books, bookId, map[ID_KEY := Str(id)]);
            CreateBookStep(u.books, payload) == Outcome(Err(TypeError), u.books)
  {
    var k := FindFirst(books, bookId).value;
    var u := UpdateBookStep(books, bookId, map[ID_KEY := Str(id)]);
    assert !u.books[k][ID_KEY].Int?;
  }

  /** Creating a record and then getting its assigned id returns that record. */
  lemma CreateThenGet(books: seq<Book>, payload: Book)
    requires IdKeysPresent(books) && IntIds(books)
    ensures var c := CreateBookStep(books, payload);
            && c.reply.Ok?
            && GetBookStep(c.books, NextId(books).value).reply == c.reply
  {
    var c := CreateBookStep(books, payload);
    var n := NextId(books).value;
    forall k | 0 <= k < |books|
      ensures !HasId(c.books[k], n)
    {
      assert c.books[k] == books[k];
    }
  }

  /** A get answers 200 when a record has the id, and 404 with "Book not found" otherwise. */
  lemma GetStatus(books: seq<Book>, bookId: int)
    requires IdKeysPresent(books)
    ensures StatusCode(GetRoute, GetBookStep(books, bookId).reply)
            == if FindFirst(books, bookId).None? then HTTP_404_NOT_FOUND else HTTP_200_OK
    ensures Detail(GetBookStep(books, bookId).reply)
            == if FindFirst(books, bookId).None? then Some(NOT_FOUND_DETAIL) else None
  {
  }

  /** A create answers 201 when every id is an integer, and 500 otherwise. */
  lemma CreateStatus(books: seq<Book>, payload: Book)
    requires IdKeysPresent(books)
    ensures StatusCode(CreateRoute, CreateBookStep(books, payload).reply)
            == if IntIds(books) then HTTP_201_CREATED else HTTP_500_INTERNAL_SERVER_ERROR
  {
  }

  /** An update answers 200 when a record has the id, and 404 otherwise. */
  lemma UpdateStatus(books: seq<Book>, bookId: int, payload: Book)
    requires IdKeysPresent(books)
    ensures StatusCode(UpdateRoute, UpdateBookStep(books, bookId, payload).reply)
            == if FindFirst(books, bookId).None? then HTTP_404_NOT_FOUND else HTTP_200_OK
  {
  }

  /** A delete answers 204 when a record has the id, and 404 otherwise. */
  lemma DeleteStatus(books: seq<Book>, bookId: int)
    requires IdKeysPresent(books)
    ensures StatusCode(DeleteRoute, DeleteBookStep(books, bookId).reply)
            == if FindFirst(books, bookId).None? then HTTP_404_NOT_FOUND else HTTP_204_NO_CONTENT
  {
  }

  /** The module-level store of main.py. */
  class BookStore {
    var books: seq<Book>

    ghost predicate Valid()
      reads this
    {
      IdKeysPresent(books)
    }

    constructor ()
      ensures Valid() && books == Seed()
    {
      books := Seed();
      SeedIds();
    }

    /** `get_books`: the whole list, in insertion order, unchanged. */
    method GetBooks() returns (r: seq<Book>)
      requires Valid()
      ensures r == books
    {
      r := books;
    }

    method GetBook(bookId: int) returns (reply: Result<Book>)
      requires Valid()
      ensures Outcome(reply, books) == GetBookStep(books, bookId)
    {
      var found := Scan(books, bookId);
      match found {
        case None =>
          reply := Err(NotFound);
        case Some(k) =>
          reply := Ok(books[k]);
      }
    }

    method CreateBook(payload: Book) returns (reply: Result<Book>)
      requires Valid()
      modifies this
      ensures Valid()
      ensures Outcome(reply, books) == CreateBookStep(old(books), payload)
    {
      var next := ComputeNextId(books);
      match next {
        case Err(e) =>
          reply := Err(e);
        case Ok(newId) =>
          var book := payload[ID_KEY := Int(newId)];
          books := books + [book];
          reply := Ok(book);
      }
    }

    method UpdateBook(bookId: int, payload: Book) returns (reply: Result<Book>)
      requires Valid()
      modifies this
      ensures Valid()
      ensures Outcome(reply, books) == UpdateBookStep(old(books), bookId, payload)
    {
      var found := Scan(books, bookId);
      match found {
        case None =>
          reply := Err(NotFound);
        case Some(index) =>
          books := books[index := books[index] + payload];
          reply := Ok(books[index]);
      }
    }

    method DeleteBook(bookId: int) returns (reply: Result<()>)
      requires Valid()
      modifies this
      ensures Valid()
      ensures Outcome(reply, books) == DeleteBookStep(old(books), bookId)
    {
      var found := Scan(books, bookId);
      match found {
        case None =>
          reply := Err(NotFound);
        case Some(index) =>
          books := books[..index] + books[index + 1..];
          reply := Ok(());
      }
    }
  }
}
