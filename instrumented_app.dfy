/**
 * The instrumented variant of the service (app/main.py): the book store and
 * its handlers, each of which also annotates a trace span. A handler's span
 * is modelled by its name and the attributes the handler sets on it; update
 * forces the stored id back to the path id, so ids stay unique.
 */
module InstrumentedApp {
  import opened Books

  /** A span attribute value. */
  datatype Attr = Num(i: int) | Text(s: string) | Flag(b: bool)

  /** A trace span: its name and the attributes set on it. */
  datatype Span = Span(name: string, attributes: map<string, Attr>)

  /** The reply, the span and the store a handler leaves behind. */
  datatype Step<T> = Step(reply: Result<T>, span: Span, books: seq<Book>)

  const GET_SPAN: string := "get_book_by_id"
  const CREATE_SPAN: string := "create_book"
  const UPDATE_SPAN: string := "update_book"
  const DELETE_SPAN: string := "delete_book"

  const BOOK_ID_ATTR: string := "book.id"
  const BOOK_TITLE_ATTR: string := "book.title"
  const ERROR_ATTR: string := "error"
  const ERROR_MESSAGE_ATTR: string := "error.message"

  /** A record field as a span attribute. */
  function AttrOf(v: Value): Attr
  {
    match v
    case Int(i) => Num(i)
    case Str(s) => Text(s)
  }

  function DigitChar(d: nat): (c: char)
    requires d < 10
    ensures '0' <= c <= '9' && (c as int) - ('0' as int) == d
  {
    "0123456789"[d]
  }

  /** Python's `str` of a non-negative int: its decimal digits, most significant first, no leading zero. */
  function NatToDecimal(n: nat): (s: string)
    ensures |s| > 0 && IsDigits(s)
    ensures s[0] == '0' <==> n == 0
    ensures s[0] == '0' ==> s == "0"
    decreases n
  {
    if n < 10 then [DigitChar(n)] else NatToDecimal(n / 10) + [DigitChar(n % 10)]
  }

  /** Python's `str` of an int, as the f-string in the not-found message renders it. */
  function IntToDecimal(i: int): (s: string)
    ensures |s| > 0
    ensures i < 0 <==> s[0] == '-'
    ensures IsDigits(s) || (s[0] == '-' && IsDigits(s[1..]))
    ensures i < 0 ==> |s| > 1 && s[1] != '0'
    ensures i >= 0 && s[0] == '0' ==> s == "0"
  {
    if i < 0 then "-" + NatToDecimal(-i) else NatToDecimal(i)
  }

  predicate IsDigits(s: string)
  {
    forall k :: 0 <= k < |s| ==> '0' <= s[k] <= '9'
  }

  /** The number a string of decimal digits denotes. */
  function DecimalValue(s: string): nat
    requires IsDigits(s)
  {
    if |s| == 0 then 0
    else DecimalValue(s[..|s| - 1]) * 10 + ((s[|s| - 1] as int) - ('0' as int))
  }

  /** The number an optionally signed decimal string denotes. */
  function ParseDecimal(s: string): int
    requires |s| > 0 && (IsDigits(s) || (s[0] == '-' && IsDigits(s[1..])))
  {
    if s[0] == '-' then -(DecimalValue(s[1..]) as int) else DecimalValue(s)
  }

  lemma {:induction false} NatToDecimalRoundTrip(n: nat)
    ensures DecimalValue(NatToDecimal(n)) == n
  {
    if n >= 10 {
      var s := NatToDecimal(n);
      NatToDecimalRoundTrip(n / 10);
      assert s[..|s| - 1] == NatToDecimal(n / 10);
    }
  }

  /** The id rendered into an error message can be read back from it. */
  lemma IntToDecimalRoundTrip(i: int)
    ensures ParseDecimal(IntToDecimal(i)) == i
  {
    if i < 0 {
      NatToDecimalRoundTrip(-i);
      assert IntToDecimal(i)[1..] == NatToDecimal(-i);
    } else {
      NatToDecimalRoundTrip(i);
    }
  }

  /** The `error.message` attribute a handler sets when `book_id` is missing. */
  function NotFoundMessage(bookId: int): (m: string)
    ensures |m| > 23 && m[..13] == "Book with id " && m[|m| - 10..] == " not found"
    ensures var digits := m[13..|m| - 10];
            && |digits| > 0 && (IsDigits(digits) || (digits[0] == '-' && IsDigits(digits[1..])))
            && (digits[0] == '0' ==> digits == "0")
            && (digits[0] == '-' ==> |digits| > 1 && digits[1] != '0')
            && ParseDecimal(digits) == bookId
  {
    IntToDecimalRoundTrip(bookId);
    var digits := IntToDecimal(bookId);
    var m := "Book with id " + digits + " not found";
    assert m[13..|m| - 10] == digits;
    m
  }

  /** The span carries attribute `key` with value `a`. */
  predicate HasAttr(span: Span, key: string, a: Attr)
  {
    key in span.attributes && span.attributes[key] == a
  }

  function WithAttr(span: Span, key: string, a: Attr): Span
  {
    span.(attributes := span.attributes[key := a])
  }

  /** A span as a handler opens it and sets `book.id` before the lookup. */
  function Opened(name: string, bookId: int): Span
  {
    Span(name, map[BOOK_ID_ATTR := Num(bookId)])
  }

  /** The two error attributes a handler sets before it raises the 404. */
  function MarkNotFound(span: Span, bookId: int): (marked: Span)
    ensures marked.name == span.name
    ensures marked.attributes.Keys == span.attributes.Keys + {ERROR_ATTR, ERROR_MESSAGE_ATTR}
    ensures HasAttr(marked, ERROR_ATTR, Flag(true))
    ensures HasAttr(marked, ERROR_MESSAGE_ATTR, Text(NotFoundMessage(bookId)))
    ensures forall key :: key in span.attributes && key != ERROR_ATTR && key != ERROR_MESSAGE_ATTR ==>
              marked.attributes[key] == span.attributes[key]
  {
    WithAttr(WithAttr(span, ERROR_ATTR, Flag(true)), ERROR_MESSAGE_ATTR, Text(NotFoundMessage(bookId)))
  }

  /** The invariant of the module-level `books` list in this variant. */
  predicate StoreInvariant(books: seq<Book>)
  {
    IdKeysPresent(books) && IntIds(books) && DistinctIds(books)
  }

  /** Replacing the first record with an id by a record carrying that same id keeps the invariant. */
  lemma ReplaceKeepsInvariant(books: seq<Book>, k: nat, bookId: int, merged: Book)
    requires IdKeysPresent(books) && FindFirst(books, bookId) == Some(k)
    requires HasId(merged, bookId)
    ensures StoreInvariant(books) ==> StoreInvariant(books[k := merged])
  {
    if StoreInvariant(books) {
      DistinctFindsOnly(books, k, bookId);
    }
  }

  /** `get_book`: the first record with the id, its title on the span; 404 when absent. */
  function GetBookStep(books: seq<Book>, bookId: int): (s: Step<Book>)
    requires IdKeysPresent(books)
    ensures s.books == books
    ensures s.span.name == GET_SPAN
    ensures HasAttr(s.span, BOOK_ID_ATTR, Num(bookId))
    ensures s.reply == Err(NotFound) <==> forall k :: 0 <= k < |books| ==> !HasId(books[k], bookId)
    ensures s.reply == Err(NotFound) ==>
              HasAttr(s.span, ERROR_ATTR, Flag(true))
              && HasAttr(s.span, ERROR_MESSAGE_ATTR, Text(NotFoundMessage(bookId)))
              && s.span.attributes.Keys == {BOOK_ID_ATTR, ERROR_ATTR, ERROR_MESSAGE_ATTR}
    ensures FindFirst(books, bookId).Some? ==>
              (s.reply.Ok? <==> TITLE_KEY in books[FindFirst(books, bookId).value])
    ensures s.reply.Ok? ==>
              FindFirst(books, bookId).Some? && s.reply.value == books[FindFirst(books, bookId).value]
              && HasId(s.reply.value, bookId)
              && TITLE_KEY in s.reply.value
              && HasAttr(s.span, BOOK_TITLE_ATTR, AttrOf(s.reply.value[TITLE_KEY]))
              && s.span.attributes.Keys == {BOOK_ID_ATTR, BOOK_TITLE_ATTR}
    ensures s.reply.Err? ==> s.reply.error == NotFound || s.reply.error == KeyError(TITLE_KEY)
    ensures s.reply == Err(KeyError(TITLE_KEY)) ==> s.span.attributes.Keys == {BOOK_ID_ATTR}
  {
    var span := Opened(GET_SPAN, bookId);
    match FindFirst(books, bookId)
    case None => Step(Err(NotFound), MarkNotFound(span, bookId), books)
    case Some(k) =>
      if TITLE_KEY in books[k] then
        Step(Ok(books[k]), WithAttr(span, BOOK_TITLE_ATTR, AttrOf(books[k][TITLE_KEY])), books)
      else
        Step(Err(KeyError(TITLE_KEY)), span, books)
  }

  /**
   * `create_book`: the payload with its "id" overwritten by the next id is
   * appended and returned. Reading its title for the span raises when the
   * payload has none, after the record was appended.
   */
  function CreateBookStep(books: seq<Book>, payload: Book): (s: Step<Book>)
    requires IdKeysPresent(books)
    ensures IdKeysPresent(s.books)
    ensures StoreInvariant(books) ==> StoreInvariant(s.books)
    ensures s.span.name == CREATE_SPAN
    ensures !IntIds(books) ==> s.reply == Err(TypeError) && s.books == books && s.span.attributes == map[]
    ensures IntIds(books) ==>
              && |s.books| == |books| + 1
              && s.books[..|books|] == books
              && s.books[|books|] == payload[ID_KEY := Int(NextId(books).value)]
              && HasAttr(s.span, BOOK_ID_ATTR, Num(NextId(books).value))
    ensures s.reply.Ok? <==> IntIds(books) && TITLE_KEY in payload
    ensures IntIds(books) && TITLE_KEY !in payload ==>
              s.reply == Err(KeyError(TITLE_KEY)) && s.span.attributes.Keys == {BOOK_ID_ATTR}
    ensures s.reply.Ok? ==>
              s.reply.value == s.books[|books|]
              && HasAttr(s.span, BOOK_TITLE_ATTR, AttrOf(payload[TITLE_KEY]))
              && s.span.attributes.Keys == {BOOK_ID_ATTR, BOOK_TITLE_ATTR}
  {
    var span := Span(CREATE_SPAN, map[]);
    match NextId(books)
    case Err(e) => Step(Err(e), span, books)
    case Ok(newId) =>
      var book := payload[ID_KEY := Int(newId)];
      var span := WithAttr(span, BOOK_ID_ATTR, Num(newId));
      var after := books + [book];
      assert forall k :: 0 <= k < |books| ==> after[k] == books[k];
      if TITLE_KEY in book then
        Step(Ok(book), WithAttr(span, BOOK_TITLE_ATTR, AttrOf(book[TITLE_KEY])), after)
      else
        Step(Err(KeyError(TITLE_KEY)), span, after)
  }

  /**
   * `update_book`: the first record with the id becomes `{**existing, **payload,
   * "id": book_id}`; reading the merged title for the span raises when it has none,
   * after the replacement. 404 when the id is absent.
   */
  function UpdateBookStep(books: seq<Book>, bookId: int, payload: Book): (s: Step<Book>)
    requires IdKeysPresent(books)
    ensures IdKeysPresent(s.books) && |s.books| == |books|
    ensures StoreInvariant(books) ==> StoreInvariant(s.books)
    ensures s.span.name == UPDATE_SPAN
    ensures HasAttr(s.span, BOOK_ID_ATTR, Num(bookId))
    ensures FindFirst(books, bookId).None? ==>
              s.reply == Err(NotFound) && s.books == books
              && HasAttr(s.span, ERROR_ATTR, Flag(true))
              && HasAttr(s.span, ERROR_MESSAGE_ATTR, Text(NotFoundMessage(bookId)))
              && s.span.attributes.Keys == {BOOK_ID_ATTR, ERROR_ATTR, ERROR_MESSAGE_ATTR}
    ensures FindFirst(books, bookId).Some? ==>
              var k := FindFirst(books, bookId).value;
              && (forall j :: 0 <= j < |books| && j != k ==> s.books[j] == books[j])
              && s.books[k].Keys == books[k].Keys + payload.Keys
              && s.books[k][ID_KEY] == Int(bookId)
              && (forall key :: key in payload && key != ID_KEY ==> s.books[k][key] == payload[key])
              && (forall key :: key in books[k] && key !in payload ==> s.books[k][key] == books[k][key])
              && (s.reply.Ok? <==> TITLE_KEY in s.books[k])
              && (s.reply.Ok? ==> s.reply.value == s.books[k]
                                  && HasAttr(s.span, BOOK_TITLE_ATTR, AttrOf(s.books[k][TITLE_KEY]))
                                  && s.span.attributes.Keys == {BOOK_ID_ATTR, BOOK_TITLE_ATTR})
              && (s.reply.Err? ==> s.reply.error == KeyError(TITLE_KEY)
                                   && s.span.attributes.Keys == {BOOK_ID_ATTR})
  {
    var span := Opened(UPDATE_SPAN, bookId);
    match FindFirst(books, bookId)
    case None => Step(Err(NotFound), MarkNotFound(span, bookId), books)
    case Some(k) =>
      var merged := (books[k] + payload)[ID_KEY := Int(bookId)];
      var after := books[k := merged];
      ReplaceKeepsInvariant(books, k, bookId, merged);
      assert merged.Keys == books[k].Keys + payload.Keys;
      if TITLE_KEY in merged then
        Step(Ok(merged), WithAttr(span, BOOK_TITLE_ATTR, AttrOf(merged[TITLE_KEY])), after)
      else
        Step(Err(KeyError(TITLE_KEY)), span, after)
  }

  /** `delete_book`: the first record with the id is removed; 404 when absent. */
  function DeleteBookStep(books: seq<Book>, bookId: int): (s: Step<()>)
    requires IdKeysPresent(books)
    ensures IdKeysPresent(s.books)
    ensures StoreInvariant(books) ==> StoreInvariant(s.books)
    ensures s.span.name == DELETE_SPAN
    ensures HasAttr(s.span, BOOK_ID_ATTR, Num(bookId))
    ensures FindFirst(books, bookId).None? ==>
              s.reply == Err(NotFound) && s.books == books
              && HasAttr(s.span, ERROR_ATTR, Flag(true))
              && HasAttr(s.span, ERROR_MESSAGE_ATTR, Text(NotFoundMessage(bookId)))
              && s.span.attributes.Keys == {BOOK_ID_ATTR, ERROR_ATTR, ERROR_MESSAGE_ATTR}
    ensures FindFirst(books, bookId).Some? ==>
              s.reply == Ok(()) && s.books == RemoveAt(books, FindFirst(books, bookId).value)
              && s.span.attributes.Keys == {BOOK_ID_ATTR}
  {
    var span := Opened(DELETE_SPAN, bookId);
    match FindFirst(books, bookId)
    case None => Step(Err(NotFound), MarkNotFound(span, bookId), books)
    case Some(k) =>
      assert StoreInvariant(books) ==> StoreInvariant(RemoveAt(books, k)) by {
        if StoreInvariant(books) {
          RemoveAtKeepsDistinct(books, k);
        }
      }
      Step(Ok(()), span, RemoveAt(books, k))
  }

  /** A request to one of the store's routes. */
  datatype Request =
    | List
    | Get(bookId: int)
    | Create(payload: Book)
    | Update(bookId: int, payload: Book)
    | Delete(bookId: int)

  /** The store after serving one request. */
  function Apply(books: seq<Book>, req: Request): (after: seq<Book>)
    requires StoreInvariant(books)
    ensures StoreInvariant(after)
  {
    match req
    case List => books
    case Get(id) => GetBookStep(books, id).books
    case Create(payload) => CreateBookStep(books, payload).books
    case Update(id, payload) => UpdateBookStep(books, id, payload).books
    case Delete(id) => DeleteBookStep(books, id).books
  }

  /** The store after serving a sequence of requests in order. */
  function Run(books: seq<Book>, reqs: seq<Request>): (after: seq<Book>)
    requires StoreInvariant(books)
    ensures StoreInvariant(after)
    decreases |reqs|
  {
    if reqs == [] then books else Run(Apply(books, reqs[0]), reqs[1..])
  }

  /** From the seed, every sequence of requests keeps the ids integral and pairwise distinct. */
  lemma SeedRunKeepsIdsDistinct(reqs: seq<Request>)
    ensures IdKeysPresent(Run(Seed(), reqs)) && DistinctIds(Run(Seed(), reqs))
  {
    SeedIds();
  }

  /** Creating a record and then getting its assigned id returns that record. */
  lemma CreateThenGet(books: seq<Book>, payload: Book)
    requires StoreInvariant(books) && TITLE_KEY in payload
    ensures var c := CreateBookStep(books, payload);
            && c.reply.Ok?
            && c.reply.value[ID_KEY] == Int(NextId(books).value)
            && (forall key :: key in payload && key != ID_KEY ==> c.reply.value[key] == payload[key])
            && GetBookStep(c.books, NextId(books).value).reply == c.reply
  {
    var c := CreateBookStep(books, payload);
    var n := NextId(books).value;
    assert c.books[|books|] == c.reply.value;
    DistinctFindsOnly(c.books, |books|, n);
  }

  /** After a successful delete, getting the same id yields 404. */
  lemma DeleteThenGet(books: seq<Book>, bookId: int)
    requires StoreInvariant(books)
    requires DeleteBookStep(books, bookId).reply.Ok?
    ensures GetBookStep(DeleteBookStep(books, bookId).books, bookId).reply == Err(NotFound)
  {
    var k := FindFirst(books, bookId).value;
    DistinctFindsOnly(books, k, bookId);
    var after := RemoveAt(books, k);
    forall j | 0 <= j < |after|
      ensures !HasId(after[j], bookId)
    {
      assert after[j] == books[if j < k then j else j + 1];
    }
  }

  /** On the seed store a get of ids 1 to 3 returns the record with that id. */
  lemma SeedGetFinds(id: int)
    requires 1 <= id <= 3
    ensures GetBookStep(Seed(), id).reply.Ok?
    ensures GetBookStep(Seed(), id).reply.value[ID_KEY] == Int(id)
  {
    SeedIds();
    DistinctFindsOnly(Seed(), id - 1, id);
  }

  /** On the seed store a get of 999 is a 404. */
  lemma SeedGetMissing()
    ensures GetBookStep(Seed(), 999).reply == Err(NotFound)
    ensures StatusCode(GetRoute, GetBookStep(Seed(), 999).reply) == HTTP_404_NOT_FOUND
    ensures Detail(GetBookStep(Seed(), 999).reply) == Some(NOT_FOUND_DETAIL)
  {
    SeedIds();
  }

  /**
   * A create appends the next id whatever the payload; deleting that id restores
   * the store, so the following create reissues the same id.
   */
  lemma CreateDeleteReissues(books: seq<Book>, first: Book, second: Book)
    requires StoreInvariant(books)
    ensures var n := NextId(books).value;
            var c1 := CreateBookStep(books, first);
            var d := DeleteBookStep(c1.books, n);
            var c2 := CreateBookStep(d.books, second);
            && c1.books[|books|][ID_KEY] == Int(n)
            && d.reply == Ok(()) && d.books == books
            && c2.books[|books|][ID_KEY] == Int(n)
  {
    var n := NextId(books).value;
    var c1 := CreateBookStep(books, first);
    assert c1.books[|books|] == first[ID_KEY := Int(n)];
    DistinctFindsOnly(c1.books, |books|, n);
    assert RemoveAt(c1.books, |books|) == books;
  }

  /** From the seed, a create gets id 4; deleting 4 restores the seed and the next create reissues 4. */
  lemma SeedReissuesMaxId(first: Book, second: Book)
    ensures var c1 := CreateBookStep(Seed(), first);
            var d := DeleteBookStep(c1.books, 4);
            var c2 := CreateBookStep(d.books, second);
            && c1.books[3][ID_KEY] == Int(4)
            && d.reply == Ok(()) && d.books == Seed()
            && c2.books[3][ID_KEY] == Int(4)
  {
    SeedIds();
    CreateDeleteReissues(Seed(), first, second);
  }

  /** A get answers 404 when no record has the id, 200 when the match has a title, and 500 otherwise. */
  lemma GetStatus(books: seq<Book>, bookId: int)
    requires IdKeysPresent(books)
    ensures var found := FindFirst(books, bookId);
            StatusCode(GetRoute, GetBookStep(books, bookId).reply)
            == if found.None? then HTTP_404_NOT_FOUND
               else if TITLE_KEY in books[found.value] then HTTP_200_OK
               else HTTP_500_INTERNAL_SERVER_ERROR
  {
  }

  /** On a store with integer ids, a create answers 201 when the payload has a title and 500 otherwise. */
  lemma CreateStatus(books: seq<Book>, payload: Book)
    requires IdKeysPresent(books) && IntIds(books)
    ensures StatusCode(CreateRoute, CreateBookStep(books, payload).reply)
            == if TITLE_KEY in payload then HTTP_201_CREATED else HTTP_500_INTERNAL_SERVER_ERROR
  {
  }

  /** An update answers 404 when no record has the id, 200 when the merge has a title, and 500 otherwise. */
  lemma UpdateStatus(books: seq<Book>, bookId: int, payload: Book)
    requires IdKeysPresent(books)
    ensures var found := FindFirst(books, bookId);
            StatusCode(UpdateRoute, UpdateBookStep(books, bookId, payload).reply)
            == if found.None? then HTTP_404_NOT_FOUND
               else if TITLE_KEY in books[found.value] || TITLE_KEY in payload then HTTP_200_OK
               else HTTP_500_INTERNAL_SERVER_ERROR
  {
  }

  /** A delete answers 204 when a record has the id, and 404 with "Book not found" otherwise. */
  lemma DeleteStatus(books: seq<Book>, bookId: int)
    requires IdKeysPresent(books)
    ensures StatusCode(DeleteRoute, DeleteBookStep(books, bookId).reply)
            == if FindFirst(books, bookId).None? then HTTP_404_NOT_FOUND else HTTP_204_NO_CONTENT
    ensures Detail(DeleteBookStep(books, bookId).reply)
            == if FindFirst(books, bookId).None? then Some(NOT_FOUND_DETAIL) else None
  {
  }

  /** The module-level store of app/main.py. */
  class BookStore {
    var books: seq<Book>

    ghost predicate Valid()
      reads this
    {
      StoreInvariant(books)
    }

    constructor ()
      ensures Valid() && books == Seed()
    {
      books := Seed();
      SeedIds();
    }

    /** `get_books`: the whole list, in insertion order, unchanged. */
    method GetBooks() returns (r: seq<Book>)
      requires Valid()
      ensures r == books
    {
      r := books;
    }

    method GetBook(bookId: int) returns (reply: Result<Book>, span: Span)
      requires Valid()
      ensures Step(reply, span, books) == GetBookStep(books, bookId)
    {
      span := Opened(GET_SPAN, bookId);
      var found := Scan(books, bookId);
      match found {
        case None =>
          span := MarkNotFound(span, bookId);
          reply := Err(NotFound);
        case Some(k) =>
          var book := books[k];
          if TITLE_KEY in book {
            span := WithAttr(span, BOOK_TITLE_ATTR, AttrOf(book[TITLE_KEY]));
            reply := Ok(book);
          } else {
            reply := Err(KeyError(TITLE_KEY));
          }
      }
    }

    method CreateBook(payload: Book) returns (reply: Result<Book>, span: Span)
      requires Valid()
      modifies this
      ensures Valid()
      ensures Step(reply, span, books) == CreateBookStep(old(books), payload)
    {
      span := Span(CREATE_SPAN, map[]);
      var next := ComputeNextId(books);
      match next {
        case Err(e) =>
          reply := Err(e);
        case Ok(newId) =>
          var book := payload[ID_KEY := Int(newId)];
          books := books + [book];
          span := WithAttr(span, BOOK_ID_ATTR, Num(newId));
          if TITLE_KEY in book {
            span := WithAttr(span, BOOK_TITLE_ATTR, AttrOf(book[TITLE_KEY]));
            reply := Ok(book);
          } else {
            reply := Err(KeyError(TITLE_KEY));
          }
      }
    }

    method UpdateBook(bookId: int, payload: Book) returns (reply: Result<Book>, span: Span)
      requires Valid()
      modifies this
      ensures Valid()
      ensures Step(reply, span, books) == UpdateBookStep(old(books), bookId, payload)
    {
      span := Opened(UPDATE_SPAN, bookId);
      var found := Scan(books, bookId);
      match found {
        case None =>
          span := MarkNotFound(span, bookId);
          reply := Err(NotFound);
        case Some(index) =>
          books := books[index := (books[index] + payload)[ID_KEY := Int(bookId)]];
          if TITLE_KEY in books[index] {
            span := WithAttr(span, BOOK_TITLE_ATTR, AttrOf(books[index][TITLE_KEY]));
            reply := Ok(books[index]);
          } else {
            reply := Err(KeyError(TITLE_KEY));
          }
      }
    }

    method DeleteBook(bookId: int) returns (reply: Result<()>, span: Span)
      requires Valid()
      modifies this
      ensures Valid()
      ensures Step(reply, span, books) == DeleteBookStep(old(books), bookId)
    {
      span := Opened(DELETE_SPAN, bookId);
      var found := Scan(books, bookId);
      match found {
        case None =>
          span := MarkNotFound(span, bookId);
          reply := Err(NotFound);
        case Some(index) =>
          books := books[..index] + books[index + 1..];
          reply := Ok(());
      }
    }
  }
}
