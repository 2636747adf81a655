# Bookly book store, modelled in Dafny

Bookly is a small HTTP service that keeps a list of book records in memory.
It serves them through five handlers: list, get by id, create, update and
delete. The repository has two variants of the service:

- `app/main.py` is the instrumented variant. Each handler except the list
  opens a trace span and sets attributes on it.
- `main.py` is the plain variant. It has no tracing, and its update does not
  force the stored id back to the path id.

This project models the store and the handlers of both variants.

- `books.dfy` (module `Books`) holds what the two variants share:
  - the record values (`Value` is an integer or a string; `Book` is a map from
    field names to values);
  - the three seed records;
  - the first-match scan `FindFirst` and the loop `Scan` that computes it;
  - the id assignment `NextId` (`max(ids) + 1`, or 1 on an empty store) and the
    running-maximum loop `ComputeNextId` that computes it;
  - the removal `RemoveAt`;
  - the routes, the status each route declares for a normal return
    (`SuccessStatus`: 201 for create, 204 for delete, 200 otherwise), the HTTP
    status each reply maps to (`StatusCode`) and the 404 detail (`Detail`).
- `instrumented_app.dfy` (module `InstrumentedApp`) models `app/main.py`.
  Each handler is a specification function (`GetBookStep`, `CreateBookStep`,
  `UpdateBookStep`, `DeleteBookStep`). Each function gives the reply, the span
  (its name and attribute map) and the store afterwards. The class `BookStore`
  holds the module-level `books` list as a `seq<Book>` field. Its methods
  change that field in place and are proved equal to the specification
  functions. `Valid()` is the store invariant: every record has an integer
  `"id"` and no two records share one. `Run` serves a whole sequence of
  requests, and its contract states that the invariant survives every such
  sequence.
- `plain_app.dfy` (module `PlainApp`) models `main.py` in the same shape,
  without spans. Its invariant is only that every record has an `"id"`.

Failures are values, not exceptions. A handler returns `Result.Err` with one
of these errors:

- `NotFound`: the HTTP 404 with detail "Book not found".
- `KeyError("title")`: the instrumented handlers read `book["title"]` for
  the span. When the record has no title this raises, and the framework
  answers 500. In create and update this happens after the store was already
  changed, and the model keeps that change.
- `TypeError`: in the plain variant a string id can reach the store. After
  that, `max` over the ids raises (it compares an int with a string, or adds
  1 to a string), and the framework answers 500. Nothing has changed at that
  point.

Points where the code behaves differently from what one might expect:

- The code reads `book["title"]` after the store change (the `KeyError` above).
- The plain variant keeps ids unique only until an update payload carries
  an `"id"` equal to another record's id. A create payload's `"id"` is
  always overwritten by the next id.
- The plain variant's create route is `POST /book`, not `POST /books`.

## Model

| member | source | states |
|---|---|---|
| Books.Seed | app/main.py:72-100 | three records with ids 1, 2, 3, each with title, author, publisher, publisher_date, a non-negative page_count and language "English" |
| Books.StatusCode | app/main.py:130-133 | an Ok reply answers the route's declared status (201 create, 204 delete, 200 otherwise); 404 exactly for NotFound; any other error 500 |
| Books.Detail | app/main.py:130 | the error body carries the detail "Book not found" exactly for NotFound |
| Books.SeedIds | app/main.py:72-100 | the seed records have integer ids 1, 2, 3, pairwise distinct, so the next id is 4 |
| Books.FindFirst | app/main.py:123-124 | the index it gives holds a record with the id and no earlier record has it; none exactly when no record has it |
| Books.Scan | main.py:48-51 | the early-exit `for` scan returns exactly the first matching index, or none |
| Books.MaxId | app/main.py:139 | the result is the id of some record and no record's id exceeds it |
| Books.NextId | main.py:56 | 1 on an empty store; otherwise an int exactly when every id is an int, then greater than every id and one more than an existing id; otherwise TypeError |
| Books.ComputeNextId | app/main.py:139 | the running-maximum loop yields exactly `NextId` |
| Books.RemoveAt | main.py:75 | `del books[index]`: length drops by one, records before the index stay, records after it shift down one, order kept |
| Books.RemoveAtKeepsDistinct | app/main.py:177 | removing a record keeps every other id present and pairwise distinct |
| Books.DistinctFindsOnly | app/main.py:175-176 | on a store with distinct ids, the record holding an id is the first and only match |
| InstrumentedApp.NatToDecimal | app/main.py:129 | a non-empty string of decimal digits with no leading zero: it starts with "0" exactly for 0, and then is "0" |
| InstrumentedApp.IntToDecimal | app/main.py:129 | non-empty; starts with "-" exactly for a negative id, then a non-zero digit; otherwise all digits, "0" only for 0 |
| InstrumentedApp.NotFoundMessage | app/main.py:129 | "Book with id " then the id's shortest decimal form (no leading zero, "-" only for a negative id) then " not found"; the middle reads back as the id |
| InstrumentedApp.NatToDecimalRoundTrip | app/main.py:129 | the decimal digits rendered for a non-negative id read back as that id |
| InstrumentedApp.IntToDecimalRoundTrip | app/main.py:129 | the id rendered into "Book with id {book_id} not found" reads back as the id, sign included |
| InstrumentedApp.MarkNotFound | app/main.py:128-129 | the span gains exactly `error=true` and the not-found message, keeping its name and every other attribute |
| InstrumentedApp.ReplaceKeepsInvariant | app/main.py:158 | replacing the first record with an id by a record carrying that same id keeps ids integral and distinct |
| InstrumentedApp.GetBookStep | app/main.py:115-130 | store unchanged; `book.id` set on every path; 404 with `error=true` and the message exactly when no record has the id, span keys exactly those three; when found, Ok exactly when the record has a title; on success the first matching record, whose id is the requested one, with its title on the span and span keys exactly `book.id`, `book.title`; otherwise KeyError on "title" with only `book.id` |
| InstrumentedApp.CreateBookStep | app/main.py:133-145 | a string id gives TypeError, store unchanged, no attribute; otherwise the payload with "id" overwritten by the next id is appended: one longer, earlier records unchanged, new record last; `book.id` is the new id; Ok exactly when the payload has a title, with span keys exactly `book.id`, `book.title`, else KeyError on "title" with only `book.id`; keeps the store invariant |
| InstrumentedApp.UpdateBookStep | app/main.py:148-164 | absent id: 404, error attributes and exactly those span keys, store unchanged; found: only the first match changes, becoming existing merged with payload (payload keys win) with "id" forced to the path id; Ok with span keys exactly `book.id`, `book.title`, or KeyError on "title" with only `book.id`; length kept; keeps the store invariant |
| InstrumentedApp.DeleteBookStep | app/main.py:167-182 | absent id: 404, error attributes and exactly those span keys, store unchanged; found: exactly the first match is removed, order kept, only `book.id` on the span; keeps the store invariant |
| InstrumentedApp.Apply | app/main.py:108-182 | serving any one request keeps ids integral and pairwise distinct |
| InstrumentedApp.Run | app/main.py:139-177 | serving any sequence of requests keeps ids integral and pairwise distinct |
| InstrumentedApp.SeedRunKeepsIdsDistinct | app/main.py:72-100 | from the seed store, every sequence of requests leaves pairwise distinct ids |
| InstrumentedApp.CreateThenGet | app/main.py:139-145 | a create with a title, then a get of the assigned id, returns the created record: payload fields kept, id the new id |
| InstrumentedApp.DeleteThenGet | app/main.py:175-178 | after a successful delete, a get of the same id is a 404 |
| InstrumentedApp.SeedGetFinds | ops/k6/load-test.js:53-57 | on the seed store, a get of an id from 1 to 3 succeeds and returns a record with that id |
| InstrumentedApp.SeedGetMissing | ops/k6/load-test.js:61-65 | on the seed store, a get of 999 is NotFound, HTTP 404 with detail "Book not found" |
| InstrumentedApp.CreateDeleteReissues | app/main.py:139 | on any store with integer, distinct ids: a create appends the next id n; deleting n succeeds and restores the store exactly; the following create reissues n |
| InstrumentedApp.GetStatus | app/main.py:115-130 | a get answers 404 when no record has the id, 200 when the match has a title, 500 otherwise |
| InstrumentedApp.CreateStatus | app/main.py:133-145 | on integer ids, a create answers 201 when the payload has a title, 500 otherwise |
| InstrumentedApp.UpdateStatus | app/main.py:148-164 | an update answers 404 when no record has the id, 200 when existing record or payload has a title, 500 otherwise |
| InstrumentedApp.DeleteStatus | app/main.py:167-182 | a delete answers 204 when a record has the id, otherwise 404 with detail "Book not found" |
| InstrumentedApp.SeedReissuesMaxId | app/main.py:139 | create from the seed gets id 4; deleting 4 restores the seed store; the next create reissues id 4 |
| InstrumentedApp.BookStore.constructor | app/main.py:72-100 | the store starts as the seed records and satisfies the invariant |
| InstrumentedApp.BookStore.GetBooks | app/main.py:108-112 | returns the whole store in insertion order and changes nothing |
| InstrumentedApp.BookStore.GetBook | app/main.py:115-130 | reply and span equal `GetBookStep`; the store has no write access |
| InstrumentedApp.BookStore.CreateBook | app/main.py:133-145 | reply, span and new store equal `CreateBookStep` of the old store; invariant kept |
| InstrumentedApp.BookStore.UpdateBook | app/main.py:148-164 | reply, span and new store equal `UpdateBookStep` of the old store; invariant kept |
| InstrumentedApp.BookStore.DeleteBook | app/main.py:167-182 | reply, span and new store equal `DeleteBookStep` of the old store; invariant kept |
| PlainApp.GetBookStep | main.py:46-51 | store unchanged; NotFound exactly when no record has the id; otherwise the first matching record, whose id is the requested one |
| PlainApp.CreateBookStep | main.py:54-59 | TypeError with the store unchanged when some id is a string; otherwise the payload with a fresh "id" is appended last, earlier records unchanged, and returned |
| PlainApp.UpdateBookStep | main.py:62-68 | absent id: 404, store unchanged; found: only the first match changes, becoming existing merged with payload, payload keys (including "id") winning; length kept |
| PlainApp.DeleteBookStep | main.py:71-77 | absent id: 404, store unchanged; found: exactly the first match is removed, order kept |
| PlainApp.UpdateDuplicatesIds | main.py:66 | on the seed store, update(1, {"id": 2}) leaves two records with id 2; get(1) is then 404, and after delete(2) a get of 2 still succeeds |
| PlainApp.StringIdBlocksCreate | main.py:56 | once an update has stored a string id, every create fails with TypeError and changes nothing |
| PlainApp.CreateThenGet | main.py:54-59 | when all ids are integers, a create then a get of the assigned id returns the created record |
| PlainApp.GetStatus | main.py:46-51 | a get answers 200 when a record has the id, otherwise 404 with detail "Book not found" |
| PlainApp.CreateStatus | main.py:54-59 | a create answers 201 exactly when every id is an integer, 500 otherwise |
| PlainApp.UpdateStatus | main.py:62-68 | an update answers 200 when a record has the id, 404 otherwise |
| PlainApp.DeleteStatus | main.py:71-77 | a delete answers 204 when a record has the id, 404 otherwise |
| PlainApp.BookStore.constructor | main.py:10-38 | the store starts as the seed records, every one with an id |
| PlainApp.BookStore.GetBooks | main.py:41-43 | returns the whole store in insertion order and changes nothing |
| PlainApp.BookStore.GetBook | main.py:46-51 | reply equals `GetBookStep`; the store has no write access |
| PlainApp.BookStore.CreateBook | main.py:54-59 | reply and new store equal `CreateBookStep` of the old store |
| PlainApp.BookStore.UpdateBook | main.py:62-68 | reply and new store equal `UpdateBookStep` of the old store |
| PlainApp.BookStore.DeleteBook | main.py:71-77 | reply and new store equal `DeleteBookStep` of the old store |

## Left out

- Metrics middleware and the `/metrics` route (app/main.py:31-36, 55-70): they wrap `prometheus_client`, and latency is a floating-point wall-clock reading.
- Tracer setup and export (app/main.py:20-28): these are foreign calls plus network export. A span is modelled only as its name and the attributes the handler sets. Opening and closing a span, and the exception recording the tracer does on its own, are not modelled.
- Random delays (`time.sleep(random.uniform(...))`): they are random, they use floating point, and they do not affect the store.
- The `/error` fault injector (app/main.py:190-202): its outcome depends on a random float draw.
- The constant routes `/` and `/health`, CORS, routing, request parsing, `response_model` validation and the `uvicorn` entry point: these are framework plumbing with constant results. `StatusCode` gives only the status that each reply turns into.
- Concurrency: the store is modelled as single-threaded. Interleaved requests are not modelled.
- Record values other than integers and strings (booleans, floats, null, nested objects, lists): they are not modelled. In Python `True == 1` and `1.0 == 1`, so such ids would match differently.
- Field order inside a record: Python dicts keep insertion order, but Dafny maps are unordered.
- Aliasing of the request dict: `book["id"] = new_id` changes the parsed payload object, and that same object is appended. The model treats records as values, which is observably the same because each request parses a fresh dict.
- The 500 response body for a `KeyError` or `TypeError`: only its status is modelled.

## Findings

| source | as written | input that shows it | evidently intended | confidence | as-written member | corrected member |
|---|---|---|---|---|---|---|
| main.py:66 | `books[index] = {**existing_book, **book}` lets a payload "id" replace the stored id | seed store, `PUT /books/1` with `{"id": 2}`: two records have id 2, and `GET /books/1` is 404 | the id is forced back to the path id, as app/main.py:158 does, so ids stay unique | not executed | PlainApp.UpdateDuplicatesIds | InstrumentedApp.UpdateBookStep |
