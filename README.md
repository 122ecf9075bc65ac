# Full-text index access layer

This project models the index-access layer of a Flask microblog (`app/search.py`):
the three functions through which the application writes records into an
Elasticsearch index and reads ranked record ids back.

- `add_to_index(index, model)` projects the record's `__searchable__` fields into a
  document (one entry per field, read with `getattr`) and upserts it under
  (index, model id).
- `remove_from_index(index, model)` deletes the document (index, model id).
- `query_index(index, query, page, per_page)` asks for page `page` as the zero-based
  window `from = (page - 1) * per_page`, `size = per_page`, and returns the hit ids,
  read back with `int(...)`, in the engine's order, together with the engine's total.

All three first test whether the application has an engine client. Without one,
the writes do nothing and the query answers `([], 0)`.

## Structure

- `wrappers.dfy`, `seqs.dfy`: `Option` and `FirstWhere`, the position where a loop
  that raises on the first bad element stops.
- `decimal.dfy` (module `Decimal`): `str` on integers and `int` on strings. A record's id
  reaches the engine as decimal text and comes back as a hit's `_id`. The round-trip lemma
  makes ids survive that trip, and injectivity makes "other records' entries are
  unchanged" hold at the level of integer ids.
- `engine.dfy` (module `Engine`): the engine as a store from index name to
  (document id to document). The class `Elasticsearch` is the client; `null` stands for
  "not configured". The behaviour of `index` (insert or replace) and of `delete` (remove,
  and report whether the document was there) is stated here as an assumption about the
  engine.
- `search.dfy` (module `Search`): the three operations. The two writes are methods that
  change the client's state. The query is a function of the engine's answer: the
  parameter `search` maps (index, request body) to a response.
- `paging.dfy` (module `Paging`): the window arithmetic. The predicate `ServesWindows`
  states the assumption that, for a given query text, the engine answers a request with
  the `[from, from + size)` slice of one ranking for that query, and that it reports that
  ranking's length as the total. Under it, consecutive pages of the same query tile the
  ranking.

Exceptions that the source lets through are modelled as error results:
- `AttributeError` for a searchable field the record lacks;
- `NotFound` when the engine's delete finds no document;
- `ValueError` for a hit id that `int()` refuses.

## Model

| member | source | states |
|---|---|---|
| `Decimal.NatToString` | app/search.py:17 | the text of a natural number is non-empty, all digits, and starts with `0` only for 0 |
| `Decimal.IntToString` | app/search.py:17 | `str(n)`: a minus sign exactly for a negative number, followed by a non-empty run of digits |
| `Decimal.ParseInt` | app/search.py:55 | `int(text)` succeeds exactly on an optional sign followed by at least one digit |
| `Decimal.NatRoundTrip` | app/search.py:55 | the digits of `str(n)` read back as `n` |
| `Decimal.IntRoundTrip` | app/search.py:55 | `int(str(n)) == n` for every integer: an id read from a hit is the id it was indexed under |
| `Decimal.IntToStringInjective` | app/search.py:17 | two ids share a document id exactly when they are equal |
| `Seqs.FirstWhere` | app/search.py:13-14 | the position of the first element on which the loop raises: every earlier element passes, and the element there fails |
| `Search.DocId` | app/search.py:17 | the document id a record is filed under is text that `int()` reads back as the record's id |
| `Engine.Get` | app/search.py:17 | a document is found exactly when its index exists and holds the id |
| `Engine.Put` | app/search.py:17 | after indexing, (index, id) holds the body and every other (index, id) entry is unchanged |
| `Engine.Drop` | app/search.py:29 | after deletion, (index, id) is absent, every other entry is unchanged, and deleting an absent document changes nothing |
| `Engine.Elasticsearch.Index` | app/search.py:17 | the client's store becomes the upsert of the body at (index, id) |
| `Engine.Elasticsearch.Delete` | app/search.py:29 | the client's store loses (index, id); `found` tells whether the document was there |
| `Search.BuildPayload` | app/search.py:12-14 | success exactly when every searchable field is an attribute; then the keys are exactly the searchable field names and each value is that attribute's value; otherwise AttributeError names the first missing field in declaration order |
| `Search.AddToIndex` | app/search.py:5-17 | no engine: no effect, normal return; with an engine, the projection is upserted under (index, DocId(id)); a missing field raises AttributeError before the engine is called, so the store is unchanged |
| `Search.RemoveFromIndex` | app/search.py:20-29 | no engine: no effect, normal return; with an engine, (index, DocId(id)) is dropped, and the call raises NotFound when there was no such document |
| `Search.IndexedEntry` | app/search.py:17 | after indexing a record, its integer id maps to its projection and every other (index, id) entry, at the level of integer ids, is unchanged |
| `Search.RemovedEntry` | app/search.py:29 | after removing a record, its entry is absent and every other (index, id) entry is unchanged |
| `Search.IndexIdempotent` | app/search.py:17 | indexing the same record twice leaves the same store as indexing it once |
| `Search.RemoveUndoesIndex` | app/search.py:17-29 | removing a record that was indexed over an absent entry gives back every earlier (index, id) entry; when the index already existed, the store is exactly the previous one (an index created by the upsert stays behind, empty) |
| `Search.ParseIds` | app/search.py:55 | ids are read with `int` in hit order, one per hit, and it succeeds exactly when every hit id is numeric; otherwise ValueError carries the first non-numeric id |
| `Search.QueryIndex` | app/search.py:32-58 | no engine: `([], 0)` for any query, page and per_page; with an engine, the ids have the hits' length and order, each is the hit's `_id` through `int`, and the total is the engine's reported total, not the number of ids; a non-numeric hit id raises ValueError, naming the first such id |
| `Search.RequestBody` | app/search.py:44-45 | the body carries the query over all fields (`'*'`), asks for `per_page` hits, and its window ends at `page * per_page`; for page >= 1 and per_page >= 0 it starts at a non-negative position |
| `Paging.Window` | app/search.py:44-45 | the window holds exactly `min(size, len(ranking) - from)` hits (none past the end), namely the hits of the ranking from `from` on, in order |
| `Paging.PageBounds` | app/search.py:44-45 | for page >= 1 and per_page >= 0, `from` >= 0, and page p + 1 starts where page p ends |
| `Paging.PagesDisjoint` | app/search.py:44-45 | two different pages ask for position ranges that do not overlap |
| `Paging.PageIsWindow` | app/search.py:44-56 | under the window assumption for the query sent, page p yields the ids, through `int`, of the `[(p-1)*per_page, p*per_page)` slice of that query's ranking, provided the hits of that slice are numeric, and the total is the full ranking's length on every page |
| `Paging.PagesTile` | app/search.py:44-45 | pages 1 to n, read one after the other, are exactly the first n * per_page hits of the ranking, with no overlaps and no gaps |
| `Paging.WindowExtendsPrefix` | app/search.py:44-45 | the window that starts where a prefix of the ranking ends, appended to that prefix, gives the longer prefix: no hit skipped or repeated |
| `Paging.SecondPageOfTwo` | app/search.py:44-56 | with two ranked matches, page 2 of size 1 returns the second-ranked id alone and reports a total of 2 |

## Behaviour kept as the code has it

- `remove_from_index` does not catch the client's not-found error (app/search.py:29).
  The model returns `NotFound` for an absent document and leaves the store unchanged.
- `query_index` does not check `page` or `per_page` (app/search.py:44-45). It sends
  `(page - 1) * per_page` as given, so a page below 1 asks for a negative start.
- None of the three functions catches an error from the engine (app/search.py:17, 29, 50).
  The model promises no error handling for transport failures.

## Left out

- Transport to the engine: network calls, timeouts, error responses other than the
  not-found reply to a delete, index refresh and near-real-time visibility. The engine's
  `index` and `delete` are taken as exact updates of the store.
- Ranking and the `multi_match` query over all fields: the response to a request is an
  opaque input. Only `Paging.ServesWindows` ties it to a fixed ranking.
- Paging.ServesWindows: places no constraint on the engine's reply to a negative `from`
  or `size`. The real engine rejects such a request with an error that
  `query_index` does not catch.
- Decimal.ParseInt: accepts an optional sign followed by ASCII digits. Python's `int()`
  also accepts surrounding whitespace, underscores between digits and non-ASCII digits.
  The two agree on every id the engine returns for a record that was indexed with an
  integer id.
- Search.QueryIndex: reads `hits.total` as a number. Newer engine versions report an
  object with a value and a relation there; the source passes it through unchanged.
- The model assumes the application object has an `elasticsearch` attribute, with None
  meaning "not configured" (app/search.py:9, 24, 36). In this repository nothing sets that
  attribute (app/__init__.py:1-24, config.py), so there the first read of it would raise
  AttributeError. That failure is not modelled.
- Attribute values are modelled as strings; `getattr` may return a value of any type.
- The debug `print` calls in `app/search.py`: output only.
- Commit-time change capture, the searchable mixin, reordering of hydrated rows by rank,
  and bulk reindexing are not part of this model. No code for them exists in the
  repository's files: `app/models.py` declares `User` and `Post` with no searchable
  fields and no session listeners.
- Routes, forms, mail, translation, models' password hashing and avatar URLs, and
  configuration: framework plumbing and foreign library calls, outside the index layer.
