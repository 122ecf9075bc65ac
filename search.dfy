/**
 * The full-text index access layer: `add_to_index`, `remove_from_index` and
 * `query_index`. Each reads the application's engine client first and does
 * nothing (the query answers `([], 0)`) when no engine is configured; here
 * that client is a nullable reference and `null` stands for "not configured".
 */
module Search {
  import opened Wrappers
  import Seqs
  import Decimal
  import opened Engine

  /**
   * A record offered for indexing: its numeric id, the field names it
   * declares as searchable (its `__searchable__` list) and its attributes.
   */
  datatype Model = Model(id: int, searchable: seq<string>, attrs: map<string, string>)

  /** The exceptions the three operations let through. */
  datatype Error =
    | AttributeError(name: string)         // getattr on a field the record does not have
    | NotFound(index: string, id: string)  // the engine refused to delete a missing document
    | ValueError(text: string)             // int() on a hit id that is not a number

  /** How `add_to_index` and `remove_from_index` end: normally, or by an exception. */
  datatype Status = Done | Failed(error: Error)

  datatype Result<T> = Ok(value: T) | Err(error: Error)

  /** The document id the engine files a record under: the decimal text of its id. */
  function DocId(id: int): (d: string)
    ensures Decimal.ParseInt(d) == Some(id)
  {
    Decimal.IntRoundTrip(id);
    Decimal.IntToString(id)
  }

  /** The document of record `id` in `index`, if the engine holds one. */
  function Lookup(s: Store, index: string, id: int): Option<Payload> {
    Get(s, index, DocId(id))
  }

  // ---------------------------------------------------------------------------
  // add_to_index

  /** Where the projection loop stops: the first searchable field the record lacks, or the end. */
  function FirstMissing(m: Model): nat {
    Seqs.FirstWhere(m.searchable, f => f !in m.attrs)
  }

  /** Every searchable field names an attribute of the record, so the projection succeeds. */
  predicate Resolvable(m: Model) {
    forall f :: f in m.searchable ==> f in m.attrs
  }

  /** The document built for a record: each searchable field mapped to the record's value of it. */
  function Projection(m: Model): Payload {
    map f | f in m.searchable && f in m.attrs :: m.attrs[f]
  }

  /**
   * The loop that builds the payload: one entry per searchable field, in
   * order, raising AttributeError at the first field the record lacks.
   */
  method BuildPayload(m: Model) returns (r: Result<Payload>)
    ensures r.Ok? <==> Resolvable(m)
    ensures r.Ok? ==> r.value.Keys == (set f | f in m.searchable)
    ensures r.Ok? ==> forall f :: f in r.value ==> r.value[f] == m.attrs[f]
    ensures r.Ok? ==> r.value == Projection(m)
    ensures r.Err? ==> FirstMissing(m) < |m.searchable| &&
                       r.error == AttributeError(m.searchable[FirstMissing(m)])
  {
    var payload: Payload := map[];
    for i := 0 to |m.searchable|
      invariant forall j :: 0 <= j < i ==> m.searchable[j] in m.attrs
      invariant payload == map f | f in m.searchable[..i] && f in m.attrs :: m.attrs[f]
    {
      var field := m.searchable[i];
      if field !in m.attrs {
        return Err(AttributeError(field));
      }
      payload := payload[field := m.attrs[field]];
    }
    assert m.searchable[..|m.searchable|] == m.searchable;
    return Ok(payload);
  }

  /**
   * `add_to_index(index, model)`: without an engine, nothing happens;
   * otherwise the record's projection is indexed under (index, its id),
   * unless a searchable field is missing, in which case the engine is not
   * called at all.
   */
  method AddToIndex(es: Elasticsearch?, index: string, m: Model) returns (st: Status)
    modifies es
    ensures es == null ==> st == Done
    ensures es != null && Resolvable(m) ==>
              st == Done && es.indices == Put(old(es.indices), index, DocId(m.id), Projection(m))
    ensures es != null && !Resolvable(m) ==>
              st == Failed(AttributeError(m.searchable[FirstMissing(m)])) && es.indices == old(es.indices)
  {
    if es == null {
      return Done;
    }
    var payload := BuildPayload(m);
    if payload.Err? {
      return Failed(payload.error);
    }
    es.Index(index, DocId(m.id), payload.value);
    return Done;
  }

  // ---------------------------------------------------------------------------
  // remove_from_index

  /**
   * `remove_from_index(index, model)`: without an engine, nothing happens;
   * otherwise the document (index, its id) is deleted. The engine reports a
   * missing document as an error that the function does not catch.
   */
  method RemoveFromIndex(es: Elasticsearch?, index: string, m: Model) returns (st: Status)
    modifies es
    ensures es == null ==> st == Done
    ensures es != null ==> es.indices == Drop(old(es.indices), index, DocId(m.id))
    ensures es != null ==>
              st == if Lookup(old(es.indices), index, m.id).Some? then Done
                    else Failed(NotFound(index, DocId(m.id)))
  {
    if es == null {
      return Done;
    }
    var found := es.Delete(index, DocId(m.id));
    if !found {
      return Failed(NotFound(index, DocId(m.id)));
    }
    return Done;
  }

  // ---------------------------------------------------------------------------
  // What indexing and removal do to the entries of other records

  /** After indexing a record, its entry holds its projection and every other (index, id) entry is as before. */
  lemma IndexedEntry(s: Store, index: string, m: Model, i: string, id: int)
    ensures Lookup(Put(s, index, DocId(m.id), Projection(m)), i, id) ==
            if i == index && id == m.id then Some(Projection(m)) else Lookup(s, i, id)
  {
    Decimal.IntToStringInjective(id, m.id);
  }

  /** After removing a record, its entry is absent and every other (index, id) entry is as before. */
  lemma RemovedEntry(s: Store, index: string, m: Model, i: string, id: int)
    ensures Lookup(Drop(s, index, DocId(m.id)), i, id) ==
            if i == index && id == m.id then None else Lookup(s, i, id)
  {
    Decimal.IntToStringInjective(id, m.id);
  }

  /** Indexing the same record twice leaves the engine as indexing it once. */
  lemma IndexIdempotent(s: Store, index: string, m: Model)
    ensures var once := Put(s, index, DocId(m.id), Projection(m));
            Put(once, index, DocId(m.id), Projection(m)) == once
  {
    var d := DocId(m.id);
    var once := Put(s, index, d, Projection(m));
    assert once[index][d := Projection(m)] == once[index];
  }

  /**
   * Removing a record that was indexed over an absent entry gives back the
   * engine's earlier documents; when the index already existed, the very same
   * store (a fresh index created by the upsert stays behind, empty).
   */
  lemma RemoveUndoesIndex(s: Store, index: string, m: Model)
    requires Lookup(s, index, m.id) == None
    ensures forall i, k :: Get(Drop(Put(s, index, DocId(m.id), Projection(m)), index, DocId(m.id)), i, k) == Get(s, i, k)
    ensures index in s ==> Drop(Put(s, index, DocId(m.id), Projection(m)), index, DocId(m.id)) == s
  {
    var d := DocId(m.id);
    if index in s {
      assert s[index][d := Projection(m)] - {d} == s[index];
    }
  }

  // ---------------------------------------------------------------------------
  // query_index

  /** The search request: a match on every field (`'*'`) and a zero-based window of hits. */
  datatype SearchBody = SearchBody(query: string, fields: seq<string>, from: int, size: int)

  /** One hit of a response; the engine reports its document id as text. */
  datatype Hit = Hit(id: string)

  /** The part of the engine's answer that is read: the hits in rank order and the reported total. */
  datatype SearchResponse = SearchResponse(hits: seq<Hit>, total: int)

  /** What `query_index` returns: record ids in rank order and the number of results. */
  datatype Answer = Answer(ids: seq<int>, total: int)

  /** The body sent for page `page` of `perPage` results. */
  function RequestBody(query: string, page: int, perPage: int): (b: SearchBody)
    ensures b.query == query && b.fields == ["*"]
    ensures b.size == perPage && b.from + b.size == page * perPage
    ensures page >= 1 && perPage >= 0 ==> b.from >= 0
  {
    SearchBody(query, ["*"], (page - 1) * perPage, perPage)
  }

  predicate Numeric(h: Hit) {
    Decimal.ParseInt(h.id).Some?
  }

  predicate AllNumeric(hits: seq<Hit>) {
    forall i :: 0 <= i < |hits| ==> Numeric(hits[i])
  }

  /** The list comprehension over the hits: each `_id` through int(), raising at the first one that is not a number. */
  function ParseIds(hits: seq<Hit>): (r: Result<seq<int>>)
    ensures r.Ok? <==> AllNumeric(hits)
    ensures r.Ok? ==> |r.value| == |hits| &&
                      forall i :: 0 <= i < |hits| ==> Decimal.ParseInt(hits[i].id) == Some(r.value[i])
    ensures r.Err? ==> Seqs.FirstWhere(hits, h => !Numeric(h)) < |hits| &&
                       r.error == ValueError(hits[Seqs.FirstWhere(hits, h => !Numeric(h))].id)
  {
    if hits == [] then Ok([])
    else
      match Decimal.ParseInt(hits[0].id)
      case None => Err(ValueError(hits[0].id))
      case Some(id) =>
        match ParseIds(hits[1..])
        case Err(e) => Err(e)
        case Ok(ids) => Ok([id] + ids)
  }

  /**
   * `query_index(index, query, page, per_page)`. `search` is the engine's
   * answer to a body sent to an index; its ranking is not modelled.
   */
  function QueryIndex(es: Elasticsearch?, index: string, query: string, page: int, perPage: int,
                      search: (string, SearchBody) -> SearchResponse): (r: Result<Answer>)
    ensures es == null ==> r == Ok(Answer([], 0))
    ensures es != null ==>
              var response := search(index, RequestBody(query, page, perPage));
              && (r.Ok? <==> AllNumeric(response.hits))
              && (r.Ok? ==> r.value.total == response.total)
              && (r.Ok? ==> |r.value.ids| == |response.hits| &&
                            forall i :: 0 <= i < |response.hits| ==>
                              Decimal.ParseInt(response.hits[i].id) == Some(r.value.ids[i]))
              && (r.Err? ==> var k := Seqs.FirstWhere(response.hits, h => !Numeric(h));
                             k < |response.hits| && r.error == ValueError(response.hits[k].id))
  {
    if es == null then Ok(Answer([], 0))
    else
      var response := search(index, RequestBody(query, page, perPage));
      match ParseIds(response.hits)
      case Err(e) => Err(e)
      case Ok(ids) => Ok(Answer(ids, response.total))
  }
}
