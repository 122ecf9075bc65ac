/**
 * Pagination of `query_index`: page `page` of `perPage` results is the window
 * that starts at `(page - 1) * perPage` and holds `perPage` hits.
 *
 * How the engine fills that window is an assumption, stated by
 * ServesWindows: for a request with a non-negative start and size it
 * answers with that slice of one fixed ranking and reports the ranking's
 * length as the total.
 */
module Paging {
  import opened Wrappers
  import Decimal
  import opened Search

  function Min(a: int, b: int): int {
    if a <= b then a else b
  }

  /** The hits of `ranking` at positions `[from, from + size)`, cut off at its end. */
  function Window<T>(ranking: seq<T>, from: nat, size: nat): (w: seq<T>)
    ensures |w| == if from >= |ranking| then 0 else Min(size, |ranking| - from)
    ensures forall k :: 0 <= k < |w| ==> from + k < |ranking| && w[k] == ranking[from + k]
  {
    ranking[Min(from, |ranking|)..Min(from + size, |ranking|)]
  }

  /**
   * For this query text, the engine answers every request to `index` with a
   * non-negative start and size by that window of `ranking`, and reports the
   * length of `ranking` as the total.
   */
  ghost predicate ServesWindows(search: (string, SearchBody) -> SearchResponse, index: string, query: string,
                                ranking: seq<Hit>) {
    forall from: int, size: int :: 0 <= from && 0 <= size ==>
      search(index, SearchBody(query, ["*"], from, size)) == SearchResponse(Window(ranking, from, size), |ranking|)
  }

  /** For page >= 1 and perPage >= 0 the window starts at a valid position, and the next page starts where this one ends. */
  lemma PageBounds(query: string, page: int, perPage: int)
    requires page >= 1 && perPage >= 0
    ensures RequestBody(query, page, perPage).from >= 0
    ensures RequestBody(query, page + 1, perPage).from ==
            RequestBody(query, page, perPage).from + RequestBody(query, page, perPage).size
  {
    assert (page - 1) * perPage >= 0;
    assert page * perPage == (page - 1) * perPage + perPage;
  }

  /** Two different pages of the same size ask for position ranges that do not overlap. */
  lemma PagesDisjoint(query: string, p: int, q: int, perPage: int)
    requires 1 <= p < q && perPage >= 0
    ensures RequestBody(query, p, perPage).from + perPage <= RequestBody(query, q, perPage).from
  {
    assert (q - 1) * perPage - p * perPage == (q - 1 - p) * perPage;
    assert (q - 1 - p) * perPage >= 0;
  }

  /**
   * Under the window assumption, page `page` of a query yields the ids of
   * that page's slice of the ranking, in rank order, and the total is the
   * length of the whole ranking whatever the page.
   */
  lemma PageIsWindow(es: Engine.Elasticsearch, index: string, query: string, page: int, perPage: int,
                     search: (string, SearchBody) -> SearchResponse, ranking: seq<Hit>)
    requires ServesWindows(search, index, query, ranking)
    requires page >= 1 && perPage >= 0
    requires AllNumeric(Window(ranking, (page - 1) * perPage, perPage))
    ensures ParseIds(Window(ranking, (page - 1) * perPage, perPage)).Ok?
    ensures QueryIndex(es, index, query, page, perPage, search) ==
            Ok(Answer(ParseIds(Window(ranking, (page - 1) * perPage, perPage)).value, |ranking|))
  {
    var body := RequestBody(query, page, perPage);
    var w := Window(ranking, (page - 1) * perPage, perPage);
    assert search(index, body) == SearchResponse(w, |ranking|);
  }

  /** The windows of pages 1 through n, one after the other. */
  function FirstPages<T>(ranking: seq<T>, perPage: nat, n: nat): seq<T> {
    if n == 0 then [] else FirstPages(ranking, perPage, n - 1) + Window(ranking, (n - 1) * perPage, perPage)
  }

  /**
   * Consecutive pages neither overlap nor leave gaps: pages 1 through n,
   * read one after the other, are exactly the first n * perPage hits of the
   * ranking (or all of it, when it is shorter).
   */
  lemma {:induction false} PagesTile<T>(ranking: seq<T>, perPage: nat, n: nat)
    ensures FirstPages(ranking, perPage, n) == ranking[..Min(n * perPage, |ranking|)]
  {
    if n > 0 {
      PagesTile(ranking, perPage, n - 1);
      var start: nat := (n - 1) * perPage;
      assert n * perPage == start + perPage;
      WindowExtendsPrefix(ranking, start, perPage);
    }
  }

  /** The window that starts where a prefix ends extends that prefix by the window's length. */
  lemma WindowExtendsPrefix<T>(ranking: seq<T>, from: nat, size: nat)
    ensures ranking[..Min(from, |ranking|)] + Window(ranking, from, size) == ranking[..Min(from + size, |ranking|)]
  {
    assert ranking[..Min(from + size, |ranking|)] ==
           ranking[..Min(from, |ranking|)] + ranking[Min(from, |ranking|)..Min(from + size, |ranking|)];
  }

  /**
   * The second page of one result, over a ranking of two hits, holds the
   * second-ranked record alone and reports both matches.
   */
  lemma SecondPageOfTwo(es: Engine.Elasticsearch, index: string, query: string,
                        search: (string, SearchBody) -> SearchResponse)
    requires ServesWindows(search, index, query, [Hit("7"), Hit("3")])
    ensures QueryIndex(es, index, query, 2, 1, search) == Ok(Answer([3], 2))
  {
    var ranking := [Hit("7"), Hit("3")];
    var w := Window(ranking, (2 - 1) * 1, 1);
    assert w == [Hit("3")];
    assert Decimal.ParseInt("3") == Some(3);
    PageIsWindow(es, index, query, 2, 1, search, ranking);
    var ids := ParseIds(w).value;
    assert Decimal.ParseInt(w[0].id) == Some(ids[0]);
    assert ids == [3];
  }
}
