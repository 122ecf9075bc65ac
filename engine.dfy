/**
 * The search engine as the index-access layer sees it: a set of named
 * indices, each holding documents under a text id.
 *
 * The engine's behaviour is not part of the application; what the model
 * relies on is stated here as explicit assumptions: `index` stores the body
 * under the id, replacing any earlier document there (and creates the index
 * when it is missing); `delete` removes the document and reports whether it
 * was there. Ranking is not modelled (see Search.QueryIndex).
 */
module Engine {
  import opened Wrappers

  /** A stored document: field name to field value. */
  type Payload = map<string, string>

  /** The engine's content: index name to (document id to document). */
  type Store = map<string, map<string, Payload>>

  function Get(s: Store, index: string, id: string): (r: Option<Payload>)
    ensures r.Some? <==> index in s && id in s[index]
  {
    if index in s && id in s[index] then Some(s[index][id]) else None
  }

  /** The store after the engine has indexed `body` under (index, id). */
  function Put(s: Store, index: string, id: string, body: Payload): (r: Store)
    ensures Get(r, index, id) == Some(body)
    ensures forall i, k :: (i, k) != (index, id) ==> Get(r, i, k) == Get(s, i, k)
  {
    var docs := if index in s then s[index] else map[];
    s[index := docs[id := body]]
  }

  /** The store after the engine has deleted (index, id); the index itself stays. */
  function Drop(s: Store, index: string, id: string): (r: Store)
    ensures Get(r, index, id) == None
    ensures forall i, k :: (i, k) != (index, id) ==> Get(r, i, k) == Get(s, i, k)
    ensures Get(s, index, id) == None ==> r == s
  {
    if index in s && id in s[index] then s[index := s[index] - {id}] else s
  }

  /** The engine client held by the application. */
  class Elasticsearch {
    var indices: Store

    constructor ()
      ensures indices == map[]
    {
      indices := map[];
    }

    /** Upsert: the document at (index, id) becomes `body`. */
    method Index(index: string, id: string, body: Payload)
      modifies this
      ensures indices == Put(old(indices), index, id, body)
    {
      indices := Put(indices, index, id, body);
    }

    /** Delete (index, id); `found` tells whether there was a document to delete. */
    method Delete(index: string, id: string) returns (found: bool)
      modifies this
      ensures found == Get(old(indices), index, id).Some?
      ensures indices == Drop(old(indices), index, id)
    {
      found := index in indices && id in indices[index];
      indices := Drop(indices, index, id);
    }
  }
}
