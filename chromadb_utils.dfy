/**
 * The ChromaDB adapter of api/utils/chromadb_utils.py: `upsert_vector` writes one chunk
 * into the remote collection, `query_vectors` turns a similarity query into chunks.
 *
 * The collection is the map from id to record the server keeps. What the server does
 * on a write or a query is outside the model: the write is given by how it ended, and
 * the query by the reply it produced for the embedding, `top_k` and `where` filter the
 * adapter passed.
 */
module ChromaDbUtils {
  import opened Wrappers
  import opened Schemas
  import opened GeminiUtils

  /** A metadata value ChromaDB stores as it is: `None`, `str`, `int`, `float` or `bool`. */
  predicate Storable(v: MetaValue) {
    !v.VOther?
  }

  predicate StorableMetadata(m: Metadata) {
    forall k :: k in m ==> Storable(m[k])
  }

  /** One value of the metadata comprehension: kept when storable, replaced by `str(v)` otherwise. */
  function CoerceValue(v: MetaValue): (r: MetaValue)
    ensures Storable(r)
    ensures Storable(v) ==> r == v
    ensures PyStrOf(r) == PyStrOf(v)
  {
    if v.VOther? then VStr(v.repr) else v
  }

  /**
   * `metadata_to_upsert`: the same keys, every value storable and printing as before,
   * and metadata that is already storable passes through unchanged.
   */
  function CoerceMetadata(m: Metadata): (r: Metadata)
    ensures r.Keys == m.Keys
    ensures StorableMetadata(r)
    ensures forall k :: k in m ==> PyStrOf(r[k]) == PyStrOf(m[k])
    ensures forall k :: k in m && Storable(m[k]) ==> r[k] == m[k]
    ensures StorableMetadata(m) ==> r == m
  {
    map k | k in m :: CoerceValue(m[k])
  }

  /**
   * The embedding `upsert_vector` goes on with: the chunk's own when it is non-empty,
   * and otherwise a `RETRIEVAL_DOCUMENT` embedding of its text, whose failure is a
   * `ValueError`.
   */
  function DocumentEmbedding(chunk: ContentChunk, embedder: Embedder): (r: Result<seq<real>, Exc>)
    ensures chunk.HasEmbedding() ==> r == Success(chunk.embedding.value)
    ensures r.Success? ==> r.value != []
    ensures r.Failure? ==> !chunk.HasEmbedding() && r.error == ValueError
  {
    if chunk.HasEmbedding() then Success(chunk.embedding.value)
    else CreateEmbedding(chunk.text, RetrievalDocument, embedder)
  }

  /**
   * How `upsert_vector` ends when the backend write ends with `write`: it succeeds exactly
   * when the embedding was obtained, has `EMBEDDING_DIMENSION` entries and the write went
   * through; a failed embedding and a wrong dimension are `ValueError`s, and a failed write
   * is re-raised as a `ValueError` or wrapped in a `RuntimeError`.
   */
  function UpsertOutcome(chunk: ContentChunk, embedder: Embedder, write: Outcome): (r: Outcome)
    ensures var e := DocumentEmbedding(chunk, embedder);
            r.Done? <==> e.Success? && |e.value| == EMBEDDING_DIMENSION && write.Done?
    ensures r.Raised? ==> r.exc == ValueError || r.exc == RuntimeError
    ensures var e := DocumentEmbedding(chunk, embedder);
            r.Raised? && r.exc == RuntimeError <==>
              e.Success? && |e.value| == EMBEDDING_DIMENSION && write.Raised? && write.exc != ValueError
  {
    var e := DocumentEmbedding(chunk, embedder);
    if e.Failure? then Raised(e.error)
    else if |e.value| != EMBEDDING_DIMENSION then Raised(ValueError)
    else if write.Raised? then Raised(AdapterError(write.exc))
    else Done
  }

  /** A stored record: the embedding, the coerced metadata and the chunk text as document. */
  datatype Record = Record(embedding: seq<real>, metadata: Metadata, document: string)

  /** The remote collection. */
  class Collection {
    var records: map<string, Record>

    /** Every record written through `upsert_vector` has the embedding dimension and storable metadata. */
    ghost predicate Valid()
      reads this
    {
      forall id :: id in records ==>
        |records[id].embedding| == EMBEDDING_DIMENSION && StorableMetadata(records[id].metadata)
    }

    constructor ()
      ensures records == map[] && Valid()
    {
      records := map[];
    }

    /**
     * `upsert_vector`. `write` is how `collection.upsert` ends, and a write that raises
     * changes nothing. On success exactly the record under `chunk.id` is (re)written;
     * otherwise the collection is as it was. The chunk comes back with the embedding
     * assigned to it when one was computed.
     */
    method Upsert(chunk: ContentChunk, embedder: Embedder, write: Outcome) returns (updated: ContentChunk, outcome: Outcome)
      requires Valid()
      modifies this
      ensures Valid()
      ensures outcome == UpsertOutcome(chunk, embedder, write)
      ensures var e := DocumentEmbedding(chunk, embedder);
              outcome.Done? ==>
                records == old(records)[chunk.id := Record(e.value, CoerceMetadata(chunk.metadata), chunk.text)]
      ensures outcome.Raised? ==> records == old(records)
      ensures var e := DocumentEmbedding(chunk, embedder);
              updated == if e.Success? then chunk.(embedding := Some(e.value)) else chunk
    {
      updated := chunk;
      if !chunk.HasEmbedding() {
        var e := CreateEmbedding(chunk.text, RetrievalDocument, embedder);
        if e.Failure? {
          return updated, Raised(e.error);
        }
        updated := updated.(embedding := Some(e.value));
      }
      var embedding := updated.embedding.value;
      if |embedding| != EMBEDDING_DIMENSION {
        return updated, Raised(ValueError);
      }
      var metadata := CoerceMetadata(chunk.metadata);
      if write.Raised? {
        return updated, Raised(AdapterError(write.exc));
      }
      records := records[chunk.id := Record(embedding, metadata, chunk.text)];
      outcome := Done;
    }
  }

  /** `where_filter`: the user id to match, passed exactly when `user_id` is truthy. */
  function WhereFilter(userId: Option<string>): (r: Option<string>)
    ensures r.Some? <==> userId.Some? && userId.value != ""
    ensures r.Some? ==> r == userId
  {
    if userId.Some? && userId.value != "" then userId else None
  }

  /**
   * The reply of `collection.query`: it raised, or it returned the first row of each of
   * `ids`, `documents`, `metadatas` and `distances` (a missing reply or a missing or
   * empty `ids` row is read as `ids == []`). A document, metadata or distance entry may
   * be `None`.
   */
  datatype QueryReply =
    | QueryRaised
    | QueryRows(ids: seq<string>, documents: seq<Option<string>>, metadatas: seq<Option<Metadata>>,
                distances: seq<Option<real>>)
  {
    /**
     * Row `i` can be read and makes a valid `ContentChunk`: every row has an entry at
     * `i` (otherwise `IndexError`), and the document and metadata are not `None`
     * (otherwise the `str` text or the `Dict` metadata fails validation). The score may be `None`.
     */
    predicate RowOk(i: nat)
      requires QueryRows?
    {
      i < |documents| && i < |metadatas| && i < |distances| && documents[i].Some? && metadatas[i].Some?
    }

    /** Every returned id has a readable row; otherwise the rebuild raises. */
    predicate Complete()
      requires QueryRows?
    {
      forall i: nat :: i < |ids| ==> RowOk(i)
    }
  }

  /** The backend query, on the query embedding, `n_results` and the `where` filter. */
  type Searcher = (seq<real>, int, Option<string>) -> QueryReply

  /** The reply `query_vectors` works on, when the query embedding was obtained. */
  function Reply(queryText: string, topK: int, userId: Option<string>, embedder: Embedder, searcher: Searcher): Option<QueryReply> {
    var e := CreateEmbedding(queryText, RetrievalQuery, embedder);
    if e.Failure? then None else Some(searcher(e.value, topK, WhereFilter(userId)))
  }

  /** The chunk rebuilt from row `i` of a reply. */
  function RowChunk(reply: QueryReply, i: nat): ContentChunk
    requires reply.QueryRows? && i < |reply.ids| && reply.RowOk(i)
  {
    ContentChunk(reply.ids[i], reply.documents[i].value, reply.metadatas[i].value, None, reply.distances[i])
  }

  /**
   * What `query_vectors` returns: one chunk per returned id, in the backend's order, with
   * the document as text, the metadata as stored, the distance as score and no embedding;
   * and `[]` whenever anything raised (the query embedding, the backend, an index read, or
   * the validation of a row with a `None` document or metadata).
   */
  function Retrieved(queryText: string, topK: int, userId: Option<string>, embedder: Embedder, searcher: Searcher): (r: seq<ContentChunk>)
    ensures var reply := Reply(queryText, topK, userId, embedder, searcher);
            reply.Some? && reply.value.QueryRows? && reply.value.Complete() ==>
              |r| == |reply.value.ids| &&
              forall i :: 0 <= i < |r| ==>
                reply.value.RowOk(i) && r[i].id == reply.value.ids[i] && Some(r[i].text) == reply.value.documents[i] &&
                Some(r[i].metadata) == reply.value.metadatas[i] && r[i].score == reply.value.distances[i]
    ensures var reply := Reply(queryText, topK, userId, embedder, searcher);
            reply.None? || reply.value.QueryRaised? || !reply.value.Complete() ==> r == []
    ensures forall i :: 0 <= i < |r| ==> r[i].embedding.None?
  {
    var reply := Reply(queryText, topK, userId, embedder, searcher);
    if reply.None? || reply.value.QueryRaised? || !reply.value.Complete() then []
    else seq(|reply.value.ids|, i requires 0 <= i < |reply.value.ids| => RowChunk(reply.value, i))
  }

  /** `query_vectors`: the results list built by the indexed loop, any exception read as `[]`. */
  method QueryVectors(queryText: string, topK: int, userId: Option<string>, embedder: Embedder, searcher: Searcher)
    returns (results: seq<ContentChunk>)
    ensures results == Retrieved(queryText, topK, userId, embedder, searcher)
  {
    var e := CreateEmbedding(queryText, RetrievalQuery, embedder);
    if e.Failure? {
      return [];
    }
    var reply := searcher(e.value, topK, WhereFilter(userId));
    if reply.QueryRaised? {
      return [];
    }
    results := [];
    for i := 0 to |reply.ids|
      invariant |results| == i
      invariant forall j :: 0 <= j < i ==> reply.RowOk(j) && results[j] == RowChunk(reply, j)
    {
      if i >= |reply.distances| || i >= |reply.documents| || i >= |reply.metadatas| {
        assert !reply.RowOk(i);
        return [];
      }
      if reply.documents[i].None? || reply.metadatas[i].None? {
        assert !reply.RowOk(i);
        return [];
      }
      results := results + [ContentChunk(reply.ids[i], reply.documents[i].value, reply.metadatas[i].value, None, reply.distances[i])];
    }
  }
}
