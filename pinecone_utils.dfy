/**
 * The Pinecone adapter of api/utils/pinecone_utils.py. It obtains and checks the
 * embedding exactly as the ChromaDB adapter does (`DocumentEmbedding`, `UpsertOutcome`),
 * but stores every metadata value as a string and keeps the chunk text in the metadata
 * under `"text"`, from where a query reads it back.
 */
module PineconeUtils {
  import opened Wrappers
  import opened Schemas
  import opened GeminiUtils
  import ChromaDbUtils

  /** One stored metadata value: `str(v)`, with `None` stored as `""`. */
  function StoredValue(v: MetaValue): (r: string)
    ensures v.VNone? ==> r == ""
    ensures !v.VNone? ==> r == PyStrOf(v)
  {
    if v.VNone? then "" else PyStrOf(v)
  }

  /** The chunk metadata as a query gives it back: every value a string. */
  function Stringified(m: Metadata): (r: Metadata)
    ensures r.Keys == m.Keys
    ensures forall k :: k in r ==> r[k].VStr?
  {
    map k | k in m :: VStr(StoredValue(m[k]))
  }

  /**
   * `metadata_to_upsert`: the chunk text under `"text"`, then every chunk metadata value
   * stored as a string; a metadata key `"text"` comes later and so wins over the text.
   */
  function VectorMetadata(chunk: ContentChunk): (r: map<string, string>)
    ensures r.Keys == chunk.metadata.Keys + {"text"}
    ensures "text" !in chunk.metadata ==> r["text"] == chunk.text
    ensures forall k :: k in chunk.metadata ==> r[k] == StoredValue(chunk.metadata[k])
  {
    map["text" := chunk.text] + map k | k in chunk.metadata :: StoredValue(chunk.metadata[k])
  }

  /** A stored vector: its values and its string metadata. */
  datatype Vector = Vector(values: seq<real>, metadata: map<string, string>)

  /** The remote index. */
  class Index {
    var vectors: map<string, Vector>

    /** Every vector written through `upsert_vector` has the embedding dimension and a `"text"` entry. */
    ghost predicate Valid()
      reads this
    {
      forall id :: id in vectors ==> |vectors[id].values| == EMBEDDING_DIMENSION && "text" in vectors[id].metadata
    }

    constructor ()
      ensures vectors == map[] && Valid()
    {
      vectors := map[];
    }

    /**
     * `upsert_vector`: the same outcome as the ChromaDB adapter for the same embedding and
     * write; on success exactly the vector under `chunk.id` is (re)written, otherwise the
     * index is unchanged. A wrong dimension is caught before `index.upsert` is reached.
     */
    method Upsert(chunk: ContentChunk, embedder: Embedder, write: Outcome) returns (updated: ContentChunk, outcome: Outcome)
      requires Valid()
      modifies this
      ensures Valid()
      ensures outcome == ChromaDbUtils.UpsertOutcome(chunk, embedder, write)
      ensures var e := ChromaDbUtils.DocumentEmbedding(chunk, embedder);
              outcome.Done? ==> vectors == old(vectors)[chunk.id := Vector(e.value, VectorMetadata(chunk))]
      ensures outcome.Raised? ==> vectors == old(vectors)
      ensures var e := ChromaDbUtils.DocumentEmbedding(chunk, embedder);
              updated == if e.Success? then chunk.(embedding := Some(e.value)) else chunk
    {
      updated := chunk;
      if !chunk.HasEmbedding() {
        var e := CreateEmbedding(chunk.text, RetrievalDocument, embedder);
        if e.Failure? {
          return updated, Raised(e.error);
        }
        updated := updated.(embedding := Some(e.value));
      }
      var embedding := updated.embedding.value;
      if |embedding| != EMBEDDING_DIMENSION {
        return updated, Raised(ValueError);
      }
      var metadata := VectorMetadata(chunk);
      if write.Raised? {
        return updated, Raised(AdapterError(write.exc));
      }
      vectors := vectors[chunk.id := Vector(embedding, metadata)];
      outcome := Done;
    }
  }

  /** A Pinecone filter on one metadata field: `{field: {op: value}}`. */
  datatype FieldFilter = FieldFilter(field: string, op: string, value: string)

  /** `query_filter`: `{"user_id": {"$eq": user_id}}` exactly when `user_id` is truthy. */
  function EqFilter(userId: Option<string>): (r: Option<FieldFilter>)
    ensures r.Some? <==> userId.Some? && userId.value != ""
    ensures r.Some? ==> r.value.field == "user_id" && r.value.op == "$eq" && r.value.value == userId.value
  {
    if userId.Some? && userId.value != "" then Some(FieldFilter("user_id", "$eq", userId.value)) else None
  }

  /** One match of a query: its id, its metadata (absent when `None`) and its score. */
  datatype Match = Match(id: string, metadata: Option<map<string, string>>, score: real)

  /** The reply of `index.query`: it raised, or it gave its matches (`None` read as none). */
  datatype QueryReply = QueryRaised | Matches(matches: seq<Match>)

  /** The backend query, on the query embedding, `top_k` and the filter. */
  type Searcher = (seq<real>, int, Option<FieldFilter>) -> QueryReply

  /**
   * The chunk rebuilt from a match: the text read from `"text"` (`""` when absent), the
   * other entries as metadata, the match score and no embedding.
   */
  function MatchChunk(m: Match): (r: ContentChunk)
    ensures r.id == m.id && r.score == Some(m.score) && r.embedding.None?
    ensures "text" !in r.metadata
    ensures m.metadata.Some? && "text" in m.metadata.value ==> r.text == m.metadata.value["text"]
    ensures m.metadata.None? || "text" !in m.metadata.value ==> r.text == ""
    ensures m.metadata.Some? ==> r.metadata.Keys == m.metadata.value.Keys - {"text"}
    ensures m.metadata.Some? ==> forall k :: k in r.metadata ==> r.metadata[k] == VStr(m.metadata.value[k])
    ensures m.metadata.None? ==> r.metadata == map[]
  {
    var md := m.metadata.GetOr(map[]);
    ContentChunk(m.id, if "text" in md then md["text"] else "", map k | k in md && k != "text" :: VStr(md[k]), None, Some(m.score))
  }

  /** The matches rebuilt in order. */
  function MatchChunks(ms: seq<Match>): (r: seq<ContentChunk>)
    ensures |r| == |ms|
    ensures forall i :: 0 <= i < |ms| ==> r[i] == MatchChunk(ms[i])
  {
    seq(|ms|, i requires 0 <= i < |ms| => MatchChunk(ms[i]))
  }

  /**
   * What `query_vectors` returns: the matches rebuilt in their order, and `[]` when the
   * query embedding or the backend raised.
   */
  function Retrieved(queryText: string, topK: int, userId: Option<string>, embedder: Embedder, searcher: Searcher): (r: seq<ContentChunk>)
    ensures CreateEmbedding(queryText, RetrievalQuery, embedder).Failure? ==> r == []
    ensures var e := CreateEmbedding(queryText, RetrievalQuery, embedder);
            e.Success? ==>
              var reply := searcher(e.value, topK, EqFilter(userId));
              (reply.QueryRaised? ==> r == []) && (reply.Matches? ==> r == MatchChunks(reply.matches))
  {
    var e := CreateEmbedding(queryText, RetrievalQuery, embedder);
    if e.Failure? then []
    else
      var reply := searcher(e.value, topK, EqFilter(userId));
      if reply.QueryRaised? then [] else MatchChunks(reply.matches)
  }

  /** `query_vectors`: the results list built by the loop over the matches. */
  method QueryVectors(queryText: string, topK: int, userId: Option<string>, embedder: Embedder, searcher: Searcher)
    returns (results: seq<ContentChunk>)
    ensures results == Retrieved(queryText, topK, userId, embedder, searcher)
  {
    var e := CreateEmbedding(queryText, RetrievalQuery, embedder);
    if e.Failure? {
      return [];
    }
    var reply := searcher(e.value, topK, EqFilter(userId));
    if reply.QueryRaised? {
      return [];
    }
    results := [];
    for i := 0 to |reply.matches|
      invariant results == MatchChunks(reply.matches[..i])
    {
      assert reply.matches[..i + 1] == reply.matches[..i] + [reply.matches[i]];
      results := results + [MatchChunk(reply.matches[i])];
    }
    assert reply.matches[..|reply.matches|] == reply.matches;
  }

  /**
   * Round trip: a chunk whose metadata has no `"text"` key, once upserted and returned as a
   * match, comes back with its own text and its metadata stored as strings.
   */
  lemma RoundTrip(chunk: ContentChunk, score: real)
    requires "text" !in chunk.metadata
    ensures var r := MatchChunk(Match(chunk.id, Some(VectorMetadata(chunk)), score));
            r.text == chunk.text && r.metadata == Stringified(chunk.metadata) && r.id == chunk.id
  {
    var r := MatchChunk(Match(chunk.id, Some(VectorMetadata(chunk)), score));
    assert r.metadata.Keys == Stringified(chunk.metadata).Keys;
  }

  /**
   * A metadata key `"text"` takes the place of the chunk text: the query gives back the
   * stored form of that value as text, and the key is not in the returned metadata.
   */
  lemma TextKeyClobbers(chunk: ContentChunk, score: real)
    requires "text" in chunk.metadata
    ensures var r := MatchChunk(Match(chunk.id, Some(VectorMetadata(chunk)), score));
            r.text == StoredValue(chunk.metadata["text"]) && r.metadata == Stringified(chunk.metadata) - {"text"}
  {
    var r := MatchChunk(Match(chunk.id, Some(VectorMetadata(chunk)), score));
    assert r.metadata.Keys == (Stringified(chunk.metadata) - {"text"}).Keys;
  }
}
