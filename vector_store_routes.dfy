/**
 * The vector-store routes of api/routers/vector_store_routes.py, over the ChromaDB
 * adapter: `create_vector` stores one chunk owned by the caller, `search_vectors` runs a
 * query scoped to the caller, and `answer_with_rag` answers a question from the
 * caller's three closest chunks.
 */
module VectorStoreRoutes {
  import opened Wrappers
  import opened PyStr
  import opened Schemas
  import opened GeminiUtils
  import opened ChromaDbUtils

  const UPSERTED_MESSAGE: string := "Vector upserted successfully to ChromaDB"

  /** `chunk.metadata["user_id"] = str(current_user["id"])`: the caller's id, whatever the client sent. */
  function OwnedMetadata(m: Metadata, userId: string): (r: Metadata)
    ensures r.Keys == m.Keys + {"user_id"}
    ensures r["user_id"] == VStr(userId)
    ensures forall k :: k in m && k != "user_id" ==> r[k] == m[k]
  {
    m["user_id" := VStr(userId)]
  }

  /** The status `create_vector` answers an upsert outcome with: `ValueError` is 400, any other failure 500. */
  function UpsertStatus(outcome: Outcome): (status: nat)
    ensures outcome.Done? <==> status == 201
    ensures outcome.Raised? && outcome.exc == ValueError <==> status == 400
    ensures status == 201 || status == 400 || status == 500
  {
    match outcome
    case Done => 201
    case Raised(ValueError) => 400
    case Raised(_) => 500
  }

  /**
   * What `create_vector` answers: 400 for an empty id or a blank text, before the store
   * is reached; otherwise the status of the upsert of the chunk owned by the caller.
   */
  function CreateStatus(chunk: ContentChunk, userId: string, embedder: Embedder, write: Outcome): (status: nat)
    ensures chunk.id == "" || IsBlank(chunk.text) ==> status == 400
    ensures status == 201 <==>
              chunk.id != "" && !IsBlank(chunk.text) &&
              UpsertOutcome(chunk.(metadata := OwnedMetadata(chunk.metadata, userId)), embedder, write).Done?
    ensures chunk.id != "" && !IsBlank(chunk.text) ==>
              status == UpsertStatus(UpsertOutcome(chunk.(metadata := OwnedMetadata(chunk.metadata, userId)), embedder, write))
  {
    StripFacts(chunk.text);
    if chunk.id == "" || Strip(chunk.text) == "" then 400
    else UpsertStatus(UpsertOutcome(chunk.(metadata := OwnedMetadata(chunk.metadata, userId)), embedder, write))
  }

  /**
   * `create_vector`. A stored chunk is always tagged with the caller's id: when the reply
   * is 201 the record under `chunk.id` carries `user_id` equal to the caller's id, and it
   * is the only record written; every other record keeps its value.
   */
  method CreateVector(collection: Collection, chunk: ContentChunk, userId: string, embedder: Embedder, write: Outcome)
    returns (r: Http<string>)
    requires collection.Valid()
    modifies collection
    ensures collection.Valid()
    ensures r.status == CreateStatus(chunk, userId, embedder, write)
    ensures r.Ok? <==> r.status == 201
    ensures r.Ok? ==> r.body == UPSERTED_MESSAGE
    ensures r.Ok? ==> chunk.id in collection.records && "user_id" in collection.records[chunk.id].metadata
                      && collection.records[chunk.id].metadata["user_id"] == VStr(userId)
    ensures var owned := chunk.(metadata := OwnedMetadata(chunk.metadata, userId));
            r.Ok? ==> collection.records == old(collection.records)[chunk.id :=
              Record(DocumentEmbedding(owned, embedder).value, CoerceMetadata(owned.metadata), chunk.text)]
    ensures r.Err? ==> collection.records == old(collection.records)
  {
    StripFacts(chunk.text);
    if chunk.id == "" {
      return Err(400);
    }
    if chunk.text == "" || Strip(chunk.text) == "" {
      return Err(400);
    }
    var owned := chunk.(metadata := OwnedMetadata(chunk.metadata, userId));
    var _, outcome := collection.Upsert(owned, embedder, write);
    if outcome.Done? {
      r := Ok(201, UPSERTED_MESSAGE);
    } else {
      r := Err(UpsertStatus(outcome));
    }
  }

  /** `QueryRequest` (api/schemas/content_schemas.py). */
  datatype QueryRequest = QueryRequest(queryText: string, topK: int)

  /**
   * What `search_vectors` answers: 400 for a blank query or a `top_k` below 1, and
   * otherwise 200 with the chunks of a query filtered on the caller's id.
   */
  function SearchResult(request: QueryRequest, userId: string, embedder: Embedder, searcher: Searcher)
    : (r: Http<seq<ContentChunk>>)
    ensures IsBlank(request.queryText) || request.topK <= 0 <==> r == Err(400)
    ensures r.Ok? || r == Err(400)
    ensures r.Ok? ==> r.status == 200 && r.body == Retrieved(request.queryText, request.topK, Some(userId), embedder, searcher)
  {
    StripFacts(request.queryText);
    if Strip(request.queryText) == "" || request.topK <= 0 then Err(400)
    else Ok(200, Retrieved(request.queryText, request.topK, Some(userId), embedder, searcher))
  }

  /** `search_vectors`. */
  method SearchVectors(request: QueryRequest, userId: string, embedder: Embedder, searcher: Searcher)
    returns (r: Http<seq<ContentChunk>>)
    ensures r == SearchResult(request, userId, embedder, searcher)
  {
    StripFacts(request.queryText);
    if request.queryText == "" || Strip(request.queryText) == "" {
      return Err(400);
    }
    if request.topK <= 0 {
      return Err(400);
    }
    var results := QueryVectors(request.queryText, request.topK, Some(userId), embedder, searcher);
    r := Ok(200, results);
  }

  /** The number of chunks `answer_with_rag` retrieves. */
  const RAG_TOP_K: int := 3
  const CONTEXT_SEPARATOR: string := "\n\n---\n\n"
  const NO_INFORMATION_ANSWER: string :=
    SORRY + "je n'ai trouvé aucune information pertinente dans vos notes stockées pour répondre à cette question."

  /** The texts of `chunks`, in order. */
  function Texts(chunks: seq<ContentChunk>): (r: seq<string>)
    ensures |r| == |chunks| && forall i :: 0 <= i < |chunks| ==> r[i] == chunks[i].text
  {
    seq(|chunks|, i requires 0 <= i < |chunks| => chunks[i].text)
  }

  /** The context given to the model: the retrieved texts joined by a rule between blank lines. */
  function Context(chunks: seq<ContentChunk>): string {
    Join(Texts(chunks), CONTEXT_SEPARATOR)
  }

  /**
   * What `answer_with_rag` answers: 400 for a blank question; the fixed "nothing
   * relevant" answer when the caller's three closest chunks are none; and otherwise the
   * answer generated from the question and the joined context, passed on unchanged.
   */
  function RagResult(question: string, userId: string, embedder: Embedder, searcher: Searcher,
                     model: (string, string) -> GenReply): (r: Http<string>)
    ensures IsBlank(question) <==> r == Err(400)
    ensures var found := Retrieved(question, RAG_TOP_K, Some(userId), embedder, searcher);
            !IsBlank(question) && found == [] ==> r == Ok(200, NO_INFORMATION_ANSWER)
    ensures var found := Retrieved(question, RAG_TOP_K, Some(userId), embedder, searcher);
            !IsBlank(question) && found != [] ==> r == Ok(200, GenerateAnswerWithRag(question, Context(found), model))
  {
    StripFacts(question);
    if Strip(question) == "" then Err(400)
    else
      var found := Retrieved(question, RAG_TOP_K, Some(userId), embedder, searcher);
      if found == [] then Ok(200, NO_INFORMATION_ANSWER)
      else Ok(200, GenerateAnswerWithRag(question, Context(found), model))
  }

  /** `answer_with_rag`. */
  method AnswerWithRag(question: string, userId: string, embedder: Embedder, searcher: Searcher,
                       model: (string, string) -> GenReply)
    returns (r: Http<string>)
    ensures r == RagResult(question, userId, embedder, searcher, model)
  {
    StripFacts(question);
    if question == "" || Strip(question) == "" {
      return Err(400);
    }
    var found := QueryVectors(question, RAG_TOP_K, Some(userId), embedder, searcher);
    if found == [] {
      return Ok(200, NO_INFORMATION_ANSWER);
    }
    var context := Context(found);
    var answer := GenerateAnswerWithRag(question, context, model);
    r := Ok(200, answer);
  }

  /** When nothing is retrieved the model is not consulted: any model gives the same reply. */
  lemma NoContextNoGeneration(question: string, userId: string, embedder: Embedder, searcher: Searcher,
                              model1: (string, string) -> GenReply, model2: (string, string) -> GenReply)
    requires Retrieved(question, RAG_TOP_K, Some(userId), embedder, searcher) == []
    ensures RagResult(question, userId, embedder, searcher, model1) == RagResult(question, userId, embedder, searcher, model2)
  {
  }

  /** Every retrieved text appears intact in the context the model is given. */
  lemma ContextHoldsEveryText(chunks: seq<ContentChunk>, i: nat)
    requires i < |chunks|
    ensures IsSubstring(chunks[i].text, Context(chunks))
  {
    JoinContains(Texts(chunks), CONTEXT_SEPARATOR, i);
  }

  /** A successful RAG reply is never empty and carries no surrounding whitespace. */
  lemma RagAnswerStripped(question: string, userId: string, embedder: Embedder, searcher: Searcher,
                          model: (string, string) -> GenReply)
    requires RagResult(question, userId, embedder, searcher, model).Ok?
    ensures var a := RagResult(question, userId, embedder, searcher, model).body;
            a != "" && IsStripped(a)
  {
    ApologiesStripped();
    assert |NO_INFORMATION_ANSWER| == 108 && NO_INFORMATION_ANSWER[0] == SORRY[0] && NO_INFORMATION_ANSWER[107] == '.';
  }
}
