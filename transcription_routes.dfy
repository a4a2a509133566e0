/**
 * `store_transcription` (api/routers/transcription_routes.py): check the text, build the
 * base metadata, chunk the text, and upsert the chunks one after the other into the
 * ChromaDB collection, skipping a chunk whose upsert raised a `ValueError` (or anything
 * but a `RuntimeError`) and stopping at the first `RuntimeError`.
 *
 * The caller's id, the clock reading, the embedding service, the outcome of each
 * backend write, the paragraph split and the uuid source are parameters.
 */
module TranscriptionRoutes {
  import opened Wrappers
  import opened PyStr
  import opened Schemas
  import opened GeminiUtils
  import opened TextUtils
  import opened ChromaDbUtils
  import ChunkProperties

  /** `TranscriptionRequest` (api/schemas/transcription_schemas.py). */
  datatype TranscriptionRequest = TranscriptionRequest(
    text: string,
    source: string,
    metadata: Metadata,
    chunkSize: int,
    chunkOverlap: int)

  /** `TranscriptionResponse` (api/schemas/transcription_schemas.py). */
  datatype TranscriptionResponse = TranscriptionResponse(message: string, chunkIds: seq<string>, chunkCount: nat)

  /** The keys the route itself puts in the base metadata. */
  const BASE_KEYS: set<string> := {"source", "user_id", "timestamp", "embedding_model", "dimension"}

  /**
   * `base_metadata`: the source, the caller's id, the time, the embedding model and the
   * dimension, followed by the client's metadata, whose keys win — `user_id` included.
   */
  function BaseMetadata(request: TranscriptionRequest, userId: string, timestamp: string): (r: Metadata)
    ensures r.Keys == BASE_KEYS + request.metadata.Keys
    ensures forall k :: k in request.metadata ==> r[k] == request.metadata[k]
    ensures "source" !in request.metadata ==> r["source"] == VStr(request.source)
    ensures "user_id" !in request.metadata ==> r["user_id"] == VStr(userId)
    ensures "timestamp" !in request.metadata ==> r["timestamp"] == VStr(timestamp)
    ensures "embedding_model" !in request.metadata ==> r["embedding_model"] == VStr(EMBEDDING_MODEL_NAME)
    ensures "dimension" !in request.metadata ==> r["dimension"] == VInt(EMBEDDING_DIMENSION)
  {
    map[
      "source" := VStr(request.source),
      "user_id" := VStr(userId),
      "timestamp" := VStr(timestamp),
      "embedding_model" := VStr(EMBEDDING_MODEL_NAME),
      "dimension" := VInt(EMBEDDING_DIMENSION)
    ] + request.metadata
  }

  /** The chunk handed to `upsert_vector`: both branches on `auto_embed` clear the embedding. */
  function Cleared(chunk: ContentChunk, autoEmbed: bool): (r: ContentChunk)
    ensures r == chunk.(embedding := None)
    ensures !r.HasEmbedding()
  {
    if autoEmbed then chunk.(embedding := None) else chunk.(embedding := None)
  }

  /** Where the upsert loop stands: the ids stored so far, whether it stopped, and the collection. */
  datatype Progress = Progress(ids: seq<string>, aborted: bool, records: map<string, Record>)

  /** One turn of the upsert loop over the chunk at position `i`, whose backend write ends with `write`. */
  function UpsertStep(p: Progress, chunk: ContentChunk, autoEmbed: bool, embedder: Embedder, write: Outcome): Progress {
    if p.aborted then p
    else
      var c := Cleared(chunk, autoEmbed);
      var outcome := UpsertOutcome(c, embedder, write);
      if outcome.Done? then
        Progress(p.ids + [chunk.id], false,
                 p.records[chunk.id := Record(DocumentEmbedding(c, embedder).value, CoerceMetadata(c.metadata), c.text)])
      else if outcome.exc == RuntimeError then p.(aborted := true)
      else p
  }

  /** The upsert loop over `chunks`, from the collection `records`; `writes(i)` is how the i-th write ends. */
  function Stored(chunks: seq<ContentChunk>, autoEmbed: bool, embedder: Embedder, writes: nat -> Outcome,
                  records: map<string, Record>): (r: Progress)
    ensures |r.ids| <= |chunks|
  {
    if chunks == [] then Progress([], false, records)
    else
      var n := |chunks| - 1;
      UpsertStep(Stored(chunks[..n], autoEmbed, embedder, writes, records), chunks[n], autoEmbed, embedder, writes(n))
  }

  const STORED_PREFIX: string := "Transcription stockée avec succès dans ChromaDB. "

  /** The success message, with the count of stored chunks out of all chunks. */
  function Message(processed: nat, total: nat): string {
    STORED_PREFIX + NatToString(processed) + "/" + NatToString(total) + " chunks traités."
  }

  /**
   * The reply of `store_transcription` and the collection it leaves: 400 for a blank text
   * or no chunks, 503 when a write failed with a `RuntimeError` (the collection keeps the
   * chunks stored before it), 500 when no chunk was stored, and otherwise 200 with the
   * ids stored, in order, and their count.
   */
  function StoreResult(request: TranscriptionRequest, autoEmbed: bool, userId: string, timestamp: string,
                       embedder: Embedder, writes: nat -> Outcome, split: string -> seq<string>, uuid: nat -> string,
                       records: map<string, Record>): (r: (Http<TranscriptionResponse>, map<string, Record>))
    ensures IsBlank(request.text) ==> r == (Err(400), records)
    ensures r.0.Err? ==> r.0.status == 400 || r.0.status == 500 || r.0.status == 503
    ensures r.0.Ok? ==> r.0.status == 200 && r.0.body.chunkCount == |r.0.body.chunkIds| >= 1
    ensures var chunks := Chunks(request.text, split, request.chunkSize, request.chunkOverlap,
                                 BaseMetadata(request, userId, timestamp), uuid);
            var p := Stored(chunks, autoEmbed, embedder, writes, records);
            !IsBlank(request.text) && chunks != [] ==>
              && r.1 == p.records
              && (r.0 == Err(503) <==> p.aborted)
              && (r.0 == Err(500) <==> !p.aborted && p.ids == [])
              && (r.0.Ok? <==> !p.aborted && p.ids != [])
              && (r.0.Ok? ==> r.0.body.chunkIds == p.ids && r.0.body.message == Message(|p.ids|, |chunks|))
  {
    StripFacts(request.text);
    if Strip(request.text) == "" then (Err(400), records)
    else
      var chunks := Chunks(request.text, split, request.chunkSize, request.chunkOverlap,
                           BaseMetadata(request, userId, timestamp), uuid);
      if chunks == [] then (Err(400), records)
      else
        var p := Stored(chunks, autoEmbed, embedder, writes, records);
        if p.aborted then (Err(503), p.records)
        else if p.ids == [] then (Err(500), p.records)
        else (Ok(200, TranscriptionResponse(Message(|p.ids|, |chunks|), p.ids, |p.ids|)), p.records)
  }

  /** The loop over the first `i + 1` chunks is the loop over the first `i` and one more turn. */
  lemma StoredSnoc(chunks: seq<ContentChunk>, i: nat, autoEmbed: bool, embedder: Embedder, writes: nat -> Outcome,
                   records: map<string, Record>)
    requires i < |chunks|
    ensures Stored(chunks[..i + 1], autoEmbed, embedder, writes, records)
            == UpsertStep(Stored(chunks[..i], autoEmbed, embedder, writes, records), chunks[i], autoEmbed, embedder, writes(i))
  {
    assert chunks[..i + 1][..i] == chunks[..i];
  }

  /** Once the loop has stopped, the chunks after that point change nothing. */
  lemma {:induction false} AbortedStays(chunks: seq<ContentChunk>, k: nat, autoEmbed: bool, embedder: Embedder,
                                         writes: nat -> Outcome, records: map<string, Record>)
    requires k <= |chunks| && Stored(chunks[..k], autoEmbed, embedder, writes, records).aborted
    ensures Stored(chunks, autoEmbed, embedder, writes, records) == Stored(chunks[..k], autoEmbed, embedder, writes, records)
    decreases |chunks| - k
  {
    if k < |chunks| {
      var n := |chunks| - 1;
      assert chunks[..n][..k] == chunks[..k];
      AbortedStays(chunks[..n], k, autoEmbed, embedder, writes, records);
    } else {
      assert chunks[..k] == chunks;
    }
  }

  /** The ids of `chunks`, in order. */
  function ChunkIds(chunks: seq<ContentChunk>): (r: seq<string>)
    ensures |r| == |chunks| && forall i :: 0 <= i < |chunks| ==> r[i] == chunks[i].id
  {
    seq(|chunks|, i requires 0 <= i < |chunks| => chunks[i].id)
  }

  /** `xs` is `ys` with some elements left out, the rest in their order. */
  predicate Subsequence(xs: seq<string>, ys: seq<string>)
    decreases |ys|
  {
    if ys == [] then xs == []
    else
      || (xs != [] && xs[|xs| - 1] == ys[|ys| - 1] && Subsequence(xs[..|xs| - 1], ys[..|ys| - 1]))
      || Subsequence(xs, ys[..|ys| - 1])
  }

  /** `chunk_ids` lists the stored chunks in the order they were chunked, each at most once. */
  lemma {:induction false} StoredIdsInOrder(chunks: seq<ContentChunk>, autoEmbed: bool, embedder: Embedder,
                                             writes: nat -> Outcome, records: map<string, Record>)
    ensures Subsequence(Stored(chunks, autoEmbed, embedder, writes, records).ids, ChunkIds(chunks))
  {
    if chunks != [] {
      var n := |chunks| - 1;
      var p := Stored(chunks[..n], autoEmbed, embedder, writes, records);
      StoredIdsInOrder(chunks[..n], autoEmbed, embedder, writes, records);
      assert ChunkIds(chunks)[..n] == ChunkIds(chunks[..n]);
      var q := Stored(chunks, autoEmbed, embedder, writes, records);
      if q.ids != p.ids {
        assert q.ids == p.ids + [chunks[n].id];
        assert q.ids[..|q.ids| - 1] == p.ids;
      }
    }
  }

  /**
   * A chunk whose upsert raises a `ValueError` is skipped: a failed embedding, a wrong
   * dimension, or a `ValueError` from the backend write. The loop goes on with the next
   * chunk, nothing is written and nothing is counted.
   */
  lemma ValueErrorSkips(chunks: seq<ContentChunk>, i: nat, autoEmbed: bool, embedder: Embedder,
                        writes: nat -> Outcome, records: map<string, Record>)
    requires i < |chunks| && UpsertOutcome(Cleared(chunks[i], autoEmbed), embedder, writes(i)) == Raised(ValueError)
    ensures Stored(chunks[..i + 1], autoEmbed, embedder, writes, records) == Stored(chunks[..i], autoEmbed, embedder, writes, records)
  {
    StoredSnoc(chunks, i, autoEmbed, embedder, writes, records);
  }

  /** A write that fails with anything but a `ValueError`, after a good embedding, stops the loop. */
  lemma WriteFailureAborts(chunks: seq<ContentChunk>, i: nat, autoEmbed: bool, embedder: Embedder,
                           writes: nat -> Outcome, records: map<string, Record>)
    requires i < |chunks| && writes(i).Raised? && writes(i).exc != ValueError
    requires var e := CreateEmbedding(chunks[i].text, RetrievalDocument, embedder);
             e.Success? && |e.value| == EMBEDDING_DIMENSION
    ensures Stored(chunks[..i + 1], autoEmbed, embedder, writes, records).aborted
    ensures Stored(chunks, autoEmbed, embedder, writes, records).records
            == Stored(chunks[..i], autoEmbed, embedder, writes, records).records
  {
    StoredSnoc(chunks, i, autoEmbed, embedder, writes, records);
    AbortedStays(chunks, i + 1, autoEmbed, embedder, writes, records);
  }

  /**
   * For a text with a non-blank character the reply follows the upsert loop alone: 503
   * exactly when a write raised a `RuntimeError`, 500 exactly when no chunk was stored
   * otherwise, and 200 with the stored ids, in chunk order; the collection is the one the
   * loop left.
   */
  lemma StoreStatus(request: TranscriptionRequest, autoEmbed: bool, userId: string, timestamp: string,
                    embedder: Embedder, writes: nat -> Outcome, split: string -> seq<string>,
                    uuid: nat -> string, records: map<string, Record>)
    requires !IsBlank(request.text)
    ensures var chunks := Chunks(request.text, split, request.chunkSize, request.chunkOverlap,
                                 BaseMetadata(request, userId, timestamp), uuid);
            var p := Stored(chunks, autoEmbed, embedder, writes, records);
            var r := StoreResult(request, autoEmbed, userId, timestamp, embedder, writes, split, uuid, records);
            && r.1 == p.records
            && (r.0 == Err(503) <==> p.aborted)
            && (r.0 == Err(500) <==> !p.aborted && p.ids == [])
            && (r.0.Ok? ==> r.0.body.chunkIds == p.ids && Subsequence(r.0.body.chunkIds, ChunkIds(chunks)))
  {
    var chunks := Chunks(request.text, split, request.chunkSize, request.chunkOverlap,
                         BaseMetadata(request, userId, timestamp), uuid);
    StripFacts(request.text);
    ChunkProperties.NonBlankTextHasChunks(request.text, split, request.chunkSize, request.chunkOverlap,
                                          BaseMetadata(request, userId, timestamp), uuid);
    StoredIdsInOrder(chunks, autoEmbed, embedder, writes, records);
  }

  /**
   * A write of chunk `i` that raises anything but a `ValueError`, after its embedding was
   * obtained with the right dimension, makes the reply 503, and the collection keeps
   * exactly what the chunks before `i` stored.
   */
  lemma RuntimeErrorGives503(request: TranscriptionRequest, autoEmbed: bool, userId: string, timestamp: string,
                             embedder: Embedder, writes: nat -> Outcome, split: string -> seq<string>,
                             uuid: nat -> string, records: map<string, Record>, i: nat)
    requires !IsBlank(request.text)
    requires var chunks := Chunks(request.text, split, request.chunkSize, request.chunkOverlap,
                                  BaseMetadata(request, userId, timestamp), uuid);
             && i < |chunks| && writes(i).Raised? && writes(i).exc != ValueError
             && var e := CreateEmbedding(chunks[i].text, RetrievalDocument, embedder);
                e.Success? && |e.value| == EMBEDDING_DIMENSION
    ensures var chunks := Chunks(request.text, split, request.chunkSize, request.chunkOverlap,
                                 BaseMetadata(request, userId, timestamp), uuid);
            StoreResult(request, autoEmbed, userId, timestamp, embedder, writes, split, uuid, records)
            == (Err(503), Stored(chunks[..i], autoEmbed, embedder, writes, records).records)
  {
    var chunks := Chunks(request.text, split, request.chunkSize, request.chunkOverlap,
                         BaseMetadata(request, userId, timestamp), uuid);
    WriteFailureAborts(chunks, i, autoEmbed, embedder, writes, records);
    AbortedStays(chunks, i + 1, autoEmbed, embedder, writes, records);
  }

  /** The loop does the same whatever `auto_embed` is. */
  lemma {:induction false} StoredAutoEmbed(chunks: seq<ContentChunk>, embedder: Embedder, writes: nat -> Outcome,
                                            records: map<string, Record>)
    ensures Stored(chunks, true, embedder, writes, records) == Stored(chunks, false, embedder, writes, records)
  {
    if chunks != [] {
      StoredAutoEmbed(chunks[..|chunks| - 1], embedder, writes, records);
    }
  }

  /** `auto_embed` has no effect on the reply or on what is stored. */
  lemma AutoEmbedIrrelevant(request: TranscriptionRequest, userId: string, timestamp: string, embedder: Embedder,
                            writes: nat -> Outcome, split: string -> seq<string>, uuid: nat -> string,
                            records: map<string, Record>)
    ensures StoreResult(request, true, userId, timestamp, embedder, writes, split, uuid, records)
            == StoreResult(request, false, userId, timestamp, embedder, writes, split, uuid, records)
  {
    var chunks := Chunks(request.text, split, request.chunkSize, request.chunkOverlap,
                         BaseMetadata(request, userId, timestamp), uuid);
    StoredAutoEmbed(chunks, embedder, writes, records);
  }

  /**
   * A text with a non-blank character always yields chunks, so the 400 for "no chunks"
   * is only ever given for a blank text, by the first check.
   */
  lemma NoChunksOnlyWhenBlank(request: TranscriptionRequest, autoEmbed: bool, userId: string, timestamp: string,
                              embedder: Embedder, writes: nat -> Outcome, split: string -> seq<string>,
                              uuid: nat -> string, records: map<string, Record>)
    ensures StoreResult(request, autoEmbed, userId, timestamp, embedder, writes, split, uuid, records).0 == Err(400)
            <==> IsBlank(request.text)
  {
    StripFacts(request.text);
    if !IsBlank(request.text) {
      ChunkProperties.NonBlankTextHasChunks(request.text, split, request.chunkSize, request.chunkOverlap,
                                            BaseMetadata(request, userId, timestamp), uuid);
    }
  }

  /**
   * The upsert loop of `store_transcription`: it appends the id of every chunk stored and
   * counts it, skips a chunk on a `ValueError` or any other exception, and stops at the
   * first `RuntimeError`.
   */
  method UpsertChunks(collection: Collection, chunks: seq<ContentChunk>, autoEmbed: bool, embedder: Embedder,
                      writes: nat -> Outcome)
    returns (chunkIds: seq<string>, processed: nat, aborted: bool)
    requires collection.Valid()
    modifies collection
    ensures collection.Valid()
    ensures Stored(chunks, autoEmbed, embedder, writes, old(collection.records)) == Progress(chunkIds, aborted, collection.records)
    ensures processed == |chunkIds|
  {
    ghost var records := collection.records;
    chunkIds, processed, aborted := [], 0, false;
    for i := 0 to |chunks|
      invariant collection.Valid()
      invariant Stored(chunks[..i], autoEmbed, embedder, writes, records) == Progress(chunkIds, false, collection.records)
      invariant processed == |chunkIds|
    {
      StoredSnoc(chunks, i, autoEmbed, embedder, writes, records);
      var chunk := Cleared(chunks[i], autoEmbed);
      var _, outcome := collection.Upsert(chunk, embedder, writes(i));
      if outcome.Done? {
        chunkIds := chunkIds + [chunk.id];
        processed := processed + 1;
      } else if outcome.exc == RuntimeError {
        AbortedStays(chunks, i + 1, autoEmbed, embedder, writes, records);
        return chunkIds, processed, true;
      }
    }
    assert chunks[..|chunks|] == chunks;
  }

  /** `store_transcription`: the checks, the chunking, the upsert loop and the reply. */
  method StoreTranscription(collection: Collection, request: TranscriptionRequest, autoEmbed: bool, userId: string,
                            timestamp: string, embedder: Embedder, writes: nat -> Outcome,
                            split: string -> seq<string>, uuid: nat -> string)
    returns (r: Http<TranscriptionResponse>)
    requires collection.Valid()
    modifies collection
    ensures collection.Valid()
    ensures (r, collection.records)
            == StoreResult(request, autoEmbed, userId, timestamp, embedder, writes, split, uuid, old(collection.records))
  {
    StripFacts(request.text);
    if request.text == "" || Strip(request.text) == "" {
      return Err(400);
    }
    var baseMetadata := BaseMetadata(request, userId, timestamp);
    var chunks := ChunkText(request.text, request.chunkSize, request.chunkOverlap, baseMetadata, split, uuid);
    if chunks == [] {
      return Err(400);
    }
    var chunkIds, processed, aborted := UpsertChunks(collection, chunks, autoEmbed, embedder, writes);
    if aborted {
      return Err(503);
    }
    if processed == 0 {
      return Err(500);
    }
    r := Ok(200, TranscriptionResponse(Message(processed, |chunks|), chunkIds, processed));
  }
}
