# Cardify-back: text chunking, vector stores and Gemini post-processing in Dafny

Cardify-back is a FastAPI back end that turns course notes into flashcards and answers
questions about them. This project models the part of it that prepares text for retrieval
and works on what the generative model returns:

- `chunk_text` (api/utils/text_utils.py) splits a transcription into paragraph blocks and
  packs them into overlapping chunks with per-chunk metadata (`TextUtils`). The properties
  of the packing are proved in `ChunkProperties`.
- The two vector-store adapters: ChromaDB (`ChromaDbUtils`, api/utils/chromadb_utils.py)
  and Pinecone (`PineconeUtils`, api/utils/pinecone_utils.py). Their `upsert_vector` and
  `query_vectors` are modelled against a store held as a map from id to record.
- The routes over the ChromaDB adapter:
  - `store_transcription` (`TranscriptionRoutes`);
  - `create_vector`, `search_vectors` and `answer_with_rag` (`VectorStoreRoutes`).
- Gemini post-processing:
  - the embedding check, the text-extraction reply, the flashcard JSON filter and the RAG
    answer of api/utils/gemini_utils.py (`GeminiUtils`);
  - the data-URL stripping, JSON-span extraction and flashcard conversion of
    services/gemini_service.py (`GeminiService`).

Python's `str.strip`/`lstrip`, `split`, `find`/`rfind`, `join` and integer formatting are
modelled in `PyStr`. The value types of the source (`ContentChunk`, metadata values,
exceptions, HTTP replies, JSON values, `FlashcardCreate`) are in `Schemas`. `Option` and
`Result` are in `Wrappers`.

The model takes the world outside the code as parameters:
- the embedding service, the generative models and the vector-store backends, as
  functions from their inputs to their replies;
- how each backend write ends;
- the regular-expression paragraph split and JSON search;
- `json.loads`;
- `uuid.uuid4`, `datetime.now` and the caller's id.

The stores are classes whose `Upsert` methods change their map. Every loop of the source
is a method, proved equal to a recursive specification function about which the
properties are proved.

## Model

| member | source | states |
|---|---|---|
| TextUtils.ParagraphBlocks | api/utils/text_utils.py:29-44 | the blocks built by the accumulation loop are exactly `Blocks`: non-blank pieces glued up to the next blank separator, each stripped, or the stripped whole text when none |
| TextUtils.CarryFacts | api/utils/text_utils.py:76-77 | the overlap tail is a suffix of the finished chunk of at most `overlap` characters (none when `overlap <= 0`) not starting with whitespace; the new buffer starts with that tail and a blank line, or with nothing |
| TextUtils.PackStep | api/utils/text_utils.py:51-84 | one paragraph step only ever appends to the finished chunks, by at most one, and never flushes an empty buffer |
| TextUtils.PackFrom | api/utils/text_utils.py:51-84 | the packing loop keeps every chunk already finished as a prefix and emits no more chunks than buffer plus blocks |
| TextUtils.PackedTexts | api/utils/text_utils.py:51-100 | `chunk_text` never emits more chunks than there are blocks |
| TextUtils.ChunkMetadataContents | api/utils/text_utils.py:60-67 | chunk metadata has the base keys plus `chunk_index`, `position`, `embedding_model`, `dimension` set to the chunk's values; every other base key is kept |
| TextUtils.MakeChunk | api/utils/text_utils.py:59-72 | a chunk's id starts with `chunk-`, its text is the given text, its metadata is the chunk metadata, and it has no embedding and no score |
| TextUtils.MakeChunksAt | api/utils/text_utils.py:68-73 | the k-th chunk record is built from the k-th chunk text with `chunk_index` k |
| TextUtils.Chunks | api/utils/text_utils.py:21-102 | an empty text gives no chunks; otherwise one chunk per packed text, never more than the blocks |
| TextUtils.ChunkAt | api/utils/text_utils.py:87-100 | chunk k has a `chunk-` id, the k-th packed text, `chunk_index` k with position `k+1/<number of blocks>`, no embedding and no score |
| TextUtils.PackLoop | api/utils/text_utils.py:46-85 | the packing loop ends in the state of the `Pack` specification and has emitted one chunk record per finished text |
| TextUtils.PackChunks | api/utils/text_utils.py:46-100 | the loop plus the final flush emits exactly the records of `PackedTexts` |
| TextUtils.ChunkText | api/utils/text_utils.py:7-102 | `chunk_text` returns exactly `Chunks(text, ...)` |
| ChunkProperties.PackInv | api/utils/text_utils.py:51-84 | after packing well-formed blocks, the blocks consumed are exactly the input, the buffer is stripped and is non-empty when there was a block |
| ChunkProperties.PackFromConsumes | api/utils/text_utils.py:51-84 | every block goes into exactly one chunk group, in order, whatever the sizes |
| ChunkProperties.PackedShape | api/utils/text_utils.py:68-100 | every emitted chunk text is non-empty and stripped; there are chunks iff there are blocks |
| ChunkProperties.PackedCoverage | api/utils/text_utils.py:51-100 | the groups of blocks behind the chunks, flattened, are the blocks: nothing is lost, repeated or reordered |
| ChunkProperties.PackedTextsFromGroups | api/utils/text_utils.py:76-84 | chunk k is its blocks joined by a blank line, preceded by the carry (left-stripped overlap tail and a blank line) of chunk k-1 |
| ChunkProperties.PackedSizes | api/utils/text_utils.py:57 | a chunk longer than `chunk_size` holds a single block |
| ChunkProperties.PackedFlushes | api/utils/text_utils.py:57 | a chunk is finished only when it plus 2 plus the next chunk's first block exceeds `chunk_size` |
| ChunkProperties.BlockInChunk | api/utils/text_utils.py:76-84 | every block appears intact in the chunk that holds it |
| ChunkProperties.SingleBlockOneChunk | api/utils/text_utils.py:51-100 | a single paragraph gives one chunk equal to it, however long |
| ChunkProperties.BlocksWellFormed | api/utils/text_utils.py:29-44 | a text with a non-blank character gives at least one block, each non-empty and stripped |
| ChunkProperties.AccumulateBlank | api/utils/text_utils.py:34-41 | pieces that are all blank accumulate into no paragraph |
| ChunkProperties.BlocksOfSeparatedPieces | api/utils/text_utils.py:29-44 | when the split alternates text and blank separators, the blocks are the stripped non-blank pieces, or the stripped text when none |
| ChunkProperties.NonBlankTextHasChunks | api/utils/text_utils.py:21-100 | a text with a non-blank character gives at least one chunk, each with a non-empty stripped text |
| ChunkProperties.BlankTextHasNoChunks | api/utils/text_utils.py:29-44 | a blank text, split into pieces that rejoin to it, gives no chunks |
| ChunkProperties.ChunkIdsDistinct | api/utils/text_utils.py:59 | with a uuid source that never repeats, no two chunks share an id |
| ChunkProperties.ChunkPositionsDistinct | api/utils/text_utils.py:63 | two chunks of a text never carry the same `position` string `i+1/n` |
| GeminiUtils.CreateEmbedding | api/utils/gemini_utils.py:186-205 | succeeds exactly when the service returned a non-empty embedding, which is returned; any failure is a `ValueError` |
| GeminiUtils.ExtractTextFromImage | api/utils/gemini_utils.py:57-102 | success iff the reply has text whose strip is non-empty and not `EXTRACTION_IMPOSSIBLE`, with that stripped text; otherwise empty text and the blocked, failed or error message |
| GeminiUtils.GenerateFlashcards | api/utils/gemini_utils.py:138-170 | the parsed list when it is a list of objects with `question` and `answer`, in order; `[]` otherwise; every returned card has both keys |
| GeminiUtils.GenerateAnswerWithRag | api/utils/gemini_utils.py:231-247 | the stripped generated answer; a fixed apology on blank, blocked or raising replies; never empty or unstripped |
| ChromaDbUtils.CoerceValue | api/utils/chromadb_utils.py:55 | the value is storable, unchanged when already storable, and prints as before |
| ChromaDbUtils.CoerceMetadata | api/utils/chromadb_utils.py:54-57 | same keys, every value storable and printing as before; storable values and storable metadata pass unchanged |
| ChromaDbUtils.DocumentEmbedding | api/utils/chromadb_utils.py:46-48 | the chunk's own non-empty embedding, or a document embedding; a failure only when the chunk had none, and it is a `ValueError` |
| ChromaDbUtils.UpsertOutcome | api/utils/chromadb_utils.py:43-75 | done iff the embedding was obtained, has 8000 entries and the write went through; only `ValueError` or `RuntimeError` escapes, `RuntimeError` iff the write raised something else |
| ChromaDbUtils.Collection.Upsert | api/utils/chromadb_utils.py:43-75 | keeps the dimension/storable invariant; on success writes exactly the record under the chunk id; on failure the collection is unchanged |
| ChromaDbUtils.WhereFilter | api/utils/chromadb_utils.py:83-86 | a filter on the user id exactly when the id is non-empty |
| ChromaDbUtils.Retrieved | api/utils/chromadb_utils.py:77-121 | one chunk per returned id in backend order with document, metadata and distance (possibly `None`) as score, no embedding; `[]` on any exception, including a short row or a `None` document or metadata that fails validation |
| ChromaDbUtils.QueryVectors | api/utils/chromadb_utils.py:77-121 | the indexed rebuild loop returns exactly `Retrieved`: a chunk per row while every row is complete, `[]` as soon as one row is short or holds a `None` document or metadata |
| PineconeUtils.StoredValue | api/utils/pinecone_utils.py:61 | `None` is stored as `""`, anything else as its `str` |
| PineconeUtils.Stringified | api/utils/pinecone_utils.py:61 | same keys, every value a string |
| PineconeUtils.VectorMetadata | api/utils/pinecone_utils.py:58-62 | the metadata keys plus `text`; `text` is the chunk text unless the metadata has its own `text`; every other value stringified |
| PineconeUtils.Index.Upsert | api/utils/pinecone_utils.py:40-77 | the same outcome as the ChromaDB upsert; on success writes exactly the vector under the chunk id; on failure the index is unchanged |
| PineconeUtils.EqFilter | api/utils/pinecone_utils.py:90-93 | `{"user_id": {"$eq": id}}` exactly when the id is non-empty |
| PineconeUtils.MatchChunk | api/utils/pinecone_utils.py:106-119 | id and score from the match, text from metadata `text` (or `""`), every other entry kept as a string value under its key, an empty metadata map when the match has none, no embedding |
| PineconeUtils.MatchChunks | api/utils/pinecone_utils.py:104-119 | one rebuilt chunk per match, in order |
| PineconeUtils.Retrieved | api/utils/pinecone_utils.py:79-126 | `[]` when the query embedding or the backend raised; otherwise the rebuilt matches |
| PineconeUtils.QueryVectors | api/utils/pinecone_utils.py:79-126 | the rebuild loop returns exactly `Retrieved` |
| PineconeUtils.RoundTrip | api/utils/pinecone_utils.py:58-62 | a chunk without a `text` metadata key comes back from a match with its id, its text and its metadata stringified |
| PineconeUtils.TextKeyClobbers | api/utils/pinecone_utils.py:58-62 | a metadata key `text` replaces the chunk text on the way back and is dropped from the metadata |
| TranscriptionRoutes.BaseMetadata | api/routers/transcription_routes.py:33-40 | source, user id, timestamp, model name and dimension, with every client key winning over them |
| TranscriptionRoutes.Cleared | api/routers/transcription_routes.py:64-68 | whatever `auto_embed` is, the chunk goes to the upsert without an embedding |
| TranscriptionRoutes.StoreResult | api/routers/transcription_routes.py:25-103 | a blank text is 400 with the collection unchanged; otherwise, once there are chunks, the collection is the one the upsert loop left, the reply is 503 iff a write raised a `RuntimeError`, 500 iff no chunk was stored otherwise, and 200 with exactly the stored ids, their count and the `n/total` message otherwise |
| TranscriptionRoutes.StoreStatus | api/routers/transcription_routes.py:52-100 | for a non-blank text: 503 iff the loop aborted, 500 iff it stored nothing otherwise, and on 200 the reported ids are the stored ones, a subsequence of the chunk ids in order; the collection is the loop's |
| TranscriptionRoutes.RuntimeErrorGives503 | api/routers/transcription_routes.py:78-100 | a write of chunk i that raises anything but a `ValueError`, after a good embedding, makes the reply 503 and leaves exactly what the chunks before i stored |
| TranscriptionRoutes.AbortedStays | api/routers/transcription_routes.py:78-81 | after the first `RuntimeError` no further chunk is processed |
| TranscriptionRoutes.StoredIdsInOrder | api/routers/transcription_routes.py:59-84 | the reported ids are a subsequence of the chunk ids, in chunk order |
| TranscriptionRoutes.ValueErrorSkips | api/routers/transcription_routes.py:75-77 | a chunk whose upsert raises a `ValueError` (failed embedding, wrong dimension, or a `ValueError` from the write) is skipped: no id, no record, the loop goes on |
| TranscriptionRoutes.WriteFailureAborts | api/routers/transcription_routes.py:78-81 | a failed write of a correct embedding stops the loop, and the collection keeps exactly what was stored before |
| TranscriptionRoutes.StoredAutoEmbed | api/routers/transcription_routes.py:64-68 | the upsert loop does the same for both values of `auto_embed` |
| TranscriptionRoutes.AutoEmbedIrrelevant | api/routers/transcription_routes.py:18-68 | the reply and the collection do not depend on `auto_embed` |
| TranscriptionRoutes.NoChunksOnlyWhenBlank | api/routers/transcription_routes.py:25-54 | the reply is 400 iff the text is blank: a non-blank text always yields chunks |
| TranscriptionRoutes.UpsertChunks | api/routers/transcription_routes.py:59-84 | the loop leaves the ids, the abort flag and the collection of the `Stored` specification, counts the ids, and keeps the collection invariant |
| TranscriptionRoutes.StoreTranscription | api/routers/transcription_routes.py:15-103 | the reply and the new collection are those of `StoreResult` on the old collection |
| VectorStoreRoutes.OwnedMetadata | api/routers/vector_store_routes.py:34-36 | the metadata with `user_id` set to the caller's id, every other key kept |
| VectorStoreRoutes.UpsertStatus | api/routers/vector_store_routes.py:40-51 | 201 iff done, 400 iff `ValueError`, 500 otherwise |
| VectorStoreRoutes.CreateStatus | api/routers/vector_store_routes.py:25-51 | an empty id or blank text is 400; otherwise the status is that of the upsert of the caller-owned chunk (201 done, 400 `ValueError`, 500 any other failure) |
| VectorStoreRoutes.CreateVector | api/routers/vector_store_routes.py:19-51 | on 201 the collection is the old one with exactly the record under the chunk id replaced: the embedding obtained, the chunk text, and the coerced metadata, whose `user_id` is the caller's; on an error the collection is unchanged |
| VectorStoreRoutes.SearchResult | api/routers/vector_store_routes.py:59-77 | 400 iff the query is blank or `top_k < 1`; every other query is 200 with the chunks of the query filtered on the caller |
| VectorStoreRoutes.SearchVectors | api/routers/vector_store_routes.py:54-77 | the route replies exactly `SearchResult` |
| VectorStoreRoutes.Texts | api/routers/vector_store_routes.py:104 | the chunk texts, in order |
| VectorStoreRoutes.RagResult | api/routers/vector_store_routes.py:86-112 | 400 iff the question is blank; the fixed "nothing found" answer iff the caller's three closest chunks are none; otherwise the answer generated from the joined context |
| VectorStoreRoutes.AnswerWithRag | api/routers/vector_store_routes.py:80-115 | the route replies exactly `RagResult` |
| VectorStoreRoutes.NoContextNoGeneration | api/routers/vector_store_routes.py:99-101 | when nothing is retrieved the model is not consulted |
| VectorStoreRoutes.ContextHoldsEveryText | api/routers/vector_store_routes.py:104 | every retrieved text appears intact in the context |
| VectorStoreRoutes.RagAnswerStripped | api/routers/vector_store_routes.py:99-112 | a successful RAG reply is never empty and carries no surrounding whitespace |
| GeminiService.StripDataUrl | services/gemini_service.py:22-24 | non-data-URL images pass unchanged; a data URL without a comma fails (`IndexError`); otherwise a comma-free payload |
| GeminiService.DataUrlPayload | services/gemini_service.py:22-24 | a data URL `header,payload` gives back exactly the payload |
| GeminiService.ImageParts | services/gemini_service.py:20-31 | succeeds iff every image strips, with one JPEG part per image in order |
| GeminiService.BuildImageParts | services/gemini_service.py:20-31 | the loop returns exactly `ImageParts` |
| GeminiService.FailureStays | services/gemini_service.py:21-24 | the first image that fails to strip makes the whole call fail with its error |
| GeminiService.ReplyText | services/gemini_service.py:37 | text exactly when the reply has text; a blocked reply is a `ValueError` |
| GeminiService.ExtractTextFromImages | services/gemini_service.py:15-37 | the parts' failure, or the text of the vision reply on the parts |
| GeminiService.LanguageName | services/gemini_service.py:54-64 | the French name of a known language, `français` otherwise; always one of the table's names |
| GeminiService.JsonSpan | services/gemini_service.py:94-103 | none iff there is no `[` or no `]` after the first `[`; otherwise the slice from the first `[` to the last `]`, starting with `[` and ending with `]` |
| GeminiService.SpanBounds | services/gemini_service.py:95-98 | `end_idx > start_idx` holds iff a `]` follows the first `[` |
| GeminiService.CardOf | services/gemini_service.py:107-113 | a card iff the item is an object whose `question` and `answer` are strings, with those, the course name and the tags |
| GeminiService.Cards | services/gemini_service.py:106-114 | all items convert, one card per item in order, or the conversion fails |
| GeminiService.ToFlashcards | services/gemini_service.py:106-116 | the conversion loop returns exactly `Cards` |
| GeminiService.FlashcardsOf | services/gemini_service.py:89-120 | a raising writer propagates; every other failure is a `ValueError`; success iff the reply has text, a JSON span that parses to a list, and every item converts, and then the value is the converted `Cards` list, one card per item in order |
| GeminiService.GenerateFlashcards | services/gemini_service.py:39-120 | an image that fails to strip fails the call; otherwise the result is that of the extraction and the flashcard conversion of the writer's reply |
| PyStr.StripFacts | api/utils/text_utils.py:35 | `strip` gives a stripped string, empty iff the input is blank, and leaves a stripped string alone |
| PyStr.FindFirst | services/gemini_service.py:95 | -1 iff the character is absent; otherwise its first index |
| PyStr.FindLast | services/gemini_service.py:96 | -1 iff the character is absent; otherwise its last index |
| PyStr.SplitJoin | services/gemini_service.py:24 | joining the pieces of `split` with the separator gives back the string |
| PyStr.SplitTwo | services/gemini_service.py:24 | a string with one separator splits into the two sides |
| PyStr.JoinContains | api/routers/vector_store_routes.py:104 | every joined item appears intact in the join |
| PyStr.ParseNatToString | api/utils/text_utils.py:63 | decimal formatting of a natural is read back to the same natural |
| PyStr.NatToStringInjective | api/utils/text_utils.py:63 | distinct naturals format differently |

## Left out

- The regular-expression paragraph split of `chunk_text` (`re.split(r'(\n\s*\n+)', ...)`) is a parameter. `BlocksOfSeparatedPieces` and `BlankTextHasNoChunks` state what the blocks are when the split behaves as that pattern does.
- The regular-expression JSON search of `generate_flashcards` in api/utils/gemini_utils.py is a parameter, and so is `json.loads` everywhere. `GeminiService.JsonSpan` models the `find`/`rfind` search of services/gemini_service.py exactly.
- The Gemini SDK, the ChromaDB and Pinecone clients and the network are functions from inputs to replies. Prompts, safety settings and model configuration are not modelled, because they only shape what those functions return.
- `uuid.uuid4`, `datetime.now` and the authenticated user are parameters.
- Logging, `async`/`await` and the client initialisation at import time (connection errors raised as `RuntimeError` when the module loads) are left out.
- How the backends apply the `where` filter and rank results is outside the model. The model states which filter is passed and how the reply is rebuilt.
- ChromaDbUtils.Collection.Upsert: a write that raises is taken to leave the collection unchanged, which depends on the backend.
- PineconeUtils.Index.Upsert: numbers and booleans are stored as strings, and a query gives back every value as a string. The Pinecone index is the one place metadata changes type on the round trip.
- GeminiUtils.CreateEmbedding: the embedding is not checked against `EMBEDDING_DIMENSION`; that check belongs to the adapters and is modelled there.
- GeminiService.FlashcardsOf: an exception raised by the writer call itself is modelled as a generic error (`OtherError`), since it escapes before the `try`. Its message is not modelled.
- GeminiService.StripDataUrl: the `IndexError` of `split(",")[1]` on a data URL without a comma is modelled as `OtherError`.
- GeminiService.ReplyText: a model call that raises is passed on as a generic error (`OtherError`) without its message.
- TranscriptionRoutes.StoreResult: the final `except Exception` (500) and the `except Exception: continue` inside the loop are not reachable in the model. Every exception of `chunk_text` and of the upsert is one the model names.
- VectorStoreRoutes.SearchVectors: the 500 of `search_vectors` and `answer_with_rag` is not reachable. `query_vectors` never raises in either adapter, and the model has no other source of exceptions there.
- TranscriptionRoutes.Stored: the exception messages carried by `HTTPException` details are not modelled; the status codes are.
- Integers are unbounded. The source uses Python integers, which are too, so there is no overflow to model.
- The routes only use the ChromaDB adapter. The Pinecone adapter is modelled on its own and is not wired into a route.
- `chunk_text` never cuts inside a paragraph: a single paragraph always gives one chunk, however long (`ChunkProperties.SingleBlockOneChunk`). The model states only the size bound the code gives (`ChunkProperties.PackedSizes`).
- GeminiService.FlashcardsOf: a parsed value that is not a list is taken to fail. `json.loads` of a span that starts with `[` and ends with `]` can only give a list.
