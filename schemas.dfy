/**
 * Value types shared by the pipeline: chunk metadata values, the `ContentChunk`
 * record, parsed JSON, flashcards, the exception kinds the code distinguishes,
 * and HTTP replies.
 */
module Schemas {
  import opened Wrappers
  import opened PyStr

  /**
   * A metadata value as Python holds it in a `Dict[str, Any]`. Floats are carried
   * by their `repr` text, since float arithmetic plays no part here; `VOther` is any
   * other object (a list, a dict, ...) carried by its `str()` text.
   */
  datatype MetaValue =
    | VNone
    | VStr(s: string)
    | VInt(i: int)
    | VReal(repr: string)
    | VBool(b: bool)
    | VOther(repr: string)

  type Metadata = map<string, MetaValue>

  /** Python's `str(v)`. */
  function PyStrOf(v: MetaValue): string {
    match v
    case VNone => "None"
    case VStr(s) => s
    case VInt(i) => IntToString(i)
    case VReal(r) => r
    case VBool(b) => if b then "True" else "False"
    case VOther(r) => r
  }

  /** `ContentChunk` (api/schemas/content_schemas.py): the unit that is chunked, embedded, stored and retrieved. */
  datatype ContentChunk = ContentChunk(
    id: string,
    text: string,
    metadata: Metadata,
    embedding: Option<seq<real>>,
    score: Option<real>)
  {
    /** Python truthiness of `chunk.embedding`: present and non-empty. */
    predicate HasEmbedding() {
      embedding.Some? && embedding.value != []
    }
  }

  /** The exception classes the code tells apart; every other class is `OtherError`. */
  datatype Exc = ValueError | RuntimeError | OtherError

  /** How a call that returns `None` ended: normally, or by raising. */
  datatype Outcome = Done | Raised(exc: Exc)

  /**
   * The exception a vector-store adapter lets out of `upsert_vector`: a `ValueError`
   * is re-raised as it is, anything else is wrapped in a `RuntimeError`.
   */
  function AdapterError(e: Exc): (r: Exc)
    ensures r == ValueError || r == RuntimeError
    ensures r == ValueError <==> e == ValueError
  {
    if e == ValueError then ValueError else RuntimeError
  }

  /** An HTTP reply of a route: a status with a body, or an `HTTPException` with its status. */
  datatype Http<T> = Ok(status: nat, body: T) | Err(status: nat)

  /** A value produced by `json.loads`; numbers are carried by their text. */
  datatype Json =
    | JNull
    | JBool(b: bool)
    | JNum(text: string)
    | JStr(s: string)
    | JArr(items: seq<Json>)
    | JObj(fields: map<string, Json>)

  /** `FlashcardCreate` (models/flashcard.py). */
  datatype FlashcardCreate = FlashcardCreate(
    question: string,
    answer: string,
    courseName: Option<string>,
    tags: seq<string>)
}
