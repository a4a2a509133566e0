/**
 * Post-processing of the Gemini SDK replies in api/utils/gemini_utils.py. The SDK calls
 * themselves are oracles passed as function parameters: each returns the reply the
 * service gave, already read as "raised", "blocked / no parts" or "some text".
 */
module GeminiUtils {
  import opened Wrappers
  import opened PyStr
  import opened Schemas

  const GENERATION_MODEL_NAME: string := "gemini-2.0-flash"
  const EMBEDDING_MODEL_NAME: string := "gemini-embedding-exp-03-07"
  /** Length every stored embedding must have. */
  const EMBEDDING_DIMENSION: nat := 8000

  /** The `task_type` argument of `create_embedding`. */
  datatype TaskType = RetrievalDocument | RetrievalQuery
  {
    function Name(): string {
      match this
      case RetrievalDocument => "RETRIEVAL_DOCUMENT"
      case RetrievalQuery => "RETRIEVAL_QUERY"
    }
  }

  /**
   * What `genai.embed_content_async` gave back: it raised, or it returned a result
   * whose `"embedding"` entry is absent (`None`) or present.
   */
  datatype EmbedReply = EmbedRaised | EmbedResult(embedding: Option<seq<real>>)

  /** The embedding service, as a function of the text and the task type. */
  type Embedder = (string, TaskType) -> EmbedReply

  /**
   * `create_embedding`: the embedding when the service returned a non-empty one,
   * and otherwise a failure that is always a `ValueError`, whatever went wrong.
   */
  function CreateEmbedding(text: string, task: TaskType, embedder: Embedder): (r: Result<seq<real>, Exc>)
    ensures r.Failure? ==> r.error == ValueError
    ensures r.Success? <==> embedder(text, task).EmbedResult? && embedder(text, task).embedding.Some?
                            && embedder(text, task).embedding.value != []
    ensures r.Success? ==> r.value != [] && r.value == embedder(text, task).embedding.value
  {
    match embedder(text, task)
    case EmbedRaised => Failure(ValueError)
    case EmbedResult(e) =>
      if e.None? || e.value == [] then Failure(ValueError) else Success(e.value)
  }

  /**
   * A reply of the generative model: the call raised (with the text of the exception),
   * the reply had no parts (with the block reason, absent when there was no prompt
   * feedback), or the reply had parts and `response.text`.
   */
  datatype GenReply = GenRaised(message: string) | GenBlocked(blockReason: Option<string>) | GenText(text: string)

  const EXTRACTION_IMPOSSIBLE: string := "EXTRACTION_IMPOSSIBLE"
  const UNKNOWN_REASON: string := "Inconnue"
  const EXTRACTION_BLOCKED_PREFIX: string := "L'extraction a été bloquée ou a échoué. Raison: "
  const EXTRACTION_FAILED: string := "Impossible d'extraire du texte de cette image"
  const VISION_ERROR_PREFIX: string := "Erreur lors de la communication avec l'API Gemini Vision: "

  /** The dictionary `extract_text_from_image` returns; `errorMessage` is absent on success. */
  datatype ImageText = ImageText(text: string, success: bool, errorMessage: Option<string>)

  /**
   * `extract_text_from_image`: success exactly when the model returned visible text
   * other than the refusal marker, and then the text is the stripped reply; every
   * failure carries an empty text and a message.
   */
  function ExtractTextFromImage(image: string, vision: string -> GenReply): (r: ImageText)
    ensures r.success <==> vision(image).GenText? && !IsBlank(vision(image).text)
                           && Strip(vision(image).text) != EXTRACTION_IMPOSSIBLE
    ensures r.success ==> r.text == Strip(vision(image).text) && r.errorMessage.None?
    ensures r.success ==> r.text != "" && IsStripped(r.text)
    ensures !r.success ==> r.text == "" && r.errorMessage.Some?
    ensures vision(image).GenBlocked? ==>
              r.errorMessage == Some(EXTRACTION_BLOCKED_PREFIX + vision(image).blockReason.GetOr(UNKNOWN_REASON))
    ensures vision(image).GenRaised? ==> r.errorMessage == Some(VISION_ERROR_PREFIX + vision(image).message)
    ensures vision(image).GenText? && !r.success ==> r.errorMessage == Some(EXTRACTION_FAILED)
  {
    match vision(image)
    case GenRaised(msg) => ImageText("", false, Some(VISION_ERROR_PREFIX + msg))
    case GenBlocked(reason) => ImageText("", false, Some(EXTRACTION_BLOCKED_PREFIX + reason.GetOr(UNKNOWN_REASON)))
    case GenText(t) =>
      StripFacts(t);
      var extracted := Strip(t);
      if extracted == EXTRACTION_IMPOSSIBLE || extracted == "" then
        ImageText("", false, Some(EXTRACTION_FAILED))
      else
        ImageText(extracted, true, None)
  }

  /** A parsed value is accepted as flashcards: a list of objects that all have a question and an answer. */
  predicate IsCardList(j: Json) {
    j.JArr? && forall i :: 0 <= i < |j.items| ==> IsCard(j.items[i])
  }

  predicate IsCard(j: Json) {
    j.JObj? && "question" in j.fields && "answer" in j.fields
  }

  /**
   * The value `json.loads` produced from the reply of the flashcard writer, if the
   * reply had text, the JSON pattern matched in its stripped text and the match parsed.
   * `search` stands for the regular-expression search and the choice of its group,
   * `parse` for `json.loads` (`None` when it raises).
   */
  function Decoded(reply: GenReply, search: string -> Option<string>, parse: string -> Option<Json>): Option<Json> {
    if !reply.GenText? then None
    else
      var m := search(Strip(reply.text));
      if m.None? then None else parse(m.value)
  }

  /**
   * `generate_flashcards` (api/utils/gemini_utils.py): the parsed list when it is a
   * list of question/answer objects, in its order, and otherwise `[]`; it never raises.
   */
  function GenerateFlashcards(text: string, numCards: int, writer: (string, int) -> GenReply,
                              search: string -> Option<string>, parse: string -> Option<Json>): (r: seq<map<string, Json>>)
    ensures forall i :: 0 <= i < |r| ==> "question" in r[i] && "answer" in r[i]
    ensures var d := Decoded(writer(text, numCards), search, parse);
            d.Some? && IsCardList(d.value) ==>
              |r| == |d.value.items| && forall i :: 0 <= i < |r| ==> r[i] == d.value.items[i].fields
    ensures var d := Decoded(writer(text, numCards), search, parse);
            d.None? || !IsCardList(d.value) ==> r == []
  {
    var d := Decoded(writer(text, numCards), search, parse);
    if d.Some? && IsCardList(d.value) then
      seq(|d.value.items|, i requires 0 <= i < |d.value.items| => d.value.items[i].fields)
    else
      []
  }

  /** The opening word of every apology the service returns instead of an answer. */
  const SORRY: string := "Désolé, "
  const RAG_BLOCKED_ANSWER: string := SORRY + "une erreur est survenue lors de la génération de la réponse."
  const RAG_EMPTY_ANSWER: string :=
    SORRY + "je n'ai pas pu générer une réponse à cette question en me basant sur le contexte fourni."
  const RAG_ERROR_ANSWER: string :=
    SORRY + "une erreur technique m'empêche de répondre à cette question pour le moment."

  lemma ApologiesStripped()
    ensures RAG_BLOCKED_ANSWER != "" && IsStripped(RAG_BLOCKED_ANSWER)
    ensures RAG_EMPTY_ANSWER != "" && IsStripped(RAG_EMPTY_ANSWER)
    ensures RAG_ERROR_ANSWER != "" && IsStripped(RAG_ERROR_ANSWER)
  {
    assert |RAG_BLOCKED_ANSWER| == 68 && RAG_BLOCKED_ANSWER[0] == SORRY[0] && RAG_BLOCKED_ANSWER[67] == '.';
    assert |RAG_EMPTY_ANSWER| == 96 && RAG_EMPTY_ANSWER[0] == SORRY[0] && RAG_EMPTY_ANSWER[95] == '.';
    assert |RAG_ERROR_ANSWER| == 83 && RAG_ERROR_ANSWER[0] == SORRY[0] && RAG_ERROR_ANSWER[82] == '.';
  }

  /**
   * `generate_answer_with_rag`: the stripped answer of the model when it has visible
   * text, and otherwise one of three fixed apologies chosen by what went wrong.
   * `model` is the generative call on the question and the retrieved context.
   */
  function GenerateAnswerWithRag(question: string, context: string, model: (string, string) -> GenReply): (r: string)
    ensures r != "" && IsStripped(r)
    ensures model(question, context).GenText? && !IsBlank(model(question, context).text) ==>
              r == Strip(model(question, context).text)
    ensures model(question, context).GenText? && IsBlank(model(question, context).text) ==> r == RAG_EMPTY_ANSWER
    ensures model(question, context).GenBlocked? ==> r == RAG_BLOCKED_ANSWER
    ensures model(question, context).GenRaised? ==> r == RAG_ERROR_ANSWER
  {
    ApologiesStripped();
    match model(question, context)
    case GenRaised(_) => RAG_ERROR_ANSWER
    case GenBlocked(_) => RAG_BLOCKED_ANSWER
    case GenText(t) =>
      StripFacts(t);
      var answer := Strip(t);
      if answer != "" then answer else RAG_EMPTY_ANSWER
  }
}
