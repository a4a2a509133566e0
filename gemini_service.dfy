/**
 * The flashcard generator of services/gemini_service.py: images (base64 text, possibly
 * as data URLs) are turned into image parts for the vision model, whose text is given
 * to the writing model; the JSON array in its reply becomes `FlashcardCreate` records.
 *
 * The two model calls and `json.loads` are parameters. A model reply is read as in
 * module `GeminiUtils`: the call raised, the reply had no parts (reading `.text` then
 * raises a `ValueError`), or it had text.
 */
module GeminiService {
  import opened Wrappers
  import opened PyStr
  import opened Schemas
  import opened GeminiUtils

  const DATA_URL_PREFIX: string := "data:image"
  const JPEG: string := "image/jpeg"

  /**
   * The base64 payload of one input: a data URL is replaced by its second comma-separated
   * field (when it has no comma, `split(",")[1]` raises `IndexError`); anything else is
   * kept as it is.
   */
  function StripDataUrl(image: string): (r: Result<string, Exc>)
    ensures !StartsWith(image, DATA_URL_PREFIX) ==> r == Success(image)
    ensures r.Failure? <==> StartsWith(image, DATA_URL_PREFIX) && Free(image, ',')
    ensures r.Failure? ==> r.error == OtherError
    ensures StartsWith(image, DATA_URL_PREFIX) && r.Success? ==> Free(r.value, ',')
  {
    if StartsWith(image, DATA_URL_PREFIX) then
      var fields := Split(image, ',');
      if |fields| < 2 then
        SplitJoin(image, ',');
        assert fields == [image];
        Failure(OtherError)
      else
        SplitPieceFree(image, ',', 1);
        Success(fields[1])
    else Success(image)
  }

  /** A data URL made of a comma-free header and a comma-free payload gives back the payload. */
  lemma DataUrlPayload(header: string, payload: string)
    requires StartsWith(header, DATA_URL_PREFIX) && Free(header, ',') && Free(payload, ',')
    ensures StripDataUrl(header + [','] + payload) == Success(payload)
  {
    var image := header + [','] + payload;
    assert image[..|DATA_URL_PREFIX|] == header[..|DATA_URL_PREFIX|];
    SplitTwo(header, payload, ',');
  }

  /** `{"inline_data": {"mime_type": ..., "data": ...}}`. */
  datatype ImagePart = ImagePart(mimeType: string, data: string)

  /** The image parts of `images`: one JPEG part per input, in order, or the first failure. */
  function ImageParts(images: seq<string>): (r: Result<seq<ImagePart>, Exc>)
    ensures r.Success? <==> forall i :: 0 <= i < |images| ==> StripDataUrl(images[i]).Success?
    ensures r.Success? ==>
              (|r.value| == |images| &&
               forall i :: 0 <= i < |images| ==> r.value[i] == ImagePart(JPEG, StripDataUrl(images[i]).value))
  {
    if images == [] then Success([])
    else
      var n := |images| - 1;
      var init := ImageParts(images[..n]);
      var last := StripDataUrl(images[n]);
      if init.Failure? then init
      else if last.Failure? then Failure(last.error)
      else Success(init.value + [ImagePart(JPEG, last.value)])
  }

  /** The loop of `extract_text_from_images` building `image_parts`. */
  method BuildImageParts(images: seq<string>) returns (r: Result<seq<ImagePart>, Exc>)
    ensures r == ImageParts(images)
  {
    var parts: seq<ImagePart> := [];
    for i := 0 to |images|
      invariant ImageParts(images[..i]) == Success(parts)
    {
      assert images[..i + 1][..i] == images[..i];
      var data := StripDataUrl(images[i]);
      if data.Failure? {
        FailureStays(images, i + 1);
        return Failure(data.error);
      }
      parts := parts + [ImagePart(JPEG, data.value)];
    }
    assert images[..|images|] == images;
    r := Success(parts);
  }

  /** A failure on one input is the failure of the whole list, as the loop stops there. */
  lemma {:induction false} FailureStays(images: seq<string>, k: nat)
    requires 0 < k <= |images| && ImageParts(images[..k - 1]).Success? && StripDataUrl(images[k - 1]).Failure?
    ensures ImageParts(images) == Failure(StripDataUrl(images[k - 1]).error)
    decreases |images| - k
  {
    assert images[..k][..k - 1] == images[..k - 1];
    if k < |images| {
      var n := |images| - 1;
      assert images[..n][..k - 1] == images[..k - 1];
      assert images[..n][k - 1] == images[k - 1];
      FailureStays(images[..n], k);
    } else {
      assert images[..k] == images;
    }
  }

  /** The text of a reply: `.text` raises a `ValueError` on a reply without parts. */
  function ReplyText(reply: GenReply): (r: Result<string, Exc>)
    ensures r.Success? <==> reply.GenText?
    ensures reply.GenBlocked? ==> r == Failure(ValueError)
  {
    match reply
    case GenRaised(_) => Failure(OtherError)
    case GenBlocked(_) => Failure(ValueError)
    case GenText(t) => Success(t)
  }

  /** `extract_text_from_images`: the vision model's text for the image parts. */
  method ExtractTextFromImages(images: seq<string>, vision: seq<ImagePart> -> GenReply) returns (r: Result<string, Exc>)
    ensures var parts := ImageParts(images);
            r == if parts.Failure? then Failure(parts.error) else ReplyText(vision(parts.value))
  {
    var parts := BuildImageParts(images);
    if parts.Failure? {
      return Failure(parts.error);
    }
    r := ReplyText(vision(parts.value));
  }

  /** `lang_dict`: the French name of each language code. */
  const LANGUAGE_NAMES: map<string, string> := map[
    "en" := "anglais",
    "fr" := "français",
    "es" := "espagnol",
    "de" := "allemand",
    "it" := "italien",
    "vi" := "vietnamien",
    "th" := "thaïlandais"
  ]

  const DEFAULT_LANGUAGE: string := "français"

  /** `lang_dict.get(language, "français")`. */
  function LanguageName(code: string): (r: string)
    ensures code in LANGUAGE_NAMES ==> r == LANGUAGE_NAMES[code]
    ensures code !in LANGUAGE_NAMES ==> r == DEFAULT_LANGUAGE
    ensures r in LANGUAGE_NAMES.Values
  {
    assert LANGUAGE_NAMES["fr"] == DEFAULT_LANGUAGE;
    if code in LANGUAGE_NAMES then LANGUAGE_NAMES[code] else DEFAULT_LANGUAGE
  }

  /**
   * `response_text[find('['): rfind(']') + 1]`: from the first `[` through the last `]`,
   * present exactly when there is a `[` and a `]` somewhere after it.
   */
  function JsonSpan(text: string): (r: Option<string>)
    ensures r.None? <==> Free(text, '[') || Free(text[FindFirst(text, '[')..], ']')
    ensures r.Some? ==>
              var start, end := FindFirst(text, '['), FindLast(text, ']') + 1;
              0 <= start < end <= |text| && r.value == text[start..end] &&
              Free(text[..start], '[') && Free(text[end..], ']')
    ensures r.Some? ==> |r.value| >= 2 && r.value[0] == '[' && r.value[|r.value| - 1] == ']'
  {
    var start := FindFirst(text, '[');
    var end := FindLast(text, ']') + 1;
    SpanBounds(text);
    if start >= 0 && end > start then Some(text[start..end]) else None
  }

  /** A character absent from a suffix is absent at each index of that suffix. */
  lemma FreeSuffix(s: string, c: char, from: nat)
    requires from <= |s| && Free(s[from..], c)
    ensures forall q :: from <= q < |s| ==> s[q] != c
  {
    forall q | from <= q < |s| ensures s[q] != c {
      assert s[from..][q - from] == s[q];
    }
  }

  /** A `]` at index `p` is in every suffix starting at or before `p`. */
  lemma CloseInSuffix(s: string, from: nat, p: nat)
    requires from <= p < |s| && s[p] == ']'
    ensures !Free(s[from..], ']')
  {
    assert s[from..][p - from] == ']';
  }

  /** A `]` at or after the first `[` is found by the search for the last `]`. */
  lemma CloseAfterOpen(text: string, start: nat)
    requires start <= |text| && !Free(text[start..], ']')
    ensures FindLast(text, ']') >= start
  {
    var j :| 0 <= j < |text[start..]| && text[start..][j] == ']';
    var p := start + j;
    assert text[p] == ']';
    CloseInSuffix(text, 0, p);
    assert text[0..] == text;
    var last := FindLast(text, ']');
    FreeSuffix(text, ']', last + 1);
  }

  /** The last `]` comes after the first `[` exactly when some `]` follows the first `[`. */
  lemma SpanBounds(text: string)
    ensures var start, last := FindFirst(text, '['), FindLast(text, ']');
            start >= 0 ==> (last + 1 > start <==> !Free(text[start..], ']'))
  {
    var start, last := FindFirst(text, '['), FindLast(text, ']');
    if start >= 0 {
      if last + 1 > start {
        CloseInSuffix(text, start, last);
      }
      if !Free(text[start..], ']') {
        CloseAfterOpen(text, start);
      }
    }
  }

  /** One parsed element as a `FlashcardCreate`, when it is an object with a string question and answer. */
  function CardOf(j: Json, courseName: Option<string>, tags: seq<string>): (r: Option<FlashcardCreate>)
    ensures r.Some? <==> j.JObj? && "question" in j.fields && "answer" in j.fields
                         && j.fields["question"].JStr? && j.fields["answer"].JStr?
    ensures r.Some? ==> r.value.question == j.fields["question"].s && r.value.answer == j.fields["answer"].s
                        && r.value.courseName == courseName && r.value.tags == tags
  {
    if j.JObj? && "question" in j.fields && "answer" in j.fields
       && j.fields["question"].JStr? && j.fields["answer"].JStr?
    then Some(FlashcardCreate(j.fields["question"].s, j.fields["answer"].s, courseName, tags))
    else None
  }

  /** The flashcards of the parsed elements, in order; one element that is not a card fails them all. */
  function Cards(items: seq<Json>, courseName: Option<string>, tags: seq<string>): (r: Option<seq<FlashcardCreate>>)
    ensures r.Some? <==> forall i :: 0 <= i < |items| ==> CardOf(items[i], courseName, tags).Some?
    ensures r.Some? ==>
              (|r.value| == |items| &&
               forall i :: 0 <= i < |items| ==> Some(r.value[i]) == CardOf(items[i], courseName, tags))
  {
    if items == [] then Some([])
    else
      var n := |items| - 1;
      var init := Cards(items[..n], courseName, tags);
      var last := CardOf(items[n], courseName, tags);
      if init.None? || last.None? then None else Some(init.value + [last.value])
  }

  /** The conversion loop of `generate_flashcards`. */
  method ToFlashcards(items: seq<Json>, courseName: Option<string>, tags: seq<string>) returns (r: Option<seq<FlashcardCreate>>)
    ensures r == Cards(items, courseName, tags)
  {
    var flashcards: seq<FlashcardCreate> := [];
    for i := 0 to |items|
      invariant Cards(items[..i], courseName, tags) == Some(flashcards)
    {
      assert items[..i + 1][..i] == items[..i];
      var card := CardOf(items[i], courseName, tags);
      if card.None? {
        return None;
      }
      flashcards := flashcards + [card.value];
    }
    assert items[..|items|] == items;
    r := Some(flashcards);
  }

  /**
   * What `generate_flashcards` gives for the writer's reply `reply`: the cards of the
   * parsed span; every failure inside the `try` (no reply text, no span, a parse error, a
   * value that is not a list of cards) is a `ValueError`, and a failed call is passed on.
   */
  function FlashcardsOf(reply: GenReply, parse: string -> Option<Json>, courseName: Option<string>, tags: seq<string>)
    : (r: Result<seq<FlashcardCreate>, Exc>)
    ensures reply.GenRaised? ==> r == Failure(OtherError)
    ensures !reply.GenRaised? && r.Failure? ==> r.error == ValueError
    ensures r.Success? <==>
              reply.GenText? && JsonSpan(reply.text).Some? && parse(JsonSpan(reply.text).value).Some?
              && parse(JsonSpan(reply.text).value).value.JArr?
              && Cards(parse(JsonSpan(reply.text).value).value.items, courseName, tags).Some?
    ensures r.Success? ==> r.value == Cards(parse(JsonSpan(reply.text).value).value.items, courseName, tags).value
  {
    if reply.GenRaised? then Failure(OtherError)
    else
      var text := ReplyText(reply);
      if text.Failure? then Failure(ValueError)
      else
        var span := JsonSpan(text.value);
        if span.None? then Failure(ValueError)
        else
          var parsed := parse(span.value);
          if parsed.None? || !parsed.value.JArr? then Failure(ValueError)
          else
            var cards := Cards(parsed.value.items, courseName, tags);
            if cards.None? then Failure(ValueError) else Success(cards.value)
  }

  /**
   * `generate_flashcards`: the text of the images, then the writer's reply for the card
   * count, the language name and that text, read as flashcards.
   */
  method GenerateFlashcards(images: seq<string>, count: int, language: string, courseName: Option<string>,
                            tags: seq<string>, vision: seq<ImagePart> -> GenReply,
                            writer: (int, string, string) -> GenReply, parse: string -> Option<Json>)
    returns (r: Result<seq<FlashcardCreate>, Exc>)
    ensures var extracted := ImageParts(images);
            extracted.Failure? ==> r == Failure(extracted.error)
    ensures var parts := ImageParts(images);
            parts.Success? ==>
              var text := ReplyText(vision(parts.value));
              r == if text.Failure? then Failure(text.error)
                   else FlashcardsOf(writer(count, LanguageName(language), text.value), parse, courseName, tags)
  {
    var extracted := ExtractTextFromImages(images, vision);
    if extracted.Failure? {
      return Failure(extracted.error);
    }
    var reply := writer(count, LanguageName(language), extracted.value);
    if reply.GenRaised? {
      return Failure(OtherError);
    }
    if !reply.GenText? {
      return Failure(ValueError);
    }
    var span := JsonSpan(reply.text);
    if span.None? {
      return Failure(ValueError);
    }
    var parsed := parse(span.value);
    if parsed.None? || !parsed.value.JArr? {
      return Failure(ValueError);
    }
    var cards := ToFlashcards(parsed.value.items, courseName, tags);
    if cards.None? {
      return Failure(ValueError);
    }
    r := Success(cards.value);
  }
}
