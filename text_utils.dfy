/**
 * The paragraph chunker `chunk_text` of api/utils/text_utils.py.
 *
 * The text is cut into paragraph blocks at blank lines, the blocks are packed into
 * chunks no longer than `chunk_size` where possible, and each chunk after a flush
 * starts with a left-stripped tail of at most `overlap` characters of the chunk
 * before it. The functions below specify each stage; the method `ChunkText` runs the
 * same loops as the source and is proved to produce `Chunks(...)`.
 *
 * The regular-expression split `re.split(r'(\n\s*\n+)', text)` is an oracle `split`;
 * the `uuid4()` calls are an oracle `uuid` giving the id suffix of the k-th chunk.
 */
module TextUtils {
  import opened Wrappers
  import opened PyStr
  import opened Schemas
  import GeminiUtils

  /** The separator written between two blocks of one chunk, and after an overlap tail. */
  const SEP: string := "\n\n"

  /** Accumulation of the split pieces into paragraphs */

  /**
   * The paragraphs the accumulation loop appends, given the pieces still to read and
   * the text `temp` accumulated so far: non-blank pieces are concatenated, a blank piece
   * closes the current paragraph, and every closed paragraph is stripped.
   */
  function Accumulate(pieces: seq<string>, temp: string): seq<string>
    decreases |pieces|
  {
    if pieces == [] then
      if temp != "" then [Strip(temp)] else []
    else if Strip(pieces[0]) != "" then
      Accumulate(pieces[1..], temp + pieces[0])
    else if temp != "" then
      [Strip(temp)] + Accumulate(pieces[1..], "")
    else
      Accumulate(pieces[1..], "")
  }

  /** The paragraph blocks of `text`: the accumulated paragraphs, or the whole stripped text when there are none. */
  function Blocks(text: string, split: string -> seq<string>): seq<string> {
    var paragraphs := Accumulate(split(text), "");
    if paragraphs == [] then [Strip(text)] else paragraphs
  }

  /** Packing the blocks into chunks */

  /** `current_chunk_text[-overlap:].lstrip()` when `overlap > 0`, and `""` otherwise. */
  function OverlapTail(buffer: string, overlap: int): string {
    if overlap > 0 then LStrip(LastChars(buffer, overlap)) else ""
  }

  /** What a new buffer starts with after a flush: the overlap tail and a separator, or nothing when the tail is empty. */
  function Carry(buffer: string, overlap: int): string {
    var tail := OverlapTail(buffer, overlap);
    if tail != "" then tail + SEP else ""
  }

  /**
   * The overlap tail is a suffix of the buffer of at most `overlap` characters that
   * does not start with whitespace (empty when `overlap <= 0`); the carry is that tail
   * and a blank line, or nothing when the tail is empty.
   */
  lemma CarryFacts(buffer: string, overlap: int)
    ensures var tail := OverlapTail(buffer, overlap);
            && (overlap <= 0 ==> tail == "")
            && (overlap > 0 ==> |tail| <= overlap)
            && |tail| <= |buffer| && tail == buffer[|buffer| - |tail|..]
            && (tail == "" || !IsSpace(tail[0]))
    ensures var r := Carry(buffer, overlap);
            && (overlap <= 0 ==> r == "")
            && (r == "" || (r == OverlapTail(buffer, overlap) + SEP && |r| <= overlap + 2 && !IsSpace(r[0])))
  {
    if overlap > 0 {
      LastCharsSuffix(buffer, overlap);
      LStripRemovesBlankPrefix(LastChars(buffer, overlap));
    }
  }

  /**
   * The state of the packing loop: the chunk texts emitted so far, the blocks each of
   * them was built from, the buffer `current_chunk_text`, and the blocks in the buffer.
   */
  datatype Packing = Packing(texts: seq<string>, groups: seq<seq<string>>, buffer: string, pending: seq<string>)

  /** One turn of the packing loop on block `b`. */
  function PackStep(p: Packing, b: string, size: int, overlap: int): (r: Packing)
    ensures |p.texts| <= |r.texts| <= |p.texts| + 1 && r.texts[..|p.texts|] == p.texts
    ensures p.buffer == "" ==> r.texts == p.texts
  {
    if |p.buffer| > 0 && |p.buffer| + |b| + 2 > size then
      Packing(p.texts + [Strip(p.buffer)], p.groups + [p.pending], Carry(p.buffer, overlap) + b, [b])
    else if p.buffer != "" then
      Packing(p.texts, p.groups, p.buffer + SEP + b, p.pending + [b])
    else
      Packing(p.texts, p.groups, b, p.pending + [b])
  }

  /** The state before the packing loop: nothing emitted, an empty buffer. */
  const START: Packing := Packing([], [], "", [])

  /**
   * The packing state after the loop, started in state `p`, has read all of `bs`.
   * Each block flushes at most one chunk, and a flush needs a non-empty buffer.
   */
  function PackFrom(p: Packing, bs: seq<string>, size: int, overlap: int): (r: Packing)
    ensures |r.texts| + (if r.buffer != "" then 1 else 0) <= |p.texts| + (if p.buffer != "" then 1 else 0) + |bs|
    ensures |p.texts| <= |r.texts| && r.texts[..|p.texts|] == p.texts
    decreases |bs|
  {
    if bs == [] then p else PackFrom(PackStep(p, bs[0], size, overlap), bs[1..], size, overlap)
  }

  /** The packing state after the loop has read all of `bs`. */
  function Pack(bs: seq<string>, size: int, overlap: int): Packing {
    PackFrom(START, bs, size, overlap)
  }

  /** The chunk texts `chunk_text` emits for blocks `bs`: those flushed by the loop and the stripped final buffer unless it is blank. */
  function PackedTexts(bs: seq<string>, size: int, overlap: int): (r: seq<string>)
    ensures |r| <= |bs|
  {
    var p := Pack(bs, size, overlap);
    StripFacts(p.buffer);
    if Strip(p.buffer) != "" then p.texts + [Strip(p.buffer)] else p.texts
  }

  /** The blocks each emitted chunk was built from, in the order of `PackedTexts`. */
  function PackedGroups(bs: seq<string>, size: int, overlap: int): seq<seq<string>> {
    var p := Pack(bs, size, overlap);
    if Strip(p.buffer) != "" then p.groups + [p.pending] else p.groups
  }

  /** Chunk records */

  /** `f"{index + 1}/{total}"`. */
  function Position(index: nat, total: nat): string {
    NatToString(index + 1) + "/" + NatToString(total)
  }

  /** The keys every chunk sets on top of the base metadata. */
  const RESERVED_KEYS: set<string> := {"chunk_index", "position", "embedding_model", "dimension"}

  /**
   * The metadata of the chunk at `index` among blocks numbering `total`: the base
   * metadata overridden by the chunk's index, position, model name and dimension.
   */
  function ChunkMetadata(base: Metadata, index: nat, total: nat): Metadata {
    base + map[
      "chunk_index" := VInt(index),
      "position" := VStr(Position(index, total)),
      "embedding_model" := VStr(GeminiUtils.EMBEDDING_MODEL_NAME),
      "dimension" := VInt(GeminiUtils.EMBEDDING_DIMENSION)]
  }

  /**
   * The chunk metadata holds every base key and the four reserved keys, the reserved
   * ones set to the chunk's values and every other one left as the caller gave it.
   */
  lemma ChunkMetadataContents(base: Metadata, index: nat, total: nat)
    ensures ChunkMetadata(base, index, total).Keys == base.Keys + RESERVED_KEYS
    ensures ChunkMetadata(base, index, total)["chunk_index"] == VInt(index)
    ensures ChunkMetadata(base, index, total)["position"] == VStr(Position(index, total))
    ensures ChunkMetadata(base, index, total)["embedding_model"] == VStr(GeminiUtils.EMBEDDING_MODEL_NAME)
    ensures ChunkMetadata(base, index, total)["dimension"] == VInt(GeminiUtils.EMBEDDING_DIMENSION)
    ensures forall k :: k in base && k !in RESERVED_KEYS ==> ChunkMetadata(base, index, total)[k] == base[k]
  {
  }

  /** The record emitted as the chunk at `index`. */
  function MakeChunk(text: string, index: nat, total: nat, base: Metadata, uuid: nat -> string): (r: ContentChunk)
    ensures StartsWith(r.id, "chunk-") && r.text == text
    ensures r.metadata == ChunkMetadata(base, index, total)
    ensures r.embedding.None? && r.score.None?
  {
    assert ("chunk-" + uuid(index))[..6] == "chunk-";
    ContentChunk("chunk-" + uuid(index), text, ChunkMetadata(base, index, total), None, None)
  }

  /** The records for chunk texts `ts`, numbered from 0 in order. */
  function MakeChunks(ts: seq<string>, total: nat, base: Metadata, uuid: nat -> string): (r: seq<ContentChunk>)
    ensures |r| == |ts|
  {
    if ts == [] then []
    else MakeChunks(ts[..|ts| - 1], total, base, uuid) + [MakeChunk(ts[|ts| - 1], |ts| - 1, total, base, uuid)]
  }

  /** Emitting one more text appends one record, numbered after the others. */
  lemma MakeChunksSnoc(ts: seq<string>, t: string, total: nat, base: Metadata, uuid: nat -> string)
    ensures MakeChunks(ts + [t], total, base, uuid) == MakeChunks(ts, total, base, uuid) + [MakeChunk(t, |ts|, total, base, uuid)]
  {
    assert (ts + [t])[..|ts|] == ts;
  }

  /** The k-th record is the chunk made of the k-th text at index k. */
  lemma {:induction false} MakeChunksAt(ts: seq<string>, total: nat, base: Metadata, uuid: nat -> string, k: nat)
    requires k < |ts|
    ensures MakeChunks(ts, total, base, uuid)[k] == MakeChunk(ts[k], k, total, base, uuid)
  {
    if k < |ts| - 1 {
      MakeChunksAt(ts[..|ts| - 1], total, base, uuid, k);
    }
  }

  /**
   * What `chunk_text` returns: nothing for an empty text, and otherwise one record per
   * packed text, numbered in emission order, positioned against the number of blocks.
   */
  function Chunks(text: string, split: string -> seq<string>, size: int, overlap: int,
                  base: Metadata, uuid: nat -> string): (r: seq<ContentChunk>)
    ensures text == "" ==> r == []
    ensures text != "" ==> |r| == |PackedTexts(Blocks(text, split), size, overlap)| <= |Blocks(text, split)|
  {
    if text == "" then []
    else
      var bs := Blocks(text, split);
      MakeChunks(PackedTexts(bs, size, overlap), |bs|, base, uuid)
  }

  /**
   * The k-th chunk has a `chunk-` id, the k-th packed text, the base metadata with
   * index k and a position out of the number of blocks, and neither embedding nor score.
   */
  lemma ChunkAt(text: string, split: string -> seq<string>, size: int, overlap: int,
                base: Metadata, uuid: nat -> string, k: nat)
    requires k < |Chunks(text, split, size, overlap, base, uuid)|
    ensures var c := Chunks(text, split, size, overlap, base, uuid)[k];
            && StartsWith(c.id, "chunk-")
            && c.text == PackedTexts(Blocks(text, split), size, overlap)[k]
            && c.metadata == ChunkMetadata(base, k, |Blocks(text, split)|)
            && c.embedding.None? && c.score.None?
  {
    var bs := Blocks(text, split);
    MakeChunksAt(PackedTexts(bs, size, overlap), |bs|, base, uuid, k);
  }

  /** The accumulation loop and the fallback to the whole stripped text. */
  method ParagraphBlocks(text: string, split: string -> seq<string>) returns (paragraphs: seq<string>)
    ensures paragraphs == Blocks(text, split)
  {
    var pieces := split(text);
    paragraphs := [];
    var temp := "";
    for i := 0 to |pieces|
      invariant paragraphs + Accumulate(pieces[i..], temp) == Accumulate(pieces, "")
    {
      var item := pieces[i];
      assert pieces[i..][1..] == pieces[i + 1..];
      if Strip(item) != "" {
        temp := temp + item;
      } else if temp != "" {
        paragraphs := paragraphs + [Strip(temp)];
        temp := "";
      }
    }
    if temp != "" {
      paragraphs := paragraphs + [Strip(temp)];
    }
    if paragraphs == [] {
      paragraphs := [Strip(text)];
    }
  }

  /**
   * The packing loop: the chunks it emits and the buffer it leaves, with the packing
   * state they make up.
   */
  method PackLoop(paragraphs: seq<string>, chunkSize: int, overlap: int, metadata: Metadata, uuid: nat -> string)
    returns (chunks: seq<ContentChunk>, current: string, ghost state: Packing)
    ensures state == Pack(paragraphs, chunkSize, overlap) && current == state.buffer
    ensures chunks == MakeChunks(state.texts, |paragraphs|, metadata, uuid)
  {
    chunks := [];
    current := "";
    var index := 0;
    var total := |paragraphs|;
    state := START;
    for i := 0 to |paragraphs|
      invariant PackFrom(state, paragraphs[i..], chunkSize, overlap) == Pack(paragraphs, chunkSize, overlap)
      invariant current == state.buffer
      invariant index == |state.texts| && chunks == MakeChunks(state.texts, total, metadata, uuid)
    {
      var para := paragraphs[i];
      assert paragraphs[i..][1..] == paragraphs[i + 1..];
      ghost var next := PackStep(state, para, chunkSize, overlap);
      if |current| > 0 && |current| + |para| + 2 > chunkSize {
        assert next.texts == state.texts + [Strip(current)];
        MakeChunksSnoc(state.texts, Strip(current), total, metadata, uuid);
        chunks := chunks + [MakeChunk(Strip(current), index, total, metadata, uuid)];
        index := index + 1;
        current := Carry(current, overlap) + para;
      } else if current != "" {
        current := current + SEP + para;
      } else {
        current := para;
      }
      state := next;
    }
    assert paragraphs[|paragraphs|..] == [];
  }

  /** The packing loop and the final emission, over the blocks `paragraphs`. */
  method PackChunks(paragraphs: seq<string>, chunkSize: int, overlap: int, metadata: Metadata, uuid: nat -> string)
    returns (chunks: seq<ContentChunk>)
    ensures chunks == MakeChunks(PackedTexts(paragraphs, chunkSize, overlap), |paragraphs|, metadata, uuid)
  {
    var current;
    ghost var state;
    chunks, current, state := PackLoop(paragraphs, chunkSize, overlap, metadata, uuid);
    if Strip(current) != "" {
      MakeChunksSnoc(state.texts, Strip(current), |paragraphs|, metadata, uuid);
      chunks := chunks + [MakeChunk(Strip(current), |chunks|, |paragraphs|, metadata, uuid)];
    }
  }

  /** `chunk_text`: nothing for an empty text, and otherwise the paragraph blocks packed into chunks. */
  method ChunkText(text: string, chunkSize: int, overlap: int, metadata: Metadata,
                   split: string -> seq<string>, uuid: nat -> string) returns (chunks: seq<ContentChunk>)
    ensures chunks == Chunks(text, split, chunkSize, overlap, metadata, uuid)
  {
    if text == "" {
      return [];
    }
    var paragraphs := ParagraphBlocks(text, split);
    chunks := PackChunks(paragraphs, chunkSize, overlap, metadata, uuid);
  }
}
