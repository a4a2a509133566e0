/**
 * What `chunk_text` (api/utils/text_utils.py) guarantees about its output, proved
 * about the specification functions of module `TextUtils`.
 *
 * The packing loop is read through four invariants of its state (`Shape`, `Texts`,
 * `Sizes`, `Flushes`), each kept by one turn of the loop on a well-formed block and
 * hence by the whole loop. The results are then stated over `PackedTexts` and
 * `PackedGroups` (what is emitted and which blocks each emitted chunk holds), and
 * lifted to `Chunks` of a text.
 */
module ChunkProperties {
  import opened PyStr
  import opened Schemas
  import opened TextUtils

  /** Paragraph blocks as the accumulation loop produces them: non-empty and stripped. */
  predicate WellFormed(bs: seq<string>) {
    forall i :: 0 <= i < |bs| ==> bs[i] != "" && IsStripped(bs[i])
  }

  /** The blocks, in order, of a sequence of groups. */
  function Flatten(gs: seq<seq<string>>): seq<string> {
    if gs == [] then [] else Flatten(gs[..|gs| - 1]) + gs[|gs| - 1]
  }

  /** The carry `chunk_text` puts in front of the next chunk, as a function of the flushed buffer. */
  function CarryOf(overlap: int): string -> string {
    b => Carry(b, overlap)
  }

  /** What the chunk at `k` starts with: nothing for the first, the carry of the chunk before it otherwise. */
  function Lead(texts: seq<string>, k: nat, carry: string -> string): string
    requires k <= |texts|
  {
    if k == 0 then "" else carry(texts[k - 1])
  }

  /** The groups of a packing state, the buffer's blocks last. */
  function AllGroups(p: Packing): seq<seq<string>> {
    p.groups + [p.pending]
  }

  /** Invariants of the packing state */

  /**
   * One group per emitted text; the buffer is stripped and empty exactly when it holds
   * no block; nothing is emitted before a block is buffered; emitted texts are non-empty
   * and stripped, and so are never changed by the `strip()` applied when they are flushed.
   */
  predicate Shape(p: Packing) {
    && |p.groups| == |p.texts|
    && IsStripped(p.buffer)
    && (p.buffer == "" <==> p.pending == [])
    && (p.pending == [] ==> p.texts == [])
    && forall k :: 0 <= k < |p.texts| ==> p.texts[k] != "" && IsStripped(p.texts[k]) && p.groups[k] != []
  }

  /** Every text of `ts` is its lead followed by the blocks of its group in `gs` joined with a blank line. */
  predicate Chained(ts: seq<string>, gs: seq<seq<string>>, carry: string -> string)
    decreases |ts|
  {
    && |ts| == |gs|
    && (ts != [] ==>
          && Chained(ts[..|ts| - 1], gs[..|gs| - 1], carry)
          && ts[|ts| - 1] == Lead(ts, |ts| - 1, carry) + Join(gs[|gs| - 1], SEP))
  }

  /** Chaining, read at one index. */
  lemma {:induction false} ChainedAt(ts: seq<string>, gs: seq<seq<string>>, carry: string -> string, k: nat)
    requires Chained(ts, gs, carry) && k < |ts|
    ensures ts[k] == Lead(ts, k, carry) + Join(gs[k], SEP)
    decreases |ts|
  {
    var n := |ts| - 1;
    if k < n {
      var ts', gs' := ts[..n], gs[..n];
      assert Chained(ts', gs', carry);
      ChainedAt(ts', gs', carry, k);
      assert ts'[k] == ts[k] && gs'[k] == gs[k];
      assert Lead(ts', k, carry) == Lead(ts, k, carry) by {
        if k > 0 {
          assert ts'[k - 1] == ts[k - 1];
        }
      }
    }
  }

  /** Every chunk, and the buffer, is its lead followed by its blocks joined with a blank line. */
  predicate Texts(p: Packing, overlap: int) {
    && p.buffer == Lead(p.texts, |p.texts|, CarryOf(overlap)) + Join(p.pending, SEP)
    && Chained(p.texts, p.groups, CarryOf(overlap))
  }

  /** A chunk, or the buffer, longer than `size` holds a single block. */
  predicate Sizes(p: Packing, size: int) {
    && (|p.buffer| <= size || |p.pending| <= 1)
    && |p.groups| == |p.texts|
    && forall k :: 0 <= k < |p.texts| ==> |p.texts[k]| <= size || |p.groups[k]| == 1
  }

  /** Every flushed chunk was flushed because the first block of the next group did not fit beside it. */
  predicate Flushes(p: Packing, size: int) {
    && |p.groups| == |p.texts|
    && forall k :: 0 <= k < |p.texts| ==>
         AllGroups(p)[k + 1] != [] && |p.texts[k]| + |AllGroups(p)[k + 1][0]| + 2 > size
  }

  predicate Inv(p: Packing, size: int, overlap: int) {
    Shape(p) && Texts(p, overlap) && Sizes(p, size) && Flushes(p, size)
  }

  lemma StartInv(size: int, overlap: int)
    ensures Inv(START, size, overlap)
  {
  }

  /** A flushed buffer is emitted unchanged. */
  lemma FlushedAsIs(p: Packing, b: string, size: int, overlap: int)
    requires Shape(p) && |p.buffer| > 0 && |p.buffer| + |b| + 2 > size
    ensures PackStep(p, b, size, overlap) == Packing(p.texts + [p.buffer], p.groups + [p.pending], Carry(p.buffer, overlap) + b, [b])
  {
    StripFacts(p.buffer);
    assert PackStep(p, b, size, overlap).texts == p.texts + [p.buffer];
  }

  lemma FlushShape(p: Packing, b: string, carry: string)
    requires Shape(p) && p.buffer != "" && b != "" && IsStripped(b)
    requires carry == "" || !IsSpace(carry[0])
    ensures Shape(Packing(p.texts + [p.buffer], p.groups + [p.pending], carry + b, [b]))
  {
    var q := Packing(p.texts + [p.buffer], p.groups + [p.pending], carry + b, [b]);
    assert (carry + b)[|carry + b| - 1] == b[|b| - 1];
    if carry != "" {
      assert (carry + b)[0] == carry[0];
    } else {
      assert carry + b == b;
    }
    assert forall k :: 0 <= k < |p.texts| ==> q.texts[k] == p.texts[k] && q.groups[k] == p.groups[k];
  }

  lemma AppendShape(p: Packing, b: string)
    requires Shape(p) && p.buffer != "" && b != "" && IsStripped(b)
    ensures Shape(Packing(p.texts, p.groups, p.buffer + SEP + b, p.pending + [b]))
  {
    var n := p.buffer + SEP + b;
    assert n[0] == p.buffer[0] && n[|n| - 1] == b[|b| - 1];
  }

  lemma StepShape(p: Packing, b: string, size: int, overlap: int)
    requires Shape(p) && b != "" && IsStripped(b)
    ensures Shape(PackStep(p, b, size, overlap))
  {
    if |p.buffer| > 0 && |p.buffer| + |b| + 2 > size {
      FlushedAsIs(p, b, size, overlap);
      CarryFacts(p.buffer, overlap);
      FlushShape(p, b, Carry(p.buffer, overlap));
    } else if p.buffer != "" {
      AppendShape(p, b);
    }
  }

  /** Appending a block to a non-empty group adds a separator and the block to its join. */
  lemma JoinSnoc(xs: seq<string>, x: string)
    requires xs != []
    ensures Join(xs + [x], SEP) == Join(xs, SEP) + SEP + x
  {
    assert (xs + [x])[..|xs|] == xs;
  }

  /** Emitting one more text leaves the lead of every earlier chunk as it was. */
  lemma LeadSnoc(texts: seq<string>, t: string, k: nat, carry: string -> string)
    requires k <= |texts|
    ensures Lead(texts + [t], k, carry) == Lead(texts, k, carry)
  {
    if k > 0 {
      assert (texts + [t])[k - 1] == texts[k - 1];
    }
  }

  /** Adding a text made of its lead and a group keeps the texts chained. */
  lemma ChainedSnoc(ts: seq<string>, gs: seq<seq<string>>, t: string, g: seq<string>, carry: string -> string)
    requires Chained(ts, gs, carry)
    requires t == Lead(ts, |ts|, carry) + Join(g, SEP)
    ensures Chained(ts + [t], gs + [g], carry)
  {
    assert (ts + [t])[..|ts|] == ts && (gs + [g])[..|gs|] == gs;
    LeadSnoc(ts, t, |ts|, carry);
  }

  lemma FlushTexts(p: Packing, b: string, overlap: int)
    requires Texts(p, overlap)
    ensures Texts(Packing(p.texts + [p.buffer], p.groups + [p.pending], Carry(p.buffer, overlap) + b, [b]), overlap)
  {
    ChainedSnoc(p.texts, p.groups, p.buffer, p.pending, CarryOf(overlap));
    assert Join([b], SEP) == b;
  }

  lemma StepTexts(p: Packing, b: string, size: int, overlap: int)
    requires Shape(p) && Texts(p, overlap)
    ensures Texts(PackStep(p, b, size, overlap), overlap)
  {
    if |p.buffer| > 0 && |p.buffer| + |b| + 2 > size {
      FlushedAsIs(p, b, size, overlap);
      FlushTexts(p, b, overlap);
    } else if p.buffer != "" {
      JoinSnoc(p.pending, b);
    } else {
      assert p.pending + [b] == [b] && Join([b], SEP) == b;
    }
  }

  lemma StepSizes(p: Packing, b: string, size: int, overlap: int)
    requires Shape(p) && Sizes(p, size)
    ensures Sizes(PackStep(p, b, size, overlap), size)
  {
    var q := PackStep(p, b, size, overlap);
    if |p.buffer| > 0 && |p.buffer| + |b| + 2 > size {
      FlushedAsIs(p, b, size, overlap);
      assert forall k :: 0 <= k < |p.texts| ==> q.texts[k] == p.texts[k] && q.groups[k] == p.groups[k];
    }
  }

  lemma StepFlushes(p: Packing, b: string, size: int, overlap: int)
    requires Shape(p) && Flushes(p, size)
    ensures Flushes(PackStep(p, b, size, overlap), size)
  {
    var q := PackStep(p, b, size, overlap);
    if |p.buffer| > 0 && |p.buffer| + |b| + 2 > size {
      FlushedAsIs(p, b, size, overlap);
      assert AllGroups(q) == AllGroups(p) + [[b]];
      forall k | 0 <= k < |q.texts|
        ensures AllGroups(q)[k + 1] != [] && |q.texts[k]| + |AllGroups(q)[k + 1][0]| + 2 > size
      {
        if k < |p.texts| {
          assert AllGroups(q)[k + 1] == AllGroups(p)[k + 1] && q.texts[k] == p.texts[k];
        } else {
          assert AllGroups(q)[k + 1] == [b] && q.texts[k] == p.buffer;
        }
      }
    } else if p.buffer != "" {
      forall k | 0 <= k < |q.texts|
        ensures AllGroups(q)[k + 1] != [] && |q.texts[k]| + |AllGroups(q)[k + 1][0]| + 2 > size
      {
        assert AllGroups(q)[k + 1][0] == AllGroups(p)[k + 1][0];
      }
    }
  }

  /** Every turn of the loop on a well-formed block keeps all four invariants. */
  lemma StepInv(p: Packing, b: string, size: int, overlap: int)
    requires Inv(p, size, overlap) && b != "" && IsStripped(b)
    ensures Inv(PackStep(p, b, size, overlap), size, overlap)
  {
    StepShape(p, b, size, overlap);
    StepTexts(p, b, size, overlap);
    StepSizes(p, b, size, overlap);
    StepFlushes(p, b, size, overlap);
  }

  /** The loop over well-formed blocks keeps the invariants. */
  lemma {:induction false} PackFromInv(p: Packing, bs: seq<string>, size: int, overlap: int)
    requires Inv(p, size, overlap) && WellFormed(bs)
    ensures Inv(PackFrom(p, bs, size, overlap), size, overlap)
    decreases |bs|
  {
    if bs != [] {
      StepInv(p, bs[0], size, overlap);
      assert WellFormed(bs[1..]) by {
        forall i | 0 <= i < |bs[1..]| ensures bs[1..][i] != "" && IsStripped(bs[1..][i]) {
          assert bs[1..][i] == bs[i + 1];
        }
      }
      PackFromInv(PackStep(p, bs[0], size, overlap), bs[1..], size, overlap);
    }
  }

  /** The loop loses and reorders no block: the groups, then the buffer's blocks, are what it has read. */
  lemma {:induction false} PackFromConsumes(p: Packing, bs: seq<string>, size: int, overlap: int)
    ensures var r := PackFrom(p, bs, size, overlap);
            Flatten(r.groups) + r.pending == Flatten(p.groups) + p.pending + bs
    decreases |bs|
  {
    if bs != [] {
      var q := PackStep(p, bs[0], size, overlap);
      PackFromConsumes(q, bs[1..], size, overlap);
      assert Flatten(q.groups) + q.pending == Flatten(p.groups) + p.pending + [bs[0]] by {
        if |p.buffer| > 0 && |p.buffer| + |bs[0]| + 2 > size {
          assert (p.groups + [p.pending])[..|p.groups|] == p.groups;
        }
      }
      assert [bs[0]] + bs[1..] == bs;
    }
  }

  /** The state after the whole loop over well-formed blocks. */
  lemma PackInv(bs: seq<string>, size: int, overlap: int)
    requires WellFormed(bs)
    ensures Inv(Pack(bs, size, overlap), size, overlap)
    ensures Flatten(Pack(bs, size, overlap).groups) + Pack(bs, size, overlap).pending == bs
    ensures Strip(Pack(bs, size, overlap).buffer) == Pack(bs, size, overlap).buffer
    ensures bs != [] ==> Pack(bs, size, overlap).buffer != ""
  {
    StartInv(size, overlap);
    PackFromInv(START, bs, size, overlap);
    PackFromConsumes(START, bs, size, overlap);
    var p := Pack(bs, size, overlap);
    StripFacts(p.buffer);
    if p.buffer == "" {
      assert p.groups == [];
    }
  }

  /** What the final emission adds to the chunks of a state: its buffer, unless it is empty. */
  function Emitted(p: Packing): seq<string> {
    if p.buffer != "" then p.texts + [p.buffer] else p.texts
  }

  /** The groups of `Emitted(p)`. */
  function EmittedGroups(p: Packing): seq<seq<string>> {
    if p.buffer != "" then p.groups + [p.pending] else p.groups
  }

  /** Over well-formed blocks, the emitted chunks and groups are those of the final state. */
  lemma PackedAsState(bs: seq<string>, size: int, overlap: int)
    requires WellFormed(bs)
    ensures PackedTexts(bs, size, overlap) == Emitted(Pack(bs, size, overlap))
    ensures PackedGroups(bs, size, overlap) == EmittedGroups(Pack(bs, size, overlap))
  {
    PackInv(bs, size, overlap);
    StripFacts("");
  }

  lemma EmittedShape(p: Packing)
    requires Shape(p)
    ensures |EmittedGroups(p)| == |Emitted(p)|
    ensures forall k :: 0 <= k < |Emitted(p)| ==> Emitted(p)[k] != "" && IsStripped(Emitted(p)[k])
    ensures Flatten(EmittedGroups(p)) == Flatten(p.groups) + p.pending
  {
    if p.buffer != "" {
      assert (p.groups + [p.pending])[..|p.groups|] == p.groups;
    }
  }

  lemma EmittedTexts(p: Packing, overlap: int)
    requires Shape(p) && Texts(p, overlap)
    ensures Chained(Emitted(p), EmittedGroups(p), CarryOf(overlap))
  {
    if p.buffer != "" {
      ChainedSnoc(p.texts, p.groups, p.buffer, p.pending, CarryOf(overlap));
    }
  }

  lemma EmittedSizes(p: Packing, size: int)
    requires Shape(p) && Sizes(p, size)
    ensures |EmittedGroups(p)| == |Emitted(p)|
    ensures forall k :: 0 <= k < |Emitted(p)| ==> |Emitted(p)[k]| <= size || |EmittedGroups(p)[k]| == 1
  {
  }

  lemma EmittedFlushes(p: Packing, size: int)
    requires Shape(p) && Flushes(p, size)
    ensures |EmittedGroups(p)| == |Emitted(p)|
    ensures forall k :: 0 <= k < |Emitted(p)| - 1 ==>
              EmittedGroups(p)[k + 1] != [] && |Emitted(p)[k]| + |EmittedGroups(p)[k + 1][0]| + 2 > size
  {
    if p.buffer != "" {
      assert EmittedGroups(p) == AllGroups(p);
    }
  }

  /** Results about the emitted chunks */

  /**
   * The chunks of well-formed blocks: one group per chunk, every chunk non-empty and
   * stripped, and at least one chunk as soon as there is a block.
   */
  lemma PackedShape(bs: seq<string>, size: int, overlap: int)
    requires WellFormed(bs)
    ensures |PackedGroups(bs, size, overlap)| == |PackedTexts(bs, size, overlap)|
    ensures forall k :: 0 <= k < |PackedTexts(bs, size, overlap)| ==>
              PackedTexts(bs, size, overlap)[k] != "" && IsStripped(PackedTexts(bs, size, overlap)[k])
    ensures bs != [] <==> PackedTexts(bs, size, overlap) != []
  {
    PackInv(bs, size, overlap);
    PackedAsState(bs, size, overlap);
    EmittedShape(Pack(bs, size, overlap));
  }

  /** No block is lost, repeated or reordered: the groups of the chunks, in order, are the blocks. */
  lemma PackedCoverage(bs: seq<string>, size: int, overlap: int)
    requires WellFormed(bs)
    ensures Flatten(PackedGroups(bs, size, overlap)) == bs
  {
    PackInv(bs, size, overlap);
    PackedAsState(bs, size, overlap);
    EmittedShape(Pack(bs, size, overlap));
  }

  /**
   * Each chunk is its blocks joined with a blank line, the first as it is and every
   * later one behind the carry of the chunk before it: the left-stripped tail of at
   * most `overlap` characters of that chunk and a blank line, or nothing.
   */
  lemma PackedTextsFromGroups(bs: seq<string>, size: int, overlap: int)
    requires WellFormed(bs)
    ensures |PackedGroups(bs, size, overlap)| == |PackedTexts(bs, size, overlap)|
    ensures forall k :: 0 <= k < |PackedTexts(bs, size, overlap)| ==>
              PackedTexts(bs, size, overlap)[k]
              == Lead(PackedTexts(bs, size, overlap), k, CarryOf(overlap)) + Join(PackedGroups(bs, size, overlap)[k], SEP)
  {
    PackInv(bs, size, overlap);
    PackedAsState(bs, size, overlap);
    EmittedTexts(Pack(bs, size, overlap), overlap);
    forall k | 0 <= k < |PackedTexts(bs, size, overlap)|
      ensures PackedTexts(bs, size, overlap)[k]
              == Lead(PackedTexts(bs, size, overlap), k, CarryOf(overlap)) + Join(PackedGroups(bs, size, overlap)[k], SEP)
    {
      ChainedAt(PackedTexts(bs, size, overlap), PackedGroups(bs, size, overlap), CarryOf(overlap), k);
    }
  }

  /**
   * The size bound: a chunk longer than `size` holds one block, which did not fit with
   * what came before it (a chunk of one block may pass `size` by its own length and
   * the carry in front of it).
   */
  lemma PackedSizes(bs: seq<string>, size: int, overlap: int)
    requires WellFormed(bs)
    ensures |PackedGroups(bs, size, overlap)| == |PackedTexts(bs, size, overlap)|
    ensures forall k :: 0 <= k < |PackedTexts(bs, size, overlap)| ==>
              |PackedTexts(bs, size, overlap)[k]| <= size || |PackedGroups(bs, size, overlap)[k]| == 1
  {
    PackInv(bs, size, overlap);
    PackedAsState(bs, size, overlap);
    EmittedSizes(Pack(bs, size, overlap), size);
  }

  /** Chunks are as full as the rule allows: the first block of the next chunk did not fit in this one. */
  lemma PackedFlushes(bs: seq<string>, size: int, overlap: int)
    requires WellFormed(bs)
    ensures |PackedGroups(bs, size, overlap)| == |PackedTexts(bs, size, overlap)|
    ensures forall k :: 0 <= k < |PackedTexts(bs, size, overlap)| - 1 ==>
              PackedGroups(bs, size, overlap)[k + 1] != []
              && |PackedTexts(bs, size, overlap)[k]| + |PackedGroups(bs, size, overlap)[k + 1][0]| + 2 > size
  {
    PackInv(bs, size, overlap);
    PackedAsState(bs, size, overlap);
    EmittedFlushes(Pack(bs, size, overlap), size);
  }

  /** A block of a chunk's group appears whole in a text made of a lead and the group joined. */
  lemma BlockInJoin(lead: string, g: seq<string>, j: nat)
    requires j < |g|
    ensures IsSubstring(g[j], lead + Join(g, SEP))
  {
    JoinContains(g, SEP, j);
    var i :| OccursAt(g[j], Join(g, SEP), i);
    assert OccursAt(g[j], lead + Join(g, SEP), |lead| + i);
  }

  /** Every block appears whole inside the chunk that holds it. */
  lemma BlockInChunk(bs: seq<string>, size: int, overlap: int, k: nat, j: nat)
    requires WellFormed(bs)
    requires k < |PackedTexts(bs, size, overlap)|
    requires |PackedGroups(bs, size, overlap)| == |PackedTexts(bs, size, overlap)|
    requires j < |PackedGroups(bs, size, overlap)[k]|
    ensures IsSubstring(PackedGroups(bs, size, overlap)[k][j], PackedTexts(bs, size, overlap)[k])
  {
    PackedTextsFromGroups(bs, size, overlap);
    var ts := PackedTexts(bs, size, overlap);
    BlockInJoin(Lead(ts, k, CarryOf(overlap)), PackedGroups(bs, size, overlap)[k], j);
  }

  /** A single block makes a single chunk, however long it is: paragraphs are never cut. */
  lemma SingleBlockOneChunk(b: string, size: int, overlap: int)
    requires b != "" && IsStripped(b)
    ensures PackedTexts([b], size, overlap) == [b]
  {
    StripFacts(b);
    assert [b][1..] == [];
    assert PackStep(START, b, size, overlap) == Packing([], [], b, [b]);
    assert Pack([b], size, overlap) == PackFrom(Packing([], [], b, [b]), [], size, overlap);
    assert ([] + [b]) == [b];
  }

  /** Results about the paragraph blocks */

  /** The paragraphs the accumulation loop produces are non-empty and stripped, as long as the accumulated text is not blank. */
  lemma {:induction false} AccumulateWellFormed(pieces: seq<string>, temp: string)
    requires temp == "" || Strip(temp) != ""
    ensures WellFormed(Accumulate(pieces, temp))
    decreases |pieces|
  {
    StripFacts(temp);
    if pieces != [] {
      if Strip(pieces[0]) != "" {
        StripFacts(pieces[0]);
        StripFacts(temp + pieces[0]);
        BlankConcat(temp, pieces[0]);
        AccumulateWellFormed(pieces[1..], temp + pieces[0]);
      } else {
        AccumulateWellFormed(pieces[1..], "");
      }
    }
  }

  /** A text with a visible character is cut into well-formed blocks, whatever the split gives. */
  lemma BlocksWellFormed(text: string, split: string -> seq<string>)
    requires Strip(text) != ""
    ensures WellFormed(Blocks(text, split))
    ensures Blocks(text, split) != []
  {
    AccumulateWellFormed(split(text), "");
    StripFacts(text);
  }

  /** The accumulation of blank pieces gives no paragraph. */
  lemma {:induction false} AccumulateBlank(pieces: seq<string>)
    requires forall i :: 0 <= i < |pieces| ==> IsBlank(pieces[i])
    ensures Accumulate(pieces, "") == []
    decreases |pieces|
  {
    if pieces != [] {
      StripFacts(pieces[0]);
      AccumulateBlank(pieces[1..]);
    }
  }

  /** The stripped non-blank pieces, in order. */
  function NonBlank(pieces: seq<string>): seq<string> {
    if pieces == [] then []
    else (if Strip(pieces[0]) != "" then [Strip(pieces[0])] else []) + NonBlank(pieces[1..])
  }

  /** No two neighbouring pieces both have visible text, as when a separator is kept between any two texts. */
  predicate Separated(pieces: seq<string>) {
    forall i :: 0 <= i < |pieces| - 1 ==> Strip(pieces[i]) == "" || Strip(pieces[i + 1]) == ""
  }

  lemma {:induction false} AccumulateSeparated(pieces: seq<string>, temp: string)
    requires Separated(pieces)
    requires temp != "" ==> pieces == [] || Strip(pieces[0]) == ""
    ensures Accumulate(pieces, temp) == (if temp != "" then [Strip(temp)] else []) + NonBlank(pieces)
    decreases |pieces|
  {
    if pieces != [] {
      assert Separated(pieces[1..]) by {
        forall i | 0 <= i < |pieces[1..]| - 1
          ensures Strip(pieces[1..][i]) == "" || Strip(pieces[1..][i + 1]) == ""
        {
          assert pieces[1..][i] == pieces[i + 1] && pieces[1..][i + 1] == pieces[i + 2];
        }
      }
      if Strip(pieces[0]) != "" {
        StripFacts("");
        assert pieces[0] != "" && temp == "" && temp + pieces[0] == pieces[0];
        AccumulateSeparated(pieces[1..], pieces[0]);
      } else {
        AccumulateSeparated(pieces[1..], "");
      }
    }
  }

  /**
   * When the split keeps a separator between any two texts, as `re.split` with a
   * capturing group does, the blocks are the stripped non-blank pieces in order
   * (or the whole stripped text when there are none).
   */
  lemma BlocksOfSeparatedPieces(text: string, split: string -> seq<string>)
    requires Separated(split(text))
    ensures NonBlank(split(text)) != [] ==> Blocks(text, split) == NonBlank(split(text))
    ensures NonBlank(split(text)) == [] ==> Blocks(text, split) == [Strip(text)]
  {
    AccumulateSeparated(split(text), "");
  }

  /** Results about the chunks of a text */

  /** A text with a visible character gives at least one chunk, and every chunk text is non-empty and stripped. */
  lemma NonBlankTextHasChunks(text: string, split: string -> seq<string>, size: int, overlap: int,
                              base: Metadata, uuid: nat -> string)
    requires Strip(text) != ""
    ensures |Chunks(text, split, size, overlap, base, uuid)| >= 1
    ensures forall k :: 0 <= k < |Chunks(text, split, size, overlap, base, uuid)| ==>
              Chunks(text, split, size, overlap, base, uuid)[k].text != ""
              && IsStripped(Chunks(text, split, size, overlap, base, uuid)[k].text)
  {
    StripFacts("");
    var bs := Blocks(text, split);
    BlocksWellFormed(text, split);
    PackedShape(bs, size, overlap);
    forall k | 0 <= k < |Chunks(text, split, size, overlap, base, uuid)|
      ensures Chunks(text, split, size, overlap, base, uuid)[k].text != ""
              && IsStripped(Chunks(text, split, size, overlap, base, uuid)[k].text)
    {
      ChunkAt(text, split, size, overlap, base, uuid, k);
    }
  }

  /**
   * A blank text gives no chunk, when the split loses no character of it (as
   * `re.split` with a capturing group does not).
   */
  lemma BlankTextHasNoChunks(text: string, split: string -> seq<string>, size: int, overlap: int,
                             base: Metadata, uuid: nat -> string)
    requires IsBlank(text) && Join(split(text), "") == text
    ensures Chunks(text, split, size, overlap, base, uuid) == []
  {
    ConcatBlank(split(text));
    AccumulateBlank(split(text));
    StripFacts(text);
    StripFacts("");
    assert [""][1..] == [];
  }

  /** A position names the chunk number and the block count it was made from, so different ones differ. */
  lemma PositionsDistinct(i: nat, n: nat, j: nat, m: nat)
    requires Position(i, n) == Position(j, m)
    ensures i == j && n == m
  {
    assert Free(NatToString(i + 1), '/') && Free(NatToString(n), '/');
    assert Free(NatToString(j + 1), '/') && Free(NatToString(m), '/');
    SplitTwo(NatToString(i + 1), NatToString(n), '/');
    SplitTwo(NatToString(j + 1), NatToString(m), '/');
    NatToStringInjective(i + 1, j + 1);
    NatToStringInjective(n, m);
  }

  /** When the id generator never repeats itself, two chunks of a text have different ids. */
  lemma ChunkIdsDistinct(text: string, split: string -> seq<string>, size: int, overlap: int,
                         base: Metadata, uuid: nat -> string, k: nat, l: nat)
    requires forall a: nat, b: nat :: uuid(a) == uuid(b) ==> a == b
    requires k < l < |Chunks(text, split, size, overlap, base, uuid)|
    ensures Chunks(text, split, size, overlap, base, uuid)[k].id != Chunks(text, split, size, overlap, base, uuid)[l].id
  {
    var bs := Blocks(text, split);
    var ts := PackedTexts(bs, size, overlap);
    MakeChunksAt(ts, |bs|, base, uuid, k);
    MakeChunksAt(ts, |bs|, base, uuid, l);
  }

  /** Two chunks of a text never carry the same `position`. */
  lemma ChunkPositionsDistinct(text: string, split: string -> seq<string>, size: int, overlap: int,
                               base: Metadata, uuid: nat -> string, k: nat, l: nat)
    requires k < l < |Chunks(text, split, size, overlap, base, uuid)|
    ensures var cs := Chunks(text, split, size, overlap, base, uuid);
            && "position" in cs[k].metadata && "position" in cs[l].metadata
            && cs[k].metadata["position"] != cs[l].metadata["position"]
  {
    var n := |Blocks(text, split)|;
    ChunkAt(text, split, size, overlap, base, uuid, k);
    ChunkAt(text, split, size, overlap, base, uuid, l);
    ChunkMetadataContents(base, k, n);
    ChunkMetadataContents(base, l, n);
    if Position(k, n) == Position(l, n) {
      PositionsDistinct(k, n, l, n);
    }
  }
}
