/** The fallback token arithmetic: `count_tokens` without tiktoken counts one token per
    four characters, and `_truncate_to_tokens` without tiktoken keeps `4 * max_tokens`
    characters. */
module Tokens {
  import opened PyText

  /** `len(text) // 4`: the number of whole four-character blocks in `text`. */
  function CountTokens(text: string): (n: nat)
    ensures 4 * n <= |text| < 4 * n + 4
  {
    |text| / 4
  }

  /** `text[:max_tokens * 4]`, including Python's reading of a negative bound. */
  function TruncateToTokens(text: string, maxTokens: int): (r: string)
    ensures |r| <= |text| && r == text[..|r|]
    ensures maxTokens >= 0 ==> |r| == if |text| <= 4 * maxTokens then |text| else 4 * maxTokens
    ensures maxTokens < 0 ==> |r| == if |text| + 4 * maxTokens < 0 then 0 else |text| + 4 * maxTokens
  {
    PySlice(text, 0, maxTokens * 4)
  }

  /** With a non-negative budget the truncated text fits it, a text of at most
      `4 * max_tokens` characters is kept whole, and a text over budget is cut to
      exactly the budget. */
  lemma TruncateFits(text: string, maxTokens: int)
    requires maxTokens >= 0
    ensures CountTokens(TruncateToTokens(text, maxTokens)) <= maxTokens
    ensures |text| <= 4 * maxTokens ==> TruncateToTokens(text, maxTokens) == text
    ensures CountTokens(text) > maxTokens ==> CountTokens(TruncateToTokens(text, maxTokens)) == maxTokens
  {
  }
}

/** The settings of a `SemanticChunker` that the chunking logic reads. */
module ChunkerConfig {
  import opened Similarity

  datatype Config = Config(
    overlapTokens: int,
    minChunkTokens: int,
    maxChunkTokens: int,
    similarityThreshold: Threshold)

  /** The constructor defaults: 150 overlap tokens, chunks of 50 to 512 tokens and a
      similarity threshold of 0.7. */
  const Default: Config := Config(150, 50, 512, Threshold(7, 10))
}

/** `SemanticChunker.create_chunk_with_overlap` with the fallback token counter. */
module Overlap {
  import opened PyText
  import opened SentenceSplit
  import opened Tokens
  import opened ChunkerConfig

  /** `actual_start`: where the chunk begins once the overlap has been added. */
  function OverlapStart(fullText: string, startChar: int, previousChunkEnd: Option<int>, overlapTokens: int): int {
    if previousChunkEnd.Some? && previousChunkEnd.value < startChar then
      var gapTokens := CountTokens(PySlice(fullText, previousChunkEnd.value, startChar));
      if gapTokens < overlapTokens then
        var extendStart := startChar - (overlapTokens - gapTokens) * 4;
        if extendStart < 0 then 0 else extendStart
      else startChar
    else startChar
  }

  /** `(chunk_text, actual_start, actual_end)` for the span `[start_char, end_char)`. */
  function CreateChunkWithOverlap(fullText: string, startChar: int, endChar: int, previousChunkEnd: Option<int>, cfg: Config): Span {
    var actualStart := OverlapStart(fullText, startChar, previousChunkEnd, cfg.overlapTokens);
    var chunkText := PySlice(fullText, actualStart, endChar);
    if CountTokens(chunkText) > cfg.maxChunkTokens then
      var truncated := TruncateToTokens(chunkText, cfg.maxChunkTokens);
      Span(truncated, actualStart, actualStart + |truncated|)
    else Span(chunkText, actualStart, endChar)
  }

  /** A non-negative `start_char` is never moved forward. The chunk starts before
      `start_char` exactly when a previous chunk ended before `start_char`, the gap holds
      fewer than `overlap_tokens` tokens and there is room before `start_char`; it then
      starts `4 * (overlap_tokens - gap_tokens)` characters earlier, but not before 0. */
  lemma OverlapStartFacts(fullText: string, startChar: int, previousChunkEnd: Option<int>, overlapTokens: int)
    ensures var r := OverlapStart(fullText, startChar, previousChunkEnd, overlapTokens);
      && (startChar >= 0 ==> r <= startChar)
      && (r < startChar <==>
            (&& previousChunkEnd.Some? && previousChunkEnd.value < startChar && startChar > 0
             && CountTokens(PySlice(fullText, previousChunkEnd.value, startChar)) < overlapTokens))
      && (r < startChar ==>
            var gapTokens := CountTokens(PySlice(fullText, previousChunkEnd.value, startChar));
            r == if startChar - 4 * (overlapTokens - gapTokens) < 0 then 0 else startChar - 4 * (overlapTokens - gapTokens))
  {
  }

  /** With no earlier chunk, or one that ends at or after `start_char`, no overlap is added. */
  lemma NoOverlapWhenContiguous(fullText: string, startChar: int, endChar: int, previousChunkEnd: Option<int>, cfg: Config)
    requires previousChunkEnd.None? || previousChunkEnd.value >= startChar
    ensures CreateChunkWithOverlap(fullText, startChar, endChar, previousChunkEnd, cfg).start == startChar
  {
  }

  /** Before truncation the chunk text is the overlap text `full_text[actual_start:start_char]`
      followed by the span `full_text[start_char:end_char]` that was asked for. */
  lemma OverlapPrepends(fullText: string, startChar: int, endChar: int, previousChunkEnd: Option<int>, overlapTokens: int)
    requires 0 <= startChar <= endChar
    ensures var r := OverlapStart(fullText, startChar, previousChunkEnd, overlapTokens);
      && 0 <= r <= startChar
      && PySlice(fullText, r, endChar) == PySlice(fullText, r, startChar) + PySlice(fullText, startChar, endChar)
  {
    var r := OverlapStart(fullText, startChar, previousChunkEnd, overlapTokens);
    OverlapStartFacts(fullText, startChar, previousChunkEnd, overlapTokens);
    PySliceConcat(fullText, r, startChar, endChar);
  }

  /** Truncating the slice `[s, e)` of the text keeps a prefix of it, which is the slice
      starting at `s` of its own length. */
  lemma TruncatedSlice(fullText: string, s: int, e: int, maxTokens: int)
    requires 0 <= s <= e <= |fullText|
    ensures var t := TruncateToTokens(fullText[s..e], maxTokens);
      && s + |t| <= e && t == fullText[s..s + |t|]
      && (maxTokens >= 0 ==> CountTokens(t) <= maxTokens)
      && (maxTokens >= 0 && CountTokens(fullText[s..e]) > maxTokens ==> CountTokens(t) == maxTokens)
  {
    var t := TruncateToTokens(fullText[s..e], maxTokens);
    assert t == fullText[s..s + |t|];
    if maxTokens >= 0 {
      TruncateFits(fullText[s..e], maxTokens);
    }
  }

  /** For a span inside the text the window is a slice of the text that starts at or
      before the span, ends at or before the span's end, and fits the token budget; it
      is cut short only when the untruncated window is over budget, and then it holds
      exactly `max_chunk_tokens` tokens. */
  lemma WindowFacts(fullText: string, startChar: int, endChar: int, previousChunkEnd: Option<int>, cfg: Config)
    requires 0 <= startChar <= endChar <= |fullText|
    ensures var w := CreateChunkWithOverlap(fullText, startChar, endChar, previousChunkEnd, cfg);
      && 0 <= w.start <= startChar
      && w.start <= w.end <= endChar
      && w.text == fullText[w.start..w.end]
      && (cfg.maxChunkTokens >= 0 ==> CountTokens(w.text) <= cfg.maxChunkTokens)
      && (w.end == endChar || CountTokens(fullText[w.start..endChar]) > cfg.maxChunkTokens)
      && (w.end < endChar && cfg.maxChunkTokens >= 0 ==> CountTokens(w.text) == cfg.maxChunkTokens)
  {
    var s := OverlapStart(fullText, startChar, previousChunkEnd, cfg.overlapTokens);
    OverlapStartFacts(fullText, startChar, previousChunkEnd, cfg.overlapTokens);
    assert PySlice(fullText, s, endChar) == fullText[s..endChar];
    TruncatedSlice(fullText, s, endChar, cfg.maxChunkTokens);
  }
}
