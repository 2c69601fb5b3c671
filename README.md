# Semantic chunker, modelled in Dafny

This project models the chunking core of a retrieval pipeline for mathematical documents,
`rag_pipeline/semantic_chunker.py`. It covers the path that needs no optional library:

- `len(text) // 4` counts tokens, and truncation to `n` tokens keeps the first `4 * n`
  characters (four characters per token).
- A regular expression splits the text into sentences.
- The Jaccard index of word sets is the similarity.

Along that path `SemanticChunker.chunk_text`:

1. cuts the text into sentences with character offsets;
2. marks a topic shift before every sentence that is too dissimilar to the one before it;
3. groups the sentences into semantic units at those shifts;
4. packs any unit over the token budget greedily into smaller pieces;
5. widens every unit or piece backwards by the overlap and trims it to the budget;
6. keeps it as a `Chunk` when it reaches the minimum size, with metadata naming its unit and
   flagging mathematical vocabulary.

`chunks_to_faiss_format` serialises the chunks as dictionaries.

The modules follow the source's components:

- **PyText**: the Python string built-ins the code relies on: `isspace`, `strip`, ASCII
  `lower`, `split()`, `' '.join`, slicing with negative indices, and `str(int)`.
- **SentenceSplit**: `split_into_sentences`, the regular-expression fallback.
- **Similarity**: the word-overlap fallback of `compute_semantic_similarity`.
- **TopicShifts**: `find_topic_shifts`.
- **Grouping**: `_group_sentences`.
- **Tokens**, **ChunkerConfig** and **Overlap**: `count_tokens`, `_truncate_to_tokens`, the
  constructor's settings, and `create_chunk_with_overlap`.
- **SplitUnit**: `_split_large_unit`.
- **MathConcepts**: `detect_mathematical_concepts`.
- **Chunks**: the `Chunk` record, `to_dict`, the chunk identifiers and
  `chunks_to_faiss_format`.
- **Chunker**: `chunk_text`.

Each loop of the source is a Dafny `method` proved equal to a specification function. The
properties sit on those functions:

- Field by field, the promises of every chunk `chunk_text` returns (`Chunker.ChunkOk`),
  including the unit span, or the piece of an oversized unit, that it was made from.
- Sentence offsets are contiguous and are slices of the text.
- The units partition the sentences exactly at the topic shifts.
- Greedy packing is maximal.
- The serialised form round-trips back to the same chunk.

The score and the threshold of the similarity are exact fractions, and the numerator may be
negative. The similarity function is a parameter of `TopicShifts`, so its facts hold for any
similarity given as an exact fraction. That includes a cosine in `[-1, 1]`, represented
exactly as the fraction its floating-point value stands for. The
keyword list is a parameter of the detector's lemmas, and it is instantiated with the
source's list.

## Model

| member | source | states |
|---|---|---|
| PyText.StripEmptyIff | rag_pipeline/semantic_chunker.py:188 | `str.strip()` is empty exactly when every character is whitespace |
| PyText.LStripFacts | rag_pipeline/semantic_chunker.py:191 | stripping on the left removes a whitespace prefix and leaves a suffix that is empty or starts with non-whitespace |
| PyText.RStripFacts | rag_pipeline/semantic_chunker.py:191 | stripping on the right removes a whitespace suffix and leaves a prefix that is empty or ends with non-whitespace |
| PyText.LowerFacts | rag_pipeline/semantic_chunker.py:209 | no upper-case ASCII letter is left after `lower()`, and a text without one is unchanged |
| PyText.LowerIdempotent | rag_pipeline/semantic_chunker.py:209 | lower-casing twice is lower-casing once |
| PyText.Words | rag_pipeline/semantic_chunker.py:209 | every word of `split()` is non-empty and does not start with whitespace |
| PyText.WordsEmptyIff | rag_pipeline/semantic_chunker.py:211 | `split()` is empty exactly when the text is blank |
| PyText.PySlice | rag_pipeline/semantic_chunker.py:283 | a Python slice with in-range bounds is the ordinary slice, and never runs past the text |
| PyText.PySliceNegativeEnd | rag_pipeline/semantic_chunker.py:318-319 | with a negative budget `text[:approx_chars]` drops the last `-approx_chars` characters, and is empty when the text is shorter |
| PyText.PySliceConcat | rag_pipeline/semantic_chunker.py:290-293 | two adjacent slices with non-negative bounds join into the slice over both, even past the end of the text |
| PyText.NatToString | rag_pipeline/semantic_chunker.py:373 | the decimal rendering of `len(chunks)` is a non-empty string of digits |
| PyText.ParseNatToString | rag_pipeline/semantic_chunker.py:373 | the decimal rendering reads back as the same number |
| PyText.NatToStringInjective | rag_pipeline/semantic_chunker.py:373 | different numbers render differently |
| SentenceSplit.DelimiterAt | rag_pipeline/semantic_chunker.py:178 | a delimiter match stays inside the text and starts with one of `.!?` |
| SentenceSplit.SpaceRunAllSpace | rag_pipeline/semantic_chunker.py:178 | the `\s+` run is whitespace only |
| SentenceSplit.DelimiterAtMatch | rag_pipeline/semantic_chunker.py:178 | a match is a maximal `[.!?]` run followed by a maximal whitespace run; there is no match exactly when the end-mark run is empty or is not followed by whitespace |
| SentenceSplit.SecondAlternativeSubsumed | rag_pipeline/semantic_chunker.py:178 | wherever `\.\s+[A-Z]` could match, `[.!?]+\s+` already matches, so the second alternative is never used |
| SentenceSplit.PartsConcat | rag_pipeline/semantic_chunker.py:179 | `re.split` alternates pieces and delimiters, and the parts joined back together give the text |
| SentenceSplit.SplitFromSingle | rag_pipeline/semantic_chunker.py:179 | without a delimiter the split is the whole remaining text |
| SentenceSplit.SplitFromSeveral | rag_pipeline/semantic_chunker.py:179 | with a delimiter the split has at least three parts |
| SentenceSplit.PairFromBound | rag_pipeline/semantic_chunker.py:181-192 | the pairing yields at most one sentence per piece–delimiter pair |
| SentenceSplit.PairFromLength | rag_pipeline/semantic_chunker.py:182-192 | on a split result every pair is kept, so there is exactly one sentence per delimiter |
| SentenceSplit.PairUp | rag_pipeline/semantic_chunker.py:181-194 | the pairing loop returns exactly the pairing `PairFrom` of the parts |
| SentenceSplit.SplitIntoSentences | rag_pipeline/semantic_chunker.py:177-194 | the fallback splitter returns exactly `Sentences(text)` |
| SentenceSplit.PairFromAt | rag_pipeline/semantic_chunker.py:184-191 | sentence `j` is piece `2j` joined with delimiter `2j+1`, stripped, and its offsets delimit exactly that piece and delimiter in the text |
| SentenceSplit.PairFromContiguous | rag_pipeline/semantic_chunker.py:189-192 | the first sentence starts at the initial `current_pos`, and every later one starts where the previous one ends |
| SentenceSplit.PairFromRest | rag_pipeline/semantic_chunker.py:182 | what follows the last sentence is exactly the final piece of the split |
| SentenceSplit.SentencesWellFormed | rag_pipeline/semantic_chunker.py:177-194 | offsets lie in the text, start at 0 and are contiguous, and each sentence is the stripped text between its offsets |
| SentenceSplit.SentencesFacts | rag_pipeline/semantic_chunker.py:177-194 | in addition: one sentence per delimiter, each from its piece and delimiter, and the trailing piece is never emitted |
| SentenceSplit.NoSentencesIff | rag_pipeline/semantic_chunker.py:177-194 | no sentence is returned exactly when the text has no `[.!?]+` followed by whitespace |
| SentenceSplit.TrailingParts | rag_pipeline/semantic_chunker.py:179 | `re.split` of "A. B." is `["A", ". ", "B."]` |
| SentenceSplit.TrailingSentenceDropped | rag_pipeline/semantic_chunker.py:182-194 | "A. B." yields only the sentence "A." with offsets 0 to 3 |
| Similarity.Jaccard | rag_pipeline/semantic_chunker.py:207-215 | the word-overlap score lies between 0 and 1 |
| Similarity.JaccardSymmetric | rag_pipeline/semantic_chunker.py:209-215 | the score does not depend on the order of the two texts |
| Similarity.JaccardBlank | rag_pipeline/semantic_chunker.py:211-212 | a blank text scores 0 against anything |
| Similarity.JaccardOneIff | rag_pipeline/semantic_chunker.py:213-215 | the score is 1 exactly when both texts have the same non-empty word set |
| Similarity.JaccardIgnoresCase | rag_pipeline/semantic_chunker.py:209-210 | texts that agree once lower-cased score alike |
| Similarity.OneWord | rag_pipeline/semantic_chunker.py:209 | a non-empty text without whitespace splits into itself alone |
| Similarity.JaccardCaseExample | rag_pipeline/semantic_chunker.py:209-215 | "Theorem" and "theorem" score exactly 1 |
| Similarity.BelowMeansLess | rag_pipeline/semantic_chunker.py:256 | the exact comparison of fractions is `similarity < similarity_threshold` on the rationals |
| TopicShifts.ShiftsUpToFacts | rag_pipeline/semantic_chunker.py:249-257 | after comparing the first `n` sentences the shift points are strictly increasing, lie in `[1, n-1]`, and are exactly the indices whose pair scores below the threshold |
| TopicShifts.ShiftsFacts | rag_pipeline/semantic_chunker.py:236-259 | the same for the whole list, and no shifts for at most one sentence |
| TopicShifts.NegativeIsShift | rag_pipeline/semantic_chunker.py:253-257 | a sentence whose similarity to the previous one is negative, as a cosine can be, is a shift point for every non-negative threshold |
| TopicShifts.FindTopicShifts | rag_pipeline/semantic_chunker.py:236-259 | the loop returns exactly `Shifts`, with the properties above |
| Grouping.PartitionNew | rag_pipeline/semantic_chunker.py:429-433 | opening a new unit at a shift index keeps the partition |
| Grouping.PartitionExtend | rag_pipeline/semantic_chunker.py:434-436 | extending the last unit at an index that is not a shift keeps the partition |
| Grouping.GroupPrefixFacts | rag_pipeline/semantic_chunker.py:425-436 | the units built so far partition the sentences seen, and units start exactly at 0 and at the shift indices |
| Grouping.StartsBounded | rag_pipeline/semantic_chunker.py:428-436 | no unit starts after the last unit does |
| Grouping.GroupFacts | rag_pipeline/semantic_chunker.py:414-442 | `_group_sentences` partitions the sentences into non-empty units cut exactly at the shifts, and no sentences give no units |
| Grouping.GroupSentences | rag_pipeline/semantic_chunker.py:414-442 | the loop returns exactly `Group`, a partition at the shifts |
| Tokens.CountTokens | rag_pipeline/semantic_chunker.py:154-155 | the count is the number of whole four-character blocks |
| Tokens.TruncateToTokens | rag_pipeline/semantic_chunker.py:317-319 | the result is a prefix of the text of length `min(len, 4*max_tokens)`, and for a negative budget Python's count from the end |
| Tokens.TruncateFits | rag_pipeline/semantic_chunker.py:317-319 | with a non-negative budget the result fits it; a text within the budget is kept whole; a text over it is cut to exactly the budget |
| Overlap.OverlapStartFacts | rag_pipeline/semantic_chunker.py:278-291 | the start moves back exactly when a previous chunk ends before the span, the gap has fewer tokens than the overlap and there is room; it moves back by `4*(overlap - gap)`, but not before 0 |
| Overlap.NoOverlapWhenContiguous | rag_pipeline/semantic_chunker.py:282 | with no earlier chunk, or one ending at or after the span's start, no overlap is added |
| Overlap.OverlapPrepends | rag_pipeline/semantic_chunker.py:282-293 | the start never passes `start_char`, and before truncation the chunk text is the overlap text `full_text[actual_start:start_char]` followed by the requested span |
| Overlap.TruncatedSlice | rag_pipeline/semantic_chunker.py:297-301 | trimming a window keeps a prefix of it, within the budget, and a window over budget holds exactly the budget |
| Overlap.WindowFacts | rag_pipeline/semantic_chunker.py:261-303 | the chunk text is the slice between its offsets, starting at or before the span and ending at or before its end; it fits the budget and is cut short only when over budget |
| SplitUnit.Texts | rag_pipeline/semantic_chunker.py:456 | `[s[0] for s in unit]` lists the sentence texts in order |
| SplitUnit.SumTokensAtMostJoined | rag_pipeline/semantic_chunker.py:456-471 | the sentences' own token counts add up to at most the count of the joined unit |
| SplitUnit.PackFromFlatten | rag_pipeline/semantic_chunker.py:467-495 | the groups laid end to end are the group being filled followed by the remaining sentences |
| SplitUnit.PackFromBudget | rag_pipeline/semantic_chunker.py:471-486 | every group stays within the budget, unless it is a single sentence that alone exceeds it |
| SplitUnit.PackFromMaximal | rag_pipeline/semantic_chunker.py:471-486 | the first sentence of every group would have pushed the group before it over the budget |
| SplitUnit.PackFromHead | rag_pipeline/semantic_chunker.py:467-486 | the packing starts with the first sentence |
| SplitUnit.PackFacts | rag_pipeline/semantic_chunker.py:462-495 | the greedy packing partitions the unit into non-empty, within-budget, maximal groups |
| SplitUnit.Pack | rag_pipeline/semantic_chunker.py:462-495 | the packing loop returns exactly the triples of `PackFrom` |
| SplitUnit.SplitGroups | rag_pipeline/semantic_chunker.py:444-495 | the groups behind the triples are non-empty |
| SplitUnit.SplitGroupsFacts | rag_pipeline/semantic_chunker.py:444-495 | the groups partition the unit in order, form a greedy packing, and are empty only for an empty unit |
| SplitUnit.SubSpansWhole | rag_pipeline/semantic_chunker.py:459-460 | a unit within budget comes back as one triple spanning the whole unit |
| SplitUnit.SplitLargeUnit | rag_pipeline/semantic_chunker.py:444-497 | `_split_large_unit` returns exactly `SubSpans` |
| MathConcepts.KeywordsAreLowerWords | rag_pipeline/semantic_chunker.py:134-143 | every keyword of the patterns is a non-empty run of lower-case letters |
| MathConcepts.KeywordIsLowerWord | rag_pipeline/semantic_chunker.py:134-143 | the same, for one keyword |
| MathConcepts.DetectIgnoresCase | rag_pipeline/semantic_chunker.py:144 | texts that agree once lower-cased are flagged alike (`re.IGNORECASE`) |
| MathConcepts.MatchAtLower | rag_pipeline/semantic_chunker.py:144 | whether the pattern matches at a position depends only on the lower-cased text |
| MathConcepts.SymbolFlagged | rag_pipeline/semantic_chunker.py:138-141 | any text containing one of the operator or symbol characters is flagged |
| MathConcepts.PythagoreanFlagged | rag_pipeline/semantic_chunker.py:138 | the sentence "The Pythagorean theorem states that a² + b² = c²." is flagged, by its `=` |
| MathConcepts.KeywordMatchIsWord | rag_pipeline/semantic_chunker.py:135 | `\b...\b` makes a keyword match a whole word: it starts at a word start and spans exactly the word found there |
| MathConcepts.NoMatchAtSeparator | rag_pipeline/semantic_chunker.py:135-141 | no match starts at a character that is neither a word character nor a symbol |
| MathConcepts.NoMatchInWord | rag_pipeline/semantic_chunker.py:135-141 | no match starts inside a whole word that is not a keyword |
| MathConcepts.MatchAtPrefix | rag_pipeline/semantic_chunker.py:198 | before a cut after a non-word character, the joined text matches where the first part does |
| MathConcepts.MatchAtSuffix | rag_pipeline/semantic_chunker.py:198 | after such a cut, the joined text matches where the second part does |
| MathConcepts.SearchConcat | rag_pipeline/semantic_chunker.py:198 | cut after a non-word character, a text matches exactly when one of its two parts does |
| MathConcepts.NoSearchConcat | rag_pipeline/semantic_chunker.py:198 | two unmatched parts cut after a non-word character make an unmatched text |
| MathConcepts.NoSearchWord | rag_pipeline/semantic_chunker.py:198 | a word that is not a keyword, followed by a separator, is not matched |
| MathConcepts.NoSearchWordThen | rag_pipeline/semantic_chunker.py:198 | a word that is not a keyword and a separator in front of an unmatched text leave it unmatched |
| MathConcepts.WeatherNoSearch | rag_pipeline/semantic_chunker.py:198 | "The weather is nice today." is unmatched for any keyword list without its words |
| MathConcepts.WeatherWordsAreNotKeywords | rag_pipeline/semantic_chunker.py:134-143 | none of the words "the", "weather", "is", "nice" and "today" is a keyword |
| MathConcepts.WeatherNotFlagged | rag_pipeline/semantic_chunker.py:196-198 | the sentence "The weather is nice today." is not flagged |
| Chunks.DocPrefix | rag_pipeline/semantic_chunker.py:373 | `document_id or 'doc'` is never empty and is the identifier when one is given |
| Chunks.ChunkIdInjective | rag_pipeline/semantic_chunker.py:373 | within a document, different positions get different chunk identifiers |
| Chunks.MetadataDict | rag_pipeline/semantic_chunker.py:60 | missing metadata serialises as `{}`; otherwise `unit_index` and `has_math` are present, and `sub_index` exactly for a piece of an oversized unit |
| Chunks.ToDict | rag_pipeline/semantic_chunker.py:52-61 | `to_dict` has exactly the six keys of a chunk |
| Chunks.ToDictRoundTrip | rag_pipeline/semantic_chunker.py:52-61 | the dictionary reads back as the same chunk |
| Chunks.ToDictInjective | rag_pipeline/semantic_chunker.py:52-61 | different chunks serialise differently |
| Chunks.FaissRoundTrip | rag_pipeline/semantic_chunker.py:520-530 | every serialised chunk reads back as itself |
| Chunks.ChunksToFaissFormat | rag_pipeline/semantic_chunker.py:520-530 | one dictionary per chunk, in order, each with the six keys and reading back as its chunk |
| Chunker.WellFormedInOrder | rag_pipeline/semantic_chunker.py:338 | the splitter's sentences stay in the text and come one after another |
| Chunker.InOrderParts | rag_pipeline/semantic_chunker.py:349 | both halves of an ordered sentence list are ordered |
| Chunker.InOrderUnits | rag_pipeline/semantic_chunker.py:349 | the units of an ordered sentence list are each ordered |
| Chunker.UnitWindowsOk | rag_pipeline/semantic_chunker.py:357-369 | the windows of one unit lie in the text and are numbered pieces exactly when the unit is over budget; piece `j` spans exactly the `j`-th sub-chunk of `_split_large_unit`, and an unsplit unit spans `[unit_start, unit_end)` |
| Chunker.PlanFacts | rag_pipeline/semantic_chunker.py:356-391 | every window lies in the text, names a unit, spans that unit or its numbered piece, and the windows name the units in order |
| Chunker.NewChunkOk | rag_pipeline/semantic_chunker.py:367-387 | a kept window appends one chunk carrying the window's unit and sub index, starting at or before the window and ending at or before its end (earlier only when truncated to exactly the budget), that satisfies every promise of `ChunkOk`, and records `previous_chunk_end` |
| Chunker.AppendOk | rag_pipeline/semantic_chunker.py:386-387 | appending such a chunk, for the latest unit, keeps all chunks' promises and their unit order |
| Chunker.EmitOk | rag_pipeline/semantic_chunker.py:367-409 | processing one window keeps the state's promises |
| Chunker.RunFacts | rag_pipeline/semantic_chunker.py:353-409 | running all windows keeps the state's promises |
| Chunker.ChunkTextFacts | rag_pipeline/semantic_chunker.py:321-412 | blank text or text without a sentence end gives no chunks; otherwise every chunk has its identifier, is the text slice between its offsets, records its token count within `[min, max]`, flags mathematics correctly, and names a unit and, when that unit is over budget, a valid piece of it, whose span the chunk starts at or before and ends at or before (earlier only when truncated); identifiers are distinct; units appear in order |
| Chunker.EmitWindow | rag_pipeline/semantic_chunker.py:367-387 | the emission block both branches share computes exactly `Emit` |
| Chunker.ChunkUnits | rag_pipeline/semantic_chunker.py:352-409 | the loop over units and pieces computes exactly `Run` over the plan |
| Chunker.ChunkText | rag_pipeline/semantic_chunker.py:321-412 | `chunk_text` returns exactly `ChunkTextSpec`, with all the facts of `ChunkTextFacts` |

## Left out

- The spaCy sentence splitter (lines 166-175) is left out. It is a foreign library; only the
  regular-expression fallback is modelled.
- tiktoken counting and truncation (lines 148-152 and 307-315) are left out. It is a foreign
  library, so `CountTokens` and `TruncateToTokens` are the `len // 4` and `text[:4*n]`
  fallbacks.
- The embedding similarity (lines 217-226) is left out. It is a foreign model and floating
  point. `TopicShifts` takes the similarity as a parameter, so its facts hold for any
  similarity given as an exact fraction, negative cosines included.
  `Chunker` uses `Similarity.Jaccard`, which lines 227-234 repeat when the model fails.
- Logging and the constructor's model loading (lines 99-131) are input/output and are left
  out. `ChunkerConfig.Default` keeps the constructor's numeric defaults.
- `chunk_document` (lines 500-517) only constructs a chunker and calls `chunk_text`. It is
  not modelled separately.
- Similarity.Jaccard: the float division is kept as an exact fraction, and the threshold is
  an exact fraction too: the default 0.7 is exactly 7/10 (`ChunkerConfig.Default`), which the
  double nearest 0.7 is not. Floating-point rounding of both is not modelled.
- MathConcepts.DetectMathematicalConcepts: `re.IGNORECASE` and `\b` are modelled for ASCII
  letters, digits and `_` only. Non-ASCII word characters, and case folding beyond ASCII, are
  not modelled.
- PyText.Lower: lower-cases ASCII letters only.
- Chunks.Chunk: `metadata` is the three fields `chunk_text` writes, not an arbitrary
  dictionary. The serialised value type covers strings, integers, booleans and nested
  dictionaries.
- Overlap.CreateChunkWithOverlap: the separate `text` argument is left out, because
  `chunk_text` always passes the full text as both `text` and `full_text`. The overlap text
  computed at line 290 is never used and is left out.
- SplitUnit.SplitLargeUnit: the `full_text` argument is left out, because it is unused. The
  unit's own text, the first element of each triple, is not read by `chunk_text`.

The model follows the code in the following places, and sometimes that is not what the
documentation suggests:

- The fallback splitter drops the text after the last delimiter, including a final sentence
  that ends the text without trailing whitespace (`SentenceSplit.TrailingSentenceDropped`).
  A text without any delimiter gives no sentences, and so no chunks.
- The second alternative of the sentence pattern can never be used
  (`SentenceSplit.SecondAlternativeSubsumed`).
- A chunk's `start_char` is where the overlap begins, not where its own unit begins.
- No overlap is added when the previous chunk ends at or after the span's start
  (`Overlap.NoOverlapWhenContiguous`). The overlap is measured in characters, 4 per missing
  token, and need not reach back to the previous chunk.
- The settings are not validated. A negative `max_chunk_tokens` makes truncation count from
  the end, as Python slicing does, and `ChunkOk` then bounds the token count only from below.
