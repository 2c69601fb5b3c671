/** The fallback sentence splitter of `SemanticChunker.split_into_sentences`:
    `re.split` on the pattern `([.!?]+\s+|\.\s+[A-Z])`, followed by the loop that
    pairs each piece with the delimiter after it and tracks character offsets. */
module SentenceSplit {
  import opened PyText

  /** The `(text, start_char, end_char)` triples the chunker passes around: sentences,
      the pieces of a split unit and the window of a chunk. */
  datatype Span = Span(text: string, start: int, end: int)

  type Sentence = Span

  predicate IsEnding(c: char) {
    c == '.' || c == '!' || c == '?'
  }

  /** Length of the run of `[.!?]` characters starting at `p`. */
  function EndingRun(t: string, p: nat): (n: nat)
    requires p <= |t|
    ensures p + n <= |t|
    ensures forall i :: p <= i < p + n ==> IsEnding(t[i])
    ensures p + n == |t| || !IsEnding(t[p + n])
    decreases |t| - p
  {
    if p < |t| && IsEnding(t[p]) then 1 + EndingRun(t, p + 1) else 0
  }

  /** Length of the run of whitespace starting at `p`. */
  function SpaceRun(t: string, p: nat): (n: nat)
    requires p <= |t|
    ensures p + n <= |t|
    ensures p + n == |t| || !IsSpace(t[p + n])
    decreases |t| - p
  {
    if p < |t| && IsSpace(t[p]) then 1 + SpaceRun(t, p + 1) else 0
  }

  /** The run is made of whitespace only. */
  lemma {:induction false} SpaceRunAllSpace(t: string, p: nat)
    requires p <= |t|
    ensures forall i :: p <= i < p + SpaceRun(t, p) ==> IsSpace(t[i])
    decreases |t| - p
  {
    if p < |t| && IsSpace(t[p]) {
      SpaceRunAllSpace(t, p + 1);
    }
  }

  /** Length of the match of `[.!?]+\s+` at `p`, or 0 when there is none there. The
      greedy `[.!?]+` takes the whole run, and no shorter run can be followed by
      whitespace, so the match exists exactly when the run is followed by whitespace. */
  function DelimiterAt(t: string, p: nat): (n: nat)
    requires p <= |t|
    ensures p + n <= |t|
    ensures n > 0 ==> IsEnding(t[p])
  {
    var e := EndingRun(t, p);
    if e > 0 && p + e < |t| && IsSpace(t[p + e]) then e + SpaceRun(t, p + e) else 0
  }

  /** A delimiter match is a maximal run of `[.!?]` followed by a maximal run of
      whitespace; there is none at `p` exactly when the run of end marks there is empty
      or not followed by whitespace. */
  lemma DelimiterAtMatch(t: string, p: nat)
    requires p <= |t|
    ensures var n := DelimiterAt(t, p); var e := EndingRun(t, p);
      && (n > 0 ==>
            && 0 < e < n
            && (forall i :: p <= i < p + e ==> IsEnding(t[i]))
            && (forall i :: p + e <= i < p + n ==> IsSpace(t[i]))
            && (p + n == |t| || !IsSpace(t[p + n])))
      && (n == 0 <==> (e == 0 || p + e == |t| || !IsSpace(t[p + e])))
  {
    var e := EndingRun(t, p);
    if e > 0 && p + e < |t| {
      SpaceRunAllSpace(t, p + e);
    }
  }

  /** The second alternative `\.\s+[A-Z]` can only match where the first one already
      does, so the alternation never takes it and `DelimiterAt` is the whole pattern. */
  lemma SecondAlternativeSubsumed(t: string, p: nat)
    requires p + 1 < |t| && t[p] == '.' && IsSpace(t[p + 1])
    ensures DelimiterAt(t, p) > 0
  {
    assert EndingRun(t, p + 1) == 0;
  }

  predicate HasDelimiter(t: string) {
    exists p :: 0 <= p < |t| && DelimiterAt(t, p) > 0
  }

  /** `re.split` with one capturing group, scanning from `p`; the current piece started at
      `start`. Pieces and delimiters alternate, so there is one piece more than delimiters. */
  function SplitFrom(t: string, start: nat, p: nat): (parts: seq<string>)
    requires start <= p <= |t|
    ensures |parts| >= 1
    decreases |t| - p
  {
    if p == |t| then [t[start..]]
    else
      var d := DelimiterAt(t, p);
      if d > 0 then [t[start..p], t[p..p + d]] + SplitFrom(t, p + d, p + d)
      else SplitFrom(t, start, p + 1)
  }

  /** `sentence_endings.split(text)`. */
  function Parts(t: string): (parts: seq<string>)
    ensures |parts| >= 1
  {
    SplitFrom(t, 0, 0)
  }

  /** A split result: text pieces at even positions, delimiters (which start with one of
      `.!?`) at odd positions, ending with a text piece. */
  predicate Alternating(parts: seq<string>)
    decreases |parts|
  {
    |parts| == 1
    || (|parts| >= 3 && parts[1] != [] && IsEnding(parts[1][0]) && Alternating(parts[2..]))
  }

  lemma AlternatingCons(piece: string, delimiter: string, rest: seq<string>)
    requires delimiter != [] && IsEnding(delimiter[0]) && Alternating(rest)
    ensures Alternating([piece, delimiter] + rest)
  {
    assert ([piece, delimiter] + rest)[2..] == rest;
  }

  lemma ConcatCons(piece: string, delimiter: string, rest: seq<string>)
    ensures Concat([piece, delimiter] + rest) == piece + delimiter + Concat(rest)
  {
    assert ([piece, delimiter] + rest)[1..][1..] == rest;
  }

  lemma SliceThree(t: string, a: nat, b: nat, c: nat)
    requires a <= b <= c <= |t|
    ensures t[a..] == t[a..b] + t[b..c] + t[c..]
  {
  }

  lemma {:induction false} SplitFromAlternating(t: string, start: nat, p: nat)
    requires start <= p <= |t|
    ensures Alternating(SplitFrom(t, start, p))
    decreases |t| - p
  {
    if p < |t| {
      var d := DelimiterAt(t, p);
      if d > 0 {
        SplitFromAlternating(t, p + d, p + d);
        AlternatingCons(t[start..p], t[p..p + d], SplitFrom(t, p + d, p + d));
      } else {
        SplitFromAlternating(t, start, p + 1);
      }
    }
  }

  lemma {:induction false} SplitFromConcat(t: string, start: nat, p: nat)
    requires start <= p <= |t|
    ensures Concat(SplitFrom(t, start, p)) == t[start..]
    decreases |t| - p
  {
    if p < |t| {
      var d := DelimiterAt(t, p);
      if d > 0 {
        SplitFromConcat(t, p + d, p + d);
        ConcatCons(t[start..p], t[p..p + d], SplitFrom(t, p + d, p + d));
        SliceThree(t, start, p, p + d);
      } else {
        SplitFromConcat(t, start, p + 1);
      }
    }
  }

  /** Joining the pieces of the split back together gives the text. */
  lemma PartsConcat(t: string)
    ensures Alternating(Parts(t)) && Concat(Parts(t)) == t
  {
    SplitFromAlternating(t, 0, 0);
    SplitFromConcat(t, 0, 0);
  }

  lemma {:induction false} SplitFromSingle(t: string, start: nat, p: nat)
    requires start <= p <= |t|
    requires forall q :: p <= q < |t| ==> DelimiterAt(t, q) == 0
    ensures SplitFrom(t, start, p) == [t[start..]]
    decreases |t| - p
  {
    if p < |t| {
      SplitFromSingle(t, start, p + 1);
    }
  }

  lemma {:induction false} SplitFromSeveral(t: string, start: nat, p: nat, q: nat)
    requires start <= p <= q < |t| && DelimiterAt(t, q) > 0
    ensures |SplitFrom(t, start, p)| >= 3
    decreases |t| - p
  {
    if DelimiterAt(t, p) == 0 {
      SplitFromSeveral(t, start, p + 1, q);
    }
  }

  /** The pairing loop of `split_into_sentences`, on the pieces still to be paired and the
      running `current_pos`: each piece is joined with the delimiter after it, stripped,
      and kept when not blank. The final piece has no delimiter after it and is dropped. */
  function PairFrom(parts: seq<string>, pos: int): (ss: seq<Sentence>)
    decreases |parts|
  {
    if |parts| < 2 then []
    else
      var sentence := parts[0] + parts[1];
      if Strip(sentence) != [] then
        [Span(Strip(sentence), pos, pos + |sentence|)] + PairFrom(parts[2..], pos + |sentence|)
      else PairFrom(parts[2..], pos)
  }

  /** The pairing yields at most one sentence per piece–delimiter pair. */
  lemma {:induction false} PairFromBound(parts: seq<string>, pos: int)
    ensures 2 * |PairFrom(parts, pos)| <= |parts|
    decreases |parts|
  {
    if |parts| >= 2 {
      var sentence := parts[0] + parts[1];
      PairFromBound(parts[2..], pos + |sentence|);
      PairFromBound(parts[2..], pos);
    }
  }

  lemma PairFromStep(parts: seq<string>, i: nat, pos: int)
    requires i + 1 < |parts|
    ensures Strip(parts[i] + parts[i + 1]) != [] ==>
      PairFrom(parts[i..], pos) == [Span(Strip(parts[i] + parts[i + 1]), pos, pos + |parts[i] + parts[i + 1]|)] + PairFrom(parts[i + 2..], pos + |parts[i] + parts[i + 1]|)
    ensures Strip(parts[i] + parts[i + 1]) == [] ==> PairFrom(parts[i..], pos) == PairFrom(parts[i + 2..], pos)
  {
    assert parts[i..][2..] == parts[i + 2..];
  }

  /** The sentences the fallback splitter returns for `t`. */
  function Sentences(t: string): seq<Sentence> {
    PairFrom(Parts(t), 0)
  }

  /** One turn of the pairing loop keeps the sentences found so far, followed by the
      pairing of the pieces still to come, equal to the whole pairing. */
  lemma PairUpStep(sentences: seq<Sentence>, parts: seq<string>, i: nat, pos: int, whole: seq<Sentence>)
    requires i + 1 < |parts| && sentences + PairFrom(parts[i..], pos) == whole
    ensures var sentence := parts[i] + parts[i + 1];
      if Strip(sentence) != [] then
        (sentences + [Span(Strip(sentence), pos, pos + |sentence|)]) + PairFrom(parts[i + 2..], pos + |sentence|) == whole
      else sentences + PairFrom(parts[i + 2..], pos) == whole
  {
    PairFromStep(parts, i, pos);
  }

  /** The pairing loop of `split_into_sentences` over the result of the split. */
  method PairUp(parts: seq<string>) returns (sentences: seq<Sentence>)
    ensures sentences == PairFrom(parts, 0)
  {
    ghost var whole := PairFrom(parts, 0);
    sentences := [];
    var currentPos := 0;
    var i := 0;
    assert parts[0..] == parts;
    while i < |parts| - 1
      invariant 0 <= i <= |parts|
      invariant sentences + PairFrom(parts[i..], currentPos) == whole
    {
      // The loop bound makes `i + 1 < len(parts)` always true, so the source's
      // fall-back to `parts[i]` alone is never taken.
      var sentence := parts[i] + parts[i + 1];
      PairUpStep(sentences, parts, i, currentPos, whole);
      var stripped := Strip(sentence);
      if stripped != [] {
        var start := currentPos;
        var end := currentPos + |sentence|;
        sentences := sentences + [Span(stripped, start, end)];
        currentPos := end;
      }
      i := i + 2;
    }
    PairFromEnd(parts, i, currentPos);
  }

  lemma PairFromEnd(parts: seq<string>, i: nat, pos: int)
    requires i <= |parts| && i >= |parts| - 1
    ensures PairFrom(parts[i..], pos) == []
  {
  }

  /** `split_into_sentences` when no spaCy model is loaded. */
  method SplitIntoSentences(text: string) returns (sentences: seq<Sentence>)
    ensures sentences == Sentences(text)
  {
    sentences := PairUp(Parts(text));
  }

  /** The offset contract of a sentence list for `t`: each sentence is the stripped text
      between its offsets, the first starts at 0 and each starts where the previous ends. */
  predicate WellFormed(t: string, ss: seq<Sentence>) {
    && (forall j :: 0 <= j < |ss| ==>
          0 <= ss[j].start <= ss[j].end <= |t| && ss[j].text == Strip(t[ss[j].start..ss[j].end]))
    && (|ss| > 0 ==> ss[0].start == 0)
    && (forall j :: 0 < j < |ss| ==> ss[j].start == ss[j - 1].end)
  }

  lemma DelimitedNotBlank(a: string, d: string)
    requires d != [] && IsEnding(d[0])
    ensures Strip(a + d) != []
  {
    StripEmptyIff(a + d);
    assert (a + d)[|a|] == d[0];
  }

  lemma {:induction false} PairFromLength(parts: seq<string>, pos: int)
    requires Alternating(parts)
    ensures |PairFrom(parts, pos)| == |parts| / 2
    decreases |parts|
  {
    if |parts| >= 3 {
      DelimitedNotBlank(parts[0], parts[1]);
      PairFromLength(parts[2..], pos + |parts[0] + parts[1]|);
    }
  }

  lemma ConcatPairs(parts: seq<string>)
    requires |parts| >= 2
    ensures Concat(parts) == parts[0] + parts[1] + Concat(parts[2..])
  {
    assert parts[1..][1..] == parts[2..];
  }

  /** One step of the pairing, read against the text the pieces came from. */
  lemma PairFromHead(t: string, parts: seq<string>, pos: nat)
    requires pos <= |t| && Alternating(parts) && Concat(parts) == t[pos..] && |parts| >= 3
    ensures var sentence := parts[0] + parts[1]; var next := pos + |sentence|;
      && next <= |t| && t[pos..next] == sentence && t[next..] == Concat(parts[2..])
      && PairFrom(parts, pos) == [Span(Strip(sentence), pos, next)] + PairFrom(parts[2..], next)
  {
    var sentence := parts[0] + parts[1];
    DelimitedNotBlank(parts[0], parts[1]);
    ConcatPairs(parts);
    assert t[pos..] == sentence + Concat(parts[2..]);
    assert t[pos..][..|sentence|] == t[pos..pos + |sentence|];
  }

  /** Sentence `j` of the pairing is piece `2j` joined with delimiter `2j+1`, and it lies
      in the text between its offsets. */
  lemma {:induction false} PairFromAt(t: string, parts: seq<string>, pos: nat, j: nat)
    requires pos <= |t| && Alternating(parts) && Concat(parts) == t[pos..]
    requires j < |parts| / 2
    ensures |PairFrom(parts, pos)| == |parts| / 2
    ensures var ss := PairFrom(parts, pos);
      && pos <= ss[j].start <= ss[j].end <= |t|
      && t[ss[j].start..ss[j].end] == parts[2 * j] + parts[2 * j + 1]
      && ss[j].text == Strip(parts[2 * j] + parts[2 * j + 1])
    decreases j
  {
    PairFromLength(parts, pos);
    PairFromHead(t, parts, pos);
    if j > 0 {
      var next := pos + |parts[0] + parts[1]|;
      PairFromAt(t, parts[2..], next, j - 1);
      PairFromAtStep(t, parts, pos, next, j);
    }
  }

  lemma PairFromAtStep(t: string, parts: seq<string>, pos: nat, next: nat, j: nat)
    requires 0 < j && 2 * j + 1 < |parts| && pos <= next
    requires PairFrom(parts, pos) == [Span(Strip(parts[0] + parts[1]), pos, next)] + PairFrom(parts[2..], next)
    requires |PairFrom(parts[2..], next)| == |parts[2..]| / 2
    requires var ss := PairFrom(parts[2..], next);
      && next <= ss[j - 1].start <= ss[j - 1].end <= |t|
      && t[ss[j - 1].start..ss[j - 1].end] == parts[2..][2 * (j - 1)] + parts[2..][2 * (j - 1) + 1]
      && ss[j - 1].text == Strip(parts[2..][2 * (j - 1)] + parts[2..][2 * (j - 1) + 1])
    ensures var ss := PairFrom(parts, pos);
      && |ss| == |parts| / 2
      && pos <= ss[j].start <= ss[j].end <= |t|
      && t[ss[j].start..ss[j].end] == parts[2 * j] + parts[2 * j + 1]
      && ss[j].text == Strip(parts[2 * j] + parts[2 * j + 1])
  {
    ConsIndex(Span(Strip(parts[0] + parts[1]), pos, next), PairFrom(parts[2..], next), j);
    ConsIndex2(parts, j);
  }

  lemma ConsIndex<T>(x: T, xs: seq<T>, j: nat)
    requires 0 < j <= |xs|
    ensures ([x] + xs)[j] == xs[j - 1]
  {
  }

  lemma ConsIndex2(parts: seq<string>, j: nat)
    requires 0 < j && 2 * j + 1 < |parts|
    ensures parts[2..][2 * (j - 1)] == parts[2 * j] && parts[2..][2 * (j - 1) + 1] == parts[2 * j + 1]
  {
  }

  /** The pairing starts at `pos`, and each sentence starts where the one before ends. */
  lemma {:induction false} PairFromContiguous(parts: seq<string>, pos: int, j: nat)
    requires Alternating(parts) && j < |parts| / 2
    ensures |PairFrom(parts, pos)| == |parts| / 2
    ensures var ss := PairFrom(parts, pos);
      && (j == 0 ==> ss[j].start == pos)
      && (j > 0 ==> ss[j].start == ss[j - 1].end)
    decreases j
  {
    PairFromLength(parts, pos);
    DelimitedNotBlank(parts[0], parts[1]);
    var next := pos + |parts[0] + parts[1]|;
    PairFromLength(parts[2..], next);
    var ss := PairFrom(parts, pos);
    var rest := PairFrom(parts[2..], next);
    assert ss == [ss[0]] + rest;
    if j > 0 {
      PairFromContiguous(parts[2..], next, j - 1);
      assert ss[j] == rest[j - 1];
      if j > 1 {
        assert ss[j - 1] == rest[j - 2];
      }
    }
  }

  /** What follows the last sentence is the final piece of the split. */
  lemma {:induction false} PairFromRest(t: string, parts: seq<string>, pos: nat)
    requires pos <= |t| && Alternating(parts) && Concat(parts) == t[pos..]
    ensures var ss := PairFrom(parts, pos);
      && (ss == [] ==> t[pos..] == parts[|parts| - 1])
      && (ss != [] ==> 0 <= ss[|ss| - 1].end <= |t| && t[ss[|ss| - 1].end..] == parts[|parts| - 1])
    decreases |parts|
  {
    if |parts| >= 3 {
      PairFromHead(t, parts, pos);
      PairFromRest(t, parts[2..], pos + |parts[0] + parts[1]|);
    }
  }

  /** The fallback splitter's offsets are contiguous, start at 0 and stay inside `t`, and
      each sentence is the stripped text between its offsets. */
  lemma SentencesWellFormed(t: string)
    ensures WellFormed(t, Sentences(t))
  {
    var ss := Sentences(t);
    var parts := Parts(t);
    PartsConcat(t);
    PairFromLength(parts, 0);
    forall j | 0 <= j < |ss|
      ensures 0 <= ss[j].start <= ss[j].end <= |t| && ss[j].text == Strip(t[ss[j].start..ss[j].end])
    {
      PairFromAt(t, parts, 0, j);
    }
    forall j | 0 <= j < |ss| ensures (j == 0 ==> ss[j].start == 0) && (j > 0 ==> ss[j].start == ss[j - 1].end) {
      PairFromContiguous(parts, 0, j);
    }
  }

  /** Each sentence is a piece of the split joined with the delimiter after it, stripped;
      there is one sentence per delimiter; and everything after the last sentence is the
      final piece, which is never emitted. */
  lemma SentencesFacts(t: string)
    ensures var ss := Sentences(t); var parts := Parts(t);
      && WellFormed(t, ss)
      && |ss| == |parts| / 2
      && (forall j :: 0 <= j < |ss| ==> ss[j].text == Strip(parts[2 * j] + parts[2 * j + 1]))
      && (ss == [] ==> t == parts[|parts| - 1])
      && (ss != [] ==> t[ss[|ss| - 1].end..] == parts[|parts| - 1])
  {
    var ss := Sentences(t);
    var parts := Parts(t);
    SentencesWellFormed(t);
    PartsConcat(t);
    PairFromLength(parts, 0);
    PairFromRest(t, parts, 0);
    forall j | 0 <= j < |ss| ensures ss[j].text == Strip(parts[2 * j] + parts[2 * j + 1]) {
      PairFromAt(t, parts, 0, j);
    }
  }

  /** The splitter finds a sentence exactly when the text contains `[.!?]+` followed by
      whitespace; in particular a text whose only end mark is its last character, or
      that has none, yields no sentence at all. */
  lemma NoSentencesIff(t: string)
    ensures Sentences(t) == [] <==> !HasDelimiter(t)
  {
    SentencesFacts(t);
    if HasDelimiter(t) {
      var q :| 0 <= q < |t| && DelimiterAt(t, q) > 0;
      SplitFromSeveral(t, 0, 0, q);
    } else {
      SplitFromSingle(t, 0, 0);
    }
  }

  /** `re.split` of "A. B.": the final "." has no whitespace after it. */
  lemma TrailingParts()
    ensures Parts("A. B.") == ["A", ". ", "B."]
  {
    var t := "A. B.";
    assert DelimiterAt(t, 0) == 0;
    assert DelimiterAt(t, 1) == 2;
    assert DelimiterAt(t, 3) == 0;
    assert DelimiterAt(t, 4) == 0;
    assert SplitFrom(t, 3, 3) == ["B."] by {
      assert SplitFrom(t, 3, 5) == ["B."];
      assert SplitFrom(t, 3, 4) == SplitFrom(t, 3, 5);
    }
    assert t[0..1] == "A" && t[1..3] == ". ";
    assert SplitFrom(t, 0, 1) == ["A", ". "] + SplitFrom(t, 3, 3);
  }

  lemma StripFirstSentence()
    ensures Strip("A. ") == "A."
  {
    assert LStrip("A. ") == "A. ";
    assert "A. "[..2] == "A.";
    assert RStrip("A.") == "A.";
  }

  /** Concrete case: the last sentence of "A. B." is not followed by whitespace, so only
      the first one is returned. */
  lemma TrailingSentenceDropped()
    ensures Sentences("A. B.") == [Span("A.", 0, 3)]
  {
    TrailingParts();
    StripFirstSentence();
    var parts := ["A", ". ", "B."];
    assert parts[0] + parts[1] == "A. ";
    PairFromStep(parts, 0, 0);
    assert parts[0..] == parts && parts[2..] == ["B."];
    assert PairFrom(["B."], 3) == [];
  }
}
