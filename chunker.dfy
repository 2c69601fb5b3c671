/** `SemanticChunker.chunk_text`: split the text into sentences, cut the sentence list into
    semantic units at the topic shifts, turn every unit (or, for a unit over the token
    budget, every piece `_split_large_unit` makes of it) into a window, widen each window
    by the overlap and keep it as a chunk when it reaches the minimum size. */
module Chunker {
  import opened PyText
  import opened SentenceSplit
  import opened Similarity
  import opened TopicShifts
  import opened Grouping
  import opened Tokens
  import opened ChunkerConfig
  import opened Overlap
  import opened SplitUnit
  import opened MathConcepts
  import opened Chunks

  /** A span `[start, end)` of the text that `create_chunk_with_overlap` is asked for,
      with the unit it belongs to and, for a piece of an oversized unit, its position
      among the pieces. */
  datatype Window = Window(start: int, end: int, unitIndex: int, subIndex: Option<int>)

  /** `unit_start` and `unit_end`: the span of a unit, or `[0, len(text))` for an empty one. */
  function UnitStart(unit: seq<Sentence>): int {
    if unit != [] then unit[0].start else 0
  }

  function UnitEnd(text: string, unit: seq<Sentence>): int {
    if unit != [] then unit[|unit| - 1].end else |text|
  }

  /** The windows the loop body makes of unit `idx`. */
  function UnitWindows(text: string, unit: seq<Sentence>, idx: int, maxTokens: int): seq<Window> {
    if CountTokens(UnitText(unit)) > maxTokens then
      var subs := SubSpans(unit, maxTokens);
      seq(|subs|, j requires 0 <= j < |subs| => Window(subs[j].start, subs[j].end, idx, Some(j)))
    else
      [Window(UnitStart(unit), UnitEnd(text, unit), idx, None)]
  }

  /** The windows of all units, in order. */
  function Plan(text: string, units: seq<seq<Sentence>>, maxTokens: int): seq<Window>
    decreases |units|
  {
    if units == [] then []
    else Plan(text, units[..|units| - 1], maxTokens) + UnitWindows(text, units[|units| - 1], |units| - 1, maxTokens)
  }

  /** The loop's variables `chunks` and `previous_chunk_end`. */
  datatype State = State(chunks: seq<Chunk>, previousChunkEnd: Option<int>)

  /** One window: widen it by the overlap, trim it to the budget, and keep it when it
      holds at least `min_chunk_tokens` tokens. */
  function Emit(text: string, documentId: Option<string>, cfg: Config, st: State, w: Window): State {
    var c := CreateChunkWithOverlap(text, w.start, w.end, st.previousChunkEnd, cfg);
    var chunkTokens := CountTokens(c.text);
    if chunkTokens >= cfg.minChunkTokens then
      var meta := Metadata(w.unitIndex, w.subIndex, DetectMathematicalConcepts(c.text));
      State(st.chunks + [Chunk(ChunkId(documentId, |st.chunks|), c.text, chunkTokens, c.start, c.end, Some(meta))], Some(c.end))
    else st
  }

  /** The state after the windows `ws`, starting with no chunks. */
  function Run(text: string, documentId: Option<string>, cfg: Config, ws: seq<Window>): State
    decreases |ws|
  {
    if ws == [] then State([], None)
    else Emit(text, documentId, cfg, Run(text, documentId, cfg, ws[..|ws| - 1]), ws[|ws| - 1])
  }

  /** The semantic units of the text, with the word-overlap similarity. */
  function Units(text: string, cfg: Config): seq<seq<Sentence>> {
    var ss := Sentences(text);
    Group(ss, Shifts(ss, Jaccard, cfg.similarityThreshold))
  }

  /** The chunks `chunk_text` returns. */
  function ChunkTextSpec(text: string, documentId: Option<string>, cfg: Config): seq<Chunk> {
    if Strip(text) == [] then []
    else Run(text, documentId, cfg, Plan(text, Units(text, cfg), cfg.maxChunkTokens)).chunks
  }

  /** Sentences that stay inside `[0, n)` and come one after another. */
  ghost predicate InOrder(ss: seq<Sentence>, n: int) {
    && (forall j :: 0 <= j < |ss| ==> 0 <= ss[j].start && ss[j].end <= n)
    && (forall i, j :: 0 <= i <= j < |ss| ==> ss[i].start <= ss[j].end)
  }

  lemma {:induction false} ChainFrom(t: string, ss: seq<Sentence>, i: nat, j: nat)
    requires WellFormed(t, ss) && i <= j < |ss|
    ensures ss[i].start <= ss[j].end
    decreases j - i
  {
    if i < j {
      ChainFrom(t, ss, i + 1, j);
    }
  }

  /** The fallback splitter's sentences are in order. */
  lemma WellFormedInOrder(t: string, ss: seq<Sentence>)
    requires WellFormed(t, ss)
    ensures InOrder(ss, |t|)
  {
    forall i, j | 0 <= i <= j < |ss| ensures ss[i].start <= ss[j].end {
      ChainFrom(t, ss, i, j);
    }
  }

  /** Both parts of a list of sentences in order are in order. */
  lemma InOrderParts(x: seq<Sentence>, y: seq<Sentence>, n: int)
    requires InOrder(x + y, n)
    ensures InOrder(x, n) && InOrder(y, n)
  {
    var xy := x + y;
    forall j | 0 <= j < |x| ensures 0 <= x[j].start && x[j].end <= n {
      assert xy[j] == x[j];
    }
    forall i, j | 0 <= i <= j < |x| ensures x[i].start <= x[j].end {
      assert xy[i] == x[i] && xy[j] == x[j];
    }
    forall j | 0 <= j < |y| ensures 0 <= y[j].start && y[j].end <= n {
      assert xy[|x| + j] == y[j];
    }
    forall i, j | 0 <= i <= j < |y| ensures y[i].start <= y[j].end {
      assert xy[|x| + i] == y[i] && xy[|x| + j] == y[j];
    }
  }

  /** Every unit of a list of sentences in order is in order. */
  lemma {:induction false} InOrderUnits(units: seq<seq<Sentence>>, n: int)
    requires InOrder(Flatten(units), n)
    ensures forall k :: 0 <= k < |units| ==> InOrder(units[k], n)
    decreases |units|
  {
    if units != [] {
      var init := units[..|units| - 1];
      InOrderParts(Flatten(init), units[|units| - 1], n);
      InOrderUnits(init, n);
      assert forall k :: 0 <= k < |init| ==> units[k] == init[k];
    }
  }

  /** What the plan promises of a window: it lies in the text, it names one of the
      units, it is a numbered piece exactly when its unit is over budget, and it spans
      piece `sub_index` of its unit, or the whole unit when it is not a piece. */
  ghost predicate WindowOk(text: string, units: seq<seq<Sentence>>, maxTokens: int, w: Window) {
    && 0 <= w.start <= w.end <= |text|
    && 0 <= w.unitIndex < |units|
    && (w.subIndex.Some? <==> CountTokens(UnitText(units[w.unitIndex])) > maxTokens)
    && (w.subIndex.Some? ==>
          && 0 <= w.subIndex.value < |SubSpans(units[w.unitIndex], maxTokens)|
          && w.start == SubSpans(units[w.unitIndex], maxTokens)[w.subIndex.value].start
          && w.end == SubSpans(units[w.unitIndex], maxTokens)[w.subIndex.value].end)
    && (w.subIndex.None? ==> w.start == UnitStart(units[w.unitIndex]) && w.end == UnitEnd(text, units[w.unitIndex]))
  }

  ghost predicate PlanOk(text: string, units: seq<seq<Sentence>>, maxTokens: int, ws: seq<Window>) {
    && (forall i :: 0 <= i < |ws| ==> WindowOk(text, units, maxTokens, ws[i]))
    && (forall i, j :: 0 <= i <= j < |ws| ==> ws[i].unitIndex <= ws[j].unitIndex)
  }

  /** The windows of one unit in order. */
  lemma UnitWindowsOk(text: string, units: seq<seq<Sentence>>, idx: nat, maxTokens: int)
    requires idx < |units| && InOrder(units[idx], |text|)
    ensures forall i :: 0 <= i < |UnitWindows(text, units[idx], idx, maxTokens)| ==>
      WindowOk(text, units, maxTokens, UnitWindows(text, units[idx], idx, maxTokens)[i])
  {
    var unit := units[idx];
    if CountTokens(UnitText(unit)) > maxTokens {
      var groups := SplitGroups(unit, maxTokens);
      SplitGroupsFacts(unit, maxTokens);
      InOrderUnits(groups, |text|);
      var subs := SubSpans(unit, maxTokens);
      forall j | 0 <= j < |subs| ensures 0 <= subs[j].start <= subs[j].end <= |text| {
        var g := groups[j];
        assert subs[j] == GroupSpan(g);
        assert InOrder(g, |text|);
        assert g[0].start <= g[|g| - 1].end;
      }
    }
  }

  /** A plan for the first units is a plan for all of them, naming only those units. */
  lemma PlanLift(text: string, units: seq<seq<Sentence>>, n: nat, maxTokens: int, p: seq<Window>)
    requires n <= |units| && PlanOk(text, units[..n], maxTokens, p)
    ensures PlanOk(text, units, maxTokens, p)
    ensures forall i :: 0 <= i < |p| ==> p[i].unitIndex < n
  {
    forall i | 0 <= i < |p| ensures WindowOk(text, units, maxTokens, p[i]) && p[i].unitIndex < n {
      assert WindowOk(text, units[..n], maxTokens, p[i]);
      assert units[..n][p[i].unitIndex] == units[p[i].unitIndex];
    }
  }

  /** Appending the windows of unit `n` to a plan naming only earlier units keeps it a plan. */
  lemma PlanAppend(text: string, units: seq<seq<Sentence>>, n: nat, maxTokens: int, p: seq<Window>, u: seq<Window>)
    requires PlanOk(text, units, maxTokens, p) && forall i :: 0 <= i < |p| ==> p[i].unitIndex < n
    requires forall i :: 0 <= i < |u| ==> WindowOk(text, units, maxTokens, u[i]) && u[i].unitIndex == n
    ensures PlanOk(text, units, maxTokens, p + u)
  {
    var ws := p + u;
    assert forall i :: 0 <= i < |p| ==> ws[i] == p[i];
    assert forall i :: |p| <= i < |ws| ==> ws[i] == u[i - |p|];
  }

  /** The windows of one unit all name that unit. */
  lemma UnitWindowsIndex(text: string, unit: seq<Sentence>, idx: int, maxTokens: int)
    ensures forall i :: 0 <= i < |UnitWindows(text, unit, idx, maxTokens)| ==> UnitWindows(text, unit, idx, maxTokens)[i].unitIndex == idx
  {
  }

  /** The plan's windows lie in the text, name their units in order, and number the
      pieces of exactly the oversized units. */
  lemma {:induction false} PlanFacts(text: string, units: seq<seq<Sentence>>, maxTokens: int)
    requires forall k :: 0 <= k < |units| ==> InOrder(units[k], |text|)
    ensures PlanOk(text, units, maxTokens, Plan(text, units, maxTokens))
    decreases |units|
  {
    if units != [] {
      var n := |units| - 1;
      var init := units[..n];
      assert forall k :: 0 <= k < n ==> init[k] == units[k];
      PlanFacts(text, init, maxTokens);
      var p := Plan(text, init, maxTokens);
      PlanLift(text, units, n, maxTokens, p);
      UnitWindowsOk(text, units, n, maxTokens);
      UnitWindowsIndex(text, units[n], n, maxTokens);
      PlanAppend(text, units, n, maxTokens, p, UnitWindows(text, units[n], n, maxTokens));
    }
  }

  /** What `chunk_text` promises of its `k`-th chunk: its identifier, that it is the slice
      of the text between its offsets, that its token count is recorded and within the
      bounds, that its metadata names its unit and flags mathematics correctly, and that
      it was made from the span of its unit, or of piece `sub_index` of it. */
  ghost predicate ChunkOk(text: string, documentId: Option<string>, cfg: Config, units: seq<seq<Sentence>>, c: Chunk, k: nat) {
    && c.chunkId == ChunkId(documentId, k)
    && 0 <= c.startChar <= c.endChar <= |text|
    && c.text == text[c.startChar..c.endChar]
    && c.tokenLength == CountTokens(c.text)
    && cfg.minChunkTokens <= c.tokenLength
    && (cfg.maxChunkTokens >= 0 ==> c.tokenLength <= cfg.maxChunkTokens)
    && c.metadata.Some?
    && c.metadata.value.hasMath == DetectMathematicalConcepts(c.text)
    && 0 <= c.metadata.value.unitIndex < |units|
    && (c.metadata.value.subIndex.Some? <==> CountTokens(UnitText(units[c.metadata.value.unitIndex])) > cfg.maxChunkTokens)
    && (var unit := units[c.metadata.value.unitIndex]; var sub := c.metadata.value.subIndex;
        if sub.Some? then
          && 0 <= sub.value < |SubSpans(unit, cfg.maxChunkTokens)|
          && WithinSpan(c, cfg, SubSpans(unit, cfg.maxChunkTokens)[sub.value].start, SubSpans(unit, cfg.maxChunkTokens)[sub.value].end)
        else WithinSpan(c, cfg, UnitStart(unit), UnitEnd(text, unit)))
  }

  /** A chunk made from the span `[start, end)`: the overlap may move its start back, and
      it ends before `end` only when it was truncated to exactly `max_chunk_tokens`. */
  ghost predicate WithinSpan(c: Chunk, cfg: Config, start: int, end: int) {
    && c.startChar <= start
    && c.endChar <= end
    && (c.endChar < end && cfg.maxChunkTokens >= 0 ==> c.tokenLength == cfg.maxChunkTokens)
  }

  /** The chunks name their units in non-decreasing order. */
  ghost predicate UnitsInOrder(chunks: seq<Chunk>) {
    forall i, j :: 0 <= i <= j < |chunks| && chunks[i].metadata.Some? && chunks[j].metadata.Some? ==>
      chunks[i].metadata.value.unitIndex <= chunks[j].metadata.value.unitIndex
  }

  ghost predicate StateOk(text: string, documentId: Option<string>, cfg: Config, units: seq<seq<Sentence>>, st: State) {
    && (forall k :: 0 <= k < |st.chunks| ==> ChunkOk(text, documentId, cfg, units, st.chunks[k], k))
    && UnitsInOrder(st.chunks)
    && st.previousChunkEnd == (if st.chunks == [] then None else Some(st.chunks[|st.chunks| - 1].endChar))
  }

  /** The chunk a planned window yields, when kept, satisfies `ChunkOk`. */
  lemma NewChunkOk(text: string, documentId: Option<string>, cfg: Config, units: seq<seq<Sentence>>, st: State, w: Window)
    requires WindowOk(text, units, cfg.maxChunkTokens, w)
    ensures var st' := Emit(text, documentId, cfg, st, w);
      |st'.chunks| > |st.chunks| ==>
        && st'.chunks == st.chunks + [st'.chunks[|st.chunks|]]
        && st'.previousChunkEnd == Some(st'.chunks[|st.chunks|].endChar)
        && st'.chunks[|st.chunks|].metadata.value.unitIndex == w.unitIndex
        && st'.chunks[|st.chunks|].metadata.value.subIndex == w.subIndex
        && WithinSpan(st'.chunks[|st.chunks|], cfg, w.start, w.end)
        && ChunkOk(text, documentId, cfg, units, st'.chunks[|st.chunks|], |st.chunks|)
  {
    WindowFacts(text, w.start, w.end, st.previousChunkEnd, cfg);
  }

  /** Appending a chunk that satisfies `ChunkOk` at the next position and names the
      latest unit keeps every chunk's promises and the order of the units. */
  lemma AppendOk(text: string, documentId: Option<string>, cfg: Config, units: seq<seq<Sentence>>, chunks: seq<Chunk>, c: Chunk, u: int)
    requires forall k :: 0 <= k < |chunks| ==> ChunkOk(text, documentId, cfg, units, chunks[k], k)
    requires UnitsInOrder(chunks)
    requires forall k :: 0 <= k < |chunks| ==> chunks[k].metadata.Some? && chunks[k].metadata.value.unitIndex <= u
    requires ChunkOk(text, documentId, cfg, units, c, |chunks|) && c.metadata.value.unitIndex == u
    ensures forall k :: 0 <= k < |chunks + [c]| ==> ChunkOk(text, documentId, cfg, units, (chunks + [c])[k], k)
    ensures UnitsInOrder(chunks + [c])
    ensures forall k :: 0 <= k < |chunks + [c]| ==> (chunks + [c])[k].metadata.Some? && (chunks + [c])[k].metadata.value.unitIndex <= u
  {
    var cs := chunks + [c];
    assert forall k :: 0 <= k < |chunks| ==> cs[k] == chunks[k];
    assert cs[|chunks|] == c;
  }

  /** Emitting a planned window keeps the state's promises, and the new chunk, if any,
      names the window's unit. */
  lemma EmitOk(text: string, documentId: Option<string>, cfg: Config, units: seq<seq<Sentence>>, st: State, w: Window)
    requires StateOk(text, documentId, cfg, units, st)
    requires WindowOk(text, units, cfg.maxChunkTokens, w)
    requires forall k :: 0 <= k < |st.chunks| ==> st.chunks[k].metadata.value.unitIndex <= w.unitIndex
    ensures var st' := Emit(text, documentId, cfg, st, w);
      && StateOk(text, documentId, cfg, units, st')
      && (forall k :: 0 <= k < |st'.chunks| ==> st'.chunks[k].metadata.value.unitIndex <= w.unitIndex)
  {
    NewChunkOk(text, documentId, cfg, units, st, w);
    var st' := Emit(text, documentId, cfg, st, w);
    if |st'.chunks| > |st.chunks| {
      var c := st'.chunks[|st.chunks|];
      AppendOk(text, documentId, cfg, units, st.chunks, c, w.unitIndex);
    } else {
      assert st' == st;
    }
  }

  /** Running the planned windows keeps the state's promises. */
  lemma {:induction false} RunFacts(text: string, documentId: Option<string>, cfg: Config, units: seq<seq<Sentence>>, ws: seq<Window>)
    requires PlanOk(text, units, cfg.maxChunkTokens, ws)
    ensures var st := Run(text, documentId, cfg, ws);
      && StateOk(text, documentId, cfg, units, st)
      && (ws != [] ==> forall k :: 0 <= k < |st.chunks| ==> st.chunks[k].metadata.value.unitIndex <= ws[|ws| - 1].unitIndex)
    decreases |ws|
  {
    if ws != [] {
      var init := ws[..|ws| - 1];
      assert PlanOk(text, units, cfg.maxChunkTokens, init) by {
        assert forall i :: 0 <= i < |init| ==> init[i] == ws[i];
      }
      RunFacts(text, documentId, cfg, units, init);
      var w := ws[|ws| - 1];
      if init != [] {
        assert init[|init| - 1].unitIndex <= w.unitIndex;
      }
      EmitOk(text, documentId, cfg, units, Run(text, documentId, cfg, init), w);
    }
  }

  /** What `chunk_text` promises of its result: nothing for a blank text or a text
      without a sentence end followed by whitespace; otherwise every chunk satisfies
      `ChunkOk`, the identifiers are distinct, and the chunks follow the units in order.
      The units themselves partition the sentences at the topic shifts. */
  lemma ChunkTextFacts(text: string, documentId: Option<string>, cfg: Config)
    ensures var r := ChunkTextSpec(text, documentId, cfg);
      && (AllSpace(text) || !HasDelimiter(text) ==> r == [])
      && (forall k :: 0 <= k < |r| ==> ChunkOk(text, documentId, cfg, Units(text, cfg), r[k], k))
      && (forall i, j :: 0 <= i < j < |r| ==> r[i].chunkId != r[j].chunkId)
      && UnitsInOrder(r)
    ensures var ss := Sentences(text);
      PartitionAt(ss, Shifts(ss, Jaccard, cfg.similarityThreshold), Units(text, cfg))
  {
    var ss := Sentences(text);
    var units := Units(text, cfg);
    var r := ChunkTextSpec(text, documentId, cfg);
    StripEmptyIff(text);
    NoSentencesIff(text);
    GroupFacts(ss, Shifts(ss, Jaccard, cfg.similarityThreshold));
    if Strip(text) != [] {
      SentencesFacts(text);
      WellFormedInOrder(text, ss);
      InOrderUnits(units, |text|);
      PlanFacts(text, units, cfg.maxChunkTokens);
      RunFacts(text, documentId, cfg, units, Plan(text, units, cfg.maxChunkTokens));
      forall i, j | 0 <= i < j < |r| ensures r[i].chunkId != r[j].chunkId {
        if r[i].chunkId == r[j].chunkId {
          ChunkIdInjective(documentId, i, j);
        }
      }
    }
  }

  /** Extending a planned prefix by one more window. */
  lemma SnocSlice<T>(p: seq<T>, q: seq<T>, i: nat)
    requires i < |q|
    ensures p + q[..i + 1] == (p + q[..i]) + [q[i]]
  {
    assert q[..i + 1] == q[..i] + [q[i]];
  }

  /** The pieces of an oversized unit become its windows, in order. */
  lemma OversizedWindows(text: string, unit: seq<Sentence>, idx: int, maxTokens: int)
    requires CountTokens(UnitText(unit)) > maxTokens
    ensures var subs := SubSpans(unit, maxTokens); var ws := UnitWindows(text, unit, idx, maxTokens);
      && |ws| == |subs|
      && forall j :: 0 <= j < |ws| ==> ws[j] == Window(subs[j].start, subs[j].end, idx, Some(j))
  {
  }

  /** Running one more window is one more `Emit`. */
  lemma RunSnoc(text: string, documentId: Option<string>, cfg: Config, ws: seq<Window>, w: Window)
    ensures Run(text, documentId, cfg, ws + [w]) == Emit(text, documentId, cfg, Run(text, documentId, cfg, ws), w)
  {
    assert (ws + [w])[..|ws|] == ws;
  }

  /** The block both branches of the loop in `chunk_text` run for a window: widen and
      trim it with `create_chunk_with_overlap`, and append it as the next chunk when it
      holds at least `min_chunk_tokens` tokens. */
  method EmitWindow(text: string, documentId: Option<string>, cfg: Config, chunks: seq<Chunk>, previousChunkEnd: Option<int>,
                    startChar: int, endChar: int, unitIndex: int, subIndex: Option<int>)
    returns (newChunks: seq<Chunk>, newPreviousChunkEnd: Option<int>)
    ensures State(newChunks, newPreviousChunkEnd) ==
      Emit(text, documentId, cfg, State(chunks, previousChunkEnd), Window(startChar, endChar, unitIndex, subIndex))
  {
    newChunks, newPreviousChunkEnd := chunks, previousChunkEnd;
    var c := CreateChunkWithOverlap(text, startChar, endChar, previousChunkEnd, cfg);
    var chunkTokens := CountTokens(c.text);
    if chunkTokens >= cfg.minChunkTokens {
      var chunkId := ChunkId(documentId, |chunks|);
      var chunk := Chunk(chunkId, c.text, chunkTokens, c.start, c.end,
        Some(Metadata(unitIndex, subIndex, DetectMathematicalConcepts(c.text))));
      newChunks := chunks + [chunk];
      newPreviousChunkEnd := Some(c.end);
    }
  }

  /** Step 4 of `chunk_text`: the loop over the semantic units, and over the pieces of
      each oversized unit. */
  method ChunkUnits(text: string, documentId: Option<string>, cfg: Config, semanticUnits: seq<seq<Sentence>>)
    returns (chunks: seq<Chunk>)
    ensures chunks == Run(text, documentId, cfg, Plan(text, semanticUnits, cfg.maxChunkTokens)).chunks
  {
    chunks := [];
    var previousChunkEnd: Option<int> := None;
    for idx := 0 to |semanticUnits|
      invariant State(chunks, previousChunkEnd) == Run(text, documentId, cfg, Plan(text, semanticUnits[..idx], cfg.maxChunkTokens))
    {
      var unit := semanticUnits[idx];
      ghost var planned := Plan(text, semanticUnits[..idx], cfg.maxChunkTokens);
      ghost var windows := UnitWindows(text, unit, idx, cfg.maxChunkTokens);
      assert semanticUnits[..idx + 1][..idx] == semanticUnits[..idx];
      assert Plan(text, semanticUnits[..idx + 1], cfg.maxChunkTokens) == planned + windows;
      var unitText := UnitText(unit);
      var unitStart := if unit != [] then unit[0].start else 0;
      var unitEnd := if unit != [] then unit[|unit| - 1].end else |text|;
      var unitTokens := CountTokens(unitText);
      if unitTokens > cfg.maxChunkTokens {
        var subChunks := SplitLargeUnit(unit, cfg.maxChunkTokens);
        OversizedWindows(text, unit, idx, cfg.maxChunkTokens);
        assert planned + windows[..0] == planned;
        for subIdx := 0 to |subChunks|
          invariant State(chunks, previousChunkEnd) == Run(text, documentId, cfg, planned + windows[..subIdx])
        {
          ghost var w := windows[subIdx];
          SnocSlice(planned, windows, subIdx);
          RunSnoc(text, documentId, cfg, planned + windows[..subIdx], w);
          chunks, previousChunkEnd := EmitWindow(text, documentId, cfg, chunks, previousChunkEnd,
            subChunks[subIdx].start, subChunks[subIdx].end, idx, Some(subIdx));
        }
        assert windows[..|subChunks|] == windows;
      } else {
        assert windows == [Window(unitStart, unitEnd, idx, None)];
        RunSnoc(text, documentId, cfg, planned, Window(unitStart, unitEnd, idx, None));
        chunks, previousChunkEnd := EmitWindow(text, documentId, cfg, chunks, previousChunkEnd,
          unitStart, unitEnd, idx, None);
      }
    }
    assert semanticUnits[..|semanticUnits|] == semanticUnits;
  }

  /** `chunk_text` with the fallback sentence splitter, token counter and similarity. */
  method ChunkText(text: string, documentId: Option<string>, cfg: Config) returns (chunks: seq<Chunk>)
    ensures chunks == ChunkTextSpec(text, documentId, cfg)
    ensures AllSpace(text) || !HasDelimiter(text) ==> chunks == []
    ensures forall k :: 0 <= k < |chunks| ==> ChunkOk(text, documentId, cfg, Units(text, cfg), chunks[k], k)
    ensures forall i, j :: 0 <= i < j < |chunks| ==> chunks[i].chunkId != chunks[j].chunkId
    ensures UnitsInOrder(chunks)
  {
    ChunkTextFacts(text, documentId, cfg);
    if text == [] || Strip(text) == [] {
      return [];
    }
    var sentences := SplitIntoSentences(text);
    if sentences == [] {
      return [];
    }
    var topicShifts := FindTopicShifts(sentences, Jaccard, cfg.similarityThreshold);
    var semanticUnits := GroupSentences(sentences, topicShifts);
    chunks := ChunkUnits(text, documentId, cfg, semanticUnits);
  }
}
