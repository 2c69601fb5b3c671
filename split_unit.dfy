/** `SemanticChunker._split_large_unit`: an oversized semantic unit is packed greedily,
    sentence by sentence, into groups that stay within `max_chunk_tokens`. */
module SplitUnit {
  import opened PyText
  import opened SentenceSplit
  import opened Tokens
  import opened Grouping

  /** `[s[0] for s in unit]`. */
  function Texts(unit: seq<Sentence>): (ts: seq<string>)
    ensures |ts| == |unit| && forall i :: 0 <= i < |unit| ==> ts[i] == unit[i].text
  {
    if unit == [] then [] else [unit[0].text] + Texts(unit[1..])
  }

  /** `' '.join([s[0] for s in unit])`. */
  function UnitText(unit: seq<Sentence>): string {
    Join(Texts(unit))
  }

  /** The sum of the sentences' own token counts. */
  function SumTokens(unit: seq<Sentence>): nat {
    if unit == [] then 0 else CountTokens(unit[0].text) + SumTokens(unit[1..])
  }

  lemma {:induction false} SumTokensSnoc(unit: seq<Sentence>, s: Sentence)
    ensures SumTokens(unit + [s]) == SumTokens(unit) + CountTokens(s.text)
  {
    if unit != [] {
      assert (unit + [s])[1..] == unit[1..] + [s];
      SumTokensSnoc(unit[1..], s);
    }
  }

  /** Joining with spaces never loses tokens: the sentences' own counts add up to at most
      the count of the joined text. */
  lemma {:induction false} SumTokensAtMostJoined(unit: seq<Sentence>)
    ensures SumTokens(unit) <= CountTokens(UnitText(unit))
    ensures 4 * SumTokens(unit) <= |UnitText(unit)|
  {
    if |unit| > 1 {
      SumTokensAtMostJoined(unit[1..]);
      assert Texts(unit)[1..] == Texts(unit[1..]);
      assert |UnitText(unit)| == |unit[0].text| + 1 + |UnitText(unit[1..])|;
    }
  }

  /** The triple `(chunk_text, current_chunk[0][1], current_chunk[-1][2])` for a group. */
  function GroupSpan(g: seq<Sentence>): Span
    requires g != []
  {
    Span(UnitText(g), g[0].start, g[|g| - 1].end)
  }

  function GroupSpans(groups: seq<seq<Sentence>>): seq<Span>
    requires forall k :: 0 <= k < |groups| ==> groups[k] != []
  {
    seq(|groups|, k requires 0 <= k < |groups| => GroupSpan(groups[k]))
  }

  /** The groups the packing loop produces from the sentences `rest`, given the group
      `current` it is filling and that group's running token count. */
  function PackFrom(rest: seq<Sentence>, current: seq<Sentence>, currentTokens: int, maxTokens: int): (groups: seq<seq<Sentence>>)
    ensures forall k :: 0 <= k < |groups| ==> groups[k] != []
    decreases |rest|
  {
    if rest == [] then (if current != [] then [current] else [])
    else
      var sentTokens := CountTokens(rest[0].text);
      if currentTokens + sentTokens <= maxTokens then
        PackFrom(rest[1..], current + [rest[0]], currentTokens + sentTokens, maxTokens)
      else
        (if current != [] then [current] else []) + PackFrom(rest[1..], [rest[0]], sentTokens, maxTokens)
  }

  lemma FlattenCons<T>(g: seq<T>, gs: seq<seq<T>>)
    ensures Flatten([g] + gs) == g + Flatten(gs)
    decreases |gs|
  {
    if gs != [] {
      var all := [g] + gs;
      assert all[..|all| - 1] == [g] + gs[..|gs| - 1];
      FlattenCons(g, gs[..|gs| - 1]);
    }
  }

  /** A group within budget, or a single sentence that alone exceeds it. */
  predicate InBudget(g: seq<Sentence>, maxTokens: int) {
    SumTokens(g) <= maxTokens || |g| == 1
  }

  /** Greedy packing: groups are non-empty and within budget, and the first sentence of
      each group would have pushed the group before it over the budget. */
  ghost predicate GreedyPacking(groups: seq<seq<Sentence>>, maxTokens: int) {
    && (forall k :: 0 <= k < |groups| ==> groups[k] != [])
    && AllInBudget(groups, maxTokens)
    && Maximal(groups, maxTokens)
  }

  ghost predicate AllInBudget(groups: seq<seq<Sentence>>, maxTokens: int) {
    forall k :: 0 <= k < |groups| ==> InBudget(groups[k], maxTokens)
  }

  ghost predicate Maximal(groups: seq<seq<Sentence>>, maxTokens: int) {
    forall k :: 0 < k < |groups| ==>
      groups[k] != [] && SumTokens(groups[k - 1]) + CountTokens(groups[k][0].text) > maxTokens
  }

  lemma PackFromHead(rest: seq<Sentence>, current: seq<Sentence>, currentTokens: int, maxTokens: int)
    requires current + rest != []
    ensures var groups := PackFrom(rest, current, currentTokens, maxTokens);
      groups != [] && groups[0][0] == (current + rest)[0]
    decreases |rest|
  {
    if rest != [] {
      var s := rest[0];
      if currentTokens + CountTokens(s.text) <= maxTokens {
        PackFromHead(rest[1..], current + [s], currentTokens + CountTokens(s.text), maxTokens);
      } else if current == [] {
        PackFromHead(rest[1..], [s], CountTokens(s.text), maxTokens);
      }
    }
  }

  /** The groups laid end to end are `current` followed by `rest`. */
  lemma {:induction false} PackFromFlatten(rest: seq<Sentence>, current: seq<Sentence>, currentTokens: int, maxTokens: int)
    ensures Flatten(PackFrom(rest, current, currentTokens, maxTokens)) == current + rest
    decreases |rest|
  {
    var groups := PackFrom(rest, current, currentTokens, maxTokens);
    if rest == [] {
      if current != [] {
        assert Flatten(groups) == Flatten(groups[..0]) + current;
      }
    } else {
      var s := rest[0];
      var sentTokens := CountTokens(s.text);
      assert current + rest == (current + [s]) + rest[1..];
      if currentTokens + sentTokens <= maxTokens {
        assert groups == PackFrom(rest[1..], current + [s], currentTokens + sentTokens, maxTokens);
        PackFromFlatten(rest[1..], current + [s], currentTokens + sentTokens, maxTokens);
      } else {
        var tail := PackFrom(rest[1..], [s], sentTokens, maxTokens);
        PackFromFlatten(rest[1..], [s], sentTokens, maxTokens);
        assert [s] + rest[1..] == rest;
        if current != [] {
          assert groups == [current] + tail;
          FlattenCons(current, tail);
          assert current + ([s] + rest[1..]) == current + rest;
        } else {
          assert groups == tail;
        }
      }
    }
  }

  /** Every group is within budget, given that the group being filled is. */
  lemma {:induction false} PackFromBudget(rest: seq<Sentence>, current: seq<Sentence>, currentTokens: int, maxTokens: int)
    requires currentTokens == SumTokens(current)
    requires current != [] ==> InBudget(current, maxTokens)
    ensures AllInBudget(PackFrom(rest, current, currentTokens, maxTokens), maxTokens)
    decreases |rest|
  {
    if rest != [] {
      var s := rest[0];
      var sentTokens := CountTokens(s.text);
      if currentTokens + sentTokens <= maxTokens {
        SumTokensSnoc(current, s);
        assert PackFrom(rest, current, currentTokens, maxTokens)
          == PackFrom(rest[1..], current + [s], currentTokens + sentTokens, maxTokens);
        PackFromBudget(rest[1..], current + [s], currentTokens + sentTokens, maxTokens);
      } else {
        assert SumTokens([s]) == sentTokens;
        var tail := PackFrom(rest[1..], [s], sentTokens, maxTokens);
        PackFromBudget(rest[1..], [s], sentTokens, maxTokens);
        var groups := PackFrom(rest, current, currentTokens, maxTokens);
        if current != [] {
          assert groups == [current] + tail;
          forall k | 0 <= k < |groups| ensures InBudget(groups[k], maxTokens) {
            if k > 0 { assert groups[k] == tail[k - 1]; }
          }
        } else {
          assert groups == tail;
        }
      }
    }
  }

  /** The first sentence of each group would have pushed the previous group over budget. */
  lemma {:induction false} PackFromMaximal(rest: seq<Sentence>, current: seq<Sentence>, currentTokens: int, maxTokens: int)
    requires currentTokens == SumTokens(current)
    ensures Maximal(PackFrom(rest, current, currentTokens, maxTokens), maxTokens)
    decreases |rest|
  {
    var groups: seq<seq<Sentence>> := PackFrom(rest, current, currentTokens, maxTokens);
    if rest != [] {
      var s := rest[0];
      var sentTokens := CountTokens(s.text);
      if currentTokens + sentTokens <= maxTokens {
        SumTokensSnoc(current, s);
        assert groups == PackFrom(rest[1..], current + [s], currentTokens + sentTokens, maxTokens);
        PackFromMaximal(rest[1..], current + [s], currentTokens + sentTokens, maxTokens);
      } else {
        var tail := PackFrom(rest[1..], [s], sentTokens, maxTokens);
        assert SumTokens([s]) == sentTokens;
        PackFromMaximal(rest[1..], [s], sentTokens, maxTokens);
        if current != [] {
          PackFromHead(rest[1..], [s], sentTokens, maxTokens);
          assert groups == [current] + tail;
          forall k | 0 < k < |groups|
            ensures groups[k] != [] && SumTokens(groups[k - 1]) + CountTokens(groups[k][0].text) > maxTokens
          {
            if k > 1 { assert groups[k - 1] == tail[k - 2] && groups[k] == tail[k - 1]; }
          }
        }
      }
    }
  }

  /** Greedy packing from an empty group partitions the sentences. */
  lemma PackFacts(unit: seq<Sentence>, maxTokens: int)
    ensures Flatten(PackFrom(unit, [], 0, maxTokens)) == unit
    ensures GreedyPacking(PackFrom(unit, [], 0, maxTokens), maxTokens)
  {
    PackFromFlatten(unit, [], 0, maxTokens);
    assert [] + unit == unit;
    PackFromBudget(unit, [], 0, maxTokens);
    PackFromMaximal(unit, [], 0, maxTokens);
  }

  /** One turn of the packing loop. */
  lemma PackFromStep(rest: seq<Sentence>, current: seq<Sentence>, currentTokens: int, maxTokens: int)
    requires rest != []
    ensures PackFrom(rest, current, currentTokens, maxTokens) ==
      var sentTokens := CountTokens(rest[0].text);
      if currentTokens + sentTokens <= maxTokens then
        PackFrom(rest[1..], current + [rest[0]], currentTokens + sentTokens, maxTokens)
      else
        (if current != [] then [current] else []) + PackFrom(rest[1..], [rest[0]], sentTokens, maxTokens)
  {
  }

  /** The sentence groups behind `_split_large_unit`'s triples: the whole unit when it
      fits, the greedy packing otherwise. */
  function SplitGroups(unit: seq<Sentence>, maxTokens: int): (groups: seq<seq<Sentence>>)
    ensures forall k :: 0 <= k < |groups| ==> groups[k] != []
  {
    if unit == [] then []
    else if CountTokens(UnitText(unit)) <= maxTokens then [unit]
    else PackFrom(unit, [], 0, maxTokens)
  }

  /** The groups partition the unit in order and are a greedy packing of it. */
  lemma SplitGroupsFacts(unit: seq<Sentence>, maxTokens: int)
    ensures Flatten(SplitGroups(unit, maxTokens)) == unit
    ensures GreedyPacking(SplitGroups(unit, maxTokens), maxTokens)
    ensures unit == [] <==> SplitGroups(unit, maxTokens) == []
  {
    if unit != [] {
      if CountTokens(UnitText(unit)) <= maxTokens {
        SumTokensAtMostJoined(unit);
        assert Flatten([unit]) == Flatten([unit][..0]) + unit;
      } else {
        PackFacts(unit, maxTokens);
      }
    }
  }

  /** The triples `_split_large_unit` returns. */
  function SubSpans(unit: seq<Sentence>, maxTokens: int): seq<Span> {
    GroupSpans(SplitGroups(unit, maxTokens))
  }

  /** A unit within budget is returned as one triple spanning the whole unit. */
  lemma SubSpansWhole(unit: seq<Sentence>, maxTokens: int)
    requires unit != [] && CountTokens(UnitText(unit)) <= maxTokens
    ensures SubSpans(unit, maxTokens) == [Span(UnitText(unit), unit[0].start, unit[|unit| - 1].end)]
  {
  }

  /** The packing loop of `_split_large_unit`. */
  method Pack(unit: seq<Sentence>, maxTokens: int) returns (chunks: seq<Span>)
    ensures chunks == GroupSpans(PackFrom(unit, [], 0, maxTokens))
  {
    chunks := [];
    ghost var done: seq<seq<Sentence>> := [];
    var currentChunk: seq<Sentence> := [];
    var currentTokens := 0;
    for i := 0 to |unit|
      invariant forall k :: 0 <= k < |done| ==> done[k] != []
      invariant chunks == GroupSpans(done)
      invariant done + PackFrom(unit[i..], currentChunk, currentTokens, maxTokens) == PackFrom(unit, [], 0, maxTokens)
    {
      var sentence := unit[i];
      var sentTokens := CountTokens(sentence.text);
      assert unit[i..][0] == sentence && unit[i..][1..] == unit[i + 1..];
      PackFromStep(unit[i..], currentChunk, currentTokens, maxTokens);
      if currentTokens + sentTokens <= maxTokens {
        currentChunk := currentChunk + [sentence];
        currentTokens := currentTokens + sentTokens;
      } else {
        ghost var rest := PackFrom(unit[i + 1..], [sentence], sentTokens, maxTokens);
        if currentChunk != [] {
          chunks := chunks + [Span(UnitText(currentChunk), currentChunk[0].start, currentChunk[|currentChunk| - 1].end)];
          GroupSpansSnoc(done, currentChunk);
          assert (done + [currentChunk]) + rest == done + ([currentChunk] + rest);
          done := done + [currentChunk];
        } else {
          assert [] + rest == rest;
        }
        currentChunk := [sentence];
        currentTokens := sentTokens;
      }
    }
    assert unit[|unit|..] == [];
    if currentChunk != [] {
      chunks := chunks + [Span(UnitText(currentChunk), currentChunk[0].start, currentChunk[|currentChunk| - 1].end)];
      GroupSpansSnoc(done, currentChunk);
    }
  }

  lemma GroupSpansSnoc(groups: seq<seq<Sentence>>, g: seq<Sentence>)
    requires forall k :: 0 <= k < |groups| ==> groups[k] != []
    requires g != []
    ensures GroupSpans(groups + [g]) == GroupSpans(groups) + [GroupSpan(g)]
  {
    var all := groups + [g];
    assert forall k :: 0 <= k < |groups| ==> all[k] == groups[k];
  }

  /** `_split_large_unit`. */
  method SplitLargeUnit(unit: seq<Sentence>, maxTokens: int) returns (chunks: seq<Span>)
    ensures chunks == SubSpans(unit, maxTokens)
  {
    if unit == [] {
      return [];
    }
    var unitText := UnitText(unit);
    var unitTokens := CountTokens(unitText);
    if unitTokens <= maxTokens {
      return [Span(unitText, unit[0].start, unit[|unit| - 1].end)];
    }
    chunks := Pack(unit, maxTokens);
  }
}
