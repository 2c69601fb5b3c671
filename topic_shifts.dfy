/** `SemanticChunker.find_topic_shifts`: a topic shift is marked before every sentence
    whose similarity to the sentence before it is below the threshold. The similarity
    is a parameter `sim`: `compute_semantic_similarity` is the embedding model when one
    is loaded and `Similarity.Jaccard` otherwise, and the facts here hold for either. */
module TopicShifts {
  import opened SentenceSplit
  import opened Similarity

  /** Whether sentence `i` starts a new topic. */
  predicate ShiftBefore(ss: seq<Sentence>, sim: (string, string) -> Score, tau: Threshold, i: int)
    requires 0 < i < |ss|
  {
    Below(sim(ss[i - 1].text, ss[i].text), tau)
  }

  /** The shift points the loop has found once it has compared the pairs up to
      sentence `n - 1`. */
  function ShiftsUpTo(ss: seq<Sentence>, sim: (string, string) -> Score, tau: Threshold, n: nat): seq<int>
    requires n <= |ss|
  {
    if n <= 1 then []
    else ShiftsUpTo(ss, sim, tau, n - 1) + (if ShiftBefore(ss, sim, tau, n - 1) then [n - 1] else [])
  }

  function Shifts(ss: seq<Sentence>, sim: (string, string) -> Score, tau: Threshold): seq<int> {
    ShiftsUpTo(ss, sim, tau, |ss|)
  }

  predicate StrictlyIncreasing(xs: seq<int>) {
    forall a, b :: 0 <= a < b < |xs| ==> xs[a] < xs[b]
  }

  /** The shift points among the first `n` sentences are strictly increasing, lie in
      `[1, n-1]`, and are exactly the indices whose pair scores below the threshold. */
  lemma {:induction false} ShiftsUpToFacts(ss: seq<Sentence>, sim: (string, string) -> Score, tau: Threshold, n: nat)
    requires n <= |ss|
    ensures var r := ShiftsUpTo(ss, sim, tau, n);
      && StrictlyIncreasing(r)
      && (forall a :: 0 <= a < |r| ==> 1 <= r[a] < n)
      && (forall i :: 0 < i < n ==> (i in r <==> ShiftBefore(ss, sim, tau, i)))
  {
    if n > 1 {
      ShiftsUpToFacts(ss, sim, tau, n - 1);
      var p := ShiftsUpTo(ss, sim, tau, n - 1);
      var tail := if ShiftBefore(ss, sim, tau, n - 1) then [n - 1] else [];
      assert ShiftsUpTo(ss, sim, tau, n) == p + tail;
      forall i | 0 < i < n ensures (i in p + tail <==> ShiftBefore(ss, sim, tau, i)) {
        assert i in p + tail <==> i in p || i in tail;
      }
    }
  }

  /** The properties `find_topic_shifts` promises of its result. */
  lemma ShiftsFacts(ss: seq<Sentence>, sim: (string, string) -> Score, tau: Threshold)
    ensures var r := Shifts(ss, sim, tau);
      && (|ss| <= 1 ==> r == [])
      && StrictlyIncreasing(r)
      && (forall a :: 0 <= a < |r| ==> 1 <= r[a] < |ss|)
      && (forall i :: 0 < i < |ss| ==> (i in r <==> ShiftBefore(ss, sim, tau, i)))
  {
    ShiftsUpToFacts(ss, sim, tau, |ss|);
  }

  /** A sentence whose similarity to the one before it is negative, as the cosine of two
      opposed embeddings can be, starts a new topic for every non-negative threshold. */
  lemma NegativeIsShift(ss: seq<Sentence>, sim: (string, string) -> Score, tau: Threshold, i: int)
    requires 0 < i < |ss| && sim(ss[i - 1].text, ss[i].text).num < 0 && tau.num >= 0
    ensures i in Shifts(ss, sim, tau)
  {
    NegativeBelow(sim(ss[i - 1].text, ss[i].text), tau);
    ShiftsFacts(ss, sim, tau);
  }

  /** `find_topic_shifts`. */
  method FindTopicShifts(sentences: seq<Sentence>, sim: (string, string) -> Score, tau: Threshold)
    returns (shiftPoints: seq<int>)
    ensures shiftPoints == Shifts(sentences, sim, tau)
    ensures |sentences| <= 1 ==> shiftPoints == []
    ensures StrictlyIncreasing(shiftPoints)
    ensures forall a :: 0 <= a < |shiftPoints| ==> 1 <= shiftPoints[a] < |sentences|
    ensures forall i :: 0 < i < |sentences| ==> (i in shiftPoints <==> ShiftBefore(sentences, sim, tau, i))
  {
    ShiftsFacts(sentences, sim, tau);
    if |sentences| <= 1 {
      return [];
    }
    shiftPoints := [];
    var i := 0;
    while i < |sentences| - 1
      invariant 0 <= i <= |sentences| - 1
      invariant shiftPoints == ShiftsUpTo(sentences, sim, tau, i + 1)
    {
      var similarity := sim(sentences[i].text, sentences[i + 1].text);
      if Below(similarity, tau) {
        shiftPoints := shiftPoints + [i + 1];
      }
      i := i + 1;
    }
  }
}
