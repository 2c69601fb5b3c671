/** `SemanticChunker._group_sentences`: cut the sentence list into semantic units,
    starting a new unit at every topic-shift index. */
module Grouping {

  /** The units laid end to end: `sum(units, [])`. */
  function Flatten<T>(units: seq<seq<T>>): seq<T> {
    if units == [] then [] else Flatten(units[..|units| - 1]) + units[|units| - 1]
  }

  /** The index, in the flattened list, at which each unit begins. */
  function Starts<T>(units: seq<seq<T>>): (r: seq<int>)
    ensures |r| == |units|
  {
    if units == [] then []
    else Starts(units[..|units| - 1]) + [|Flatten(units[..|units| - 1])|]
  }

  /** `units + [current_unit]` once the loop has placed the first `n` sentences. */
  function GroupPrefix<T>(ss: seq<T>, shifts: seq<int>, n: nat): (units: seq<seq<T>>)
    requires 1 <= n <= |ss|
    ensures |units| >= 1
  {
    if n == 1 then [[ss[0]]]
    else
      var g := GroupPrefix(ss, shifts, n - 1);
      if n - 1 in shifts then g + [[ss[n - 1]]]
      else g[..|g| - 1] + [g[|g| - 1] + [ss[n - 1]]]
  }

  /** The units `_group_sentences` returns. */
  function Group<T>(ss: seq<T>, shifts: seq<int>): seq<seq<T>> {
    if ss == [] then [] else GroupPrefix(ss, shifts, |ss|)
  }

  /** A partition of `ss` into non-empty units whose starts are 0 and the shift indices. */
  ghost predicate PartitionAt<T>(ss: seq<T>, shifts: seq<int>, units: seq<seq<T>>) {
    && Flatten(units) == ss
    && (forall k :: 0 <= k < |units| ==> units[k] != [])
    && (units != [] ==> Starts(units)[0] == 0)
    && (forall i :: 0 < i < |ss| ==> (i in Starts(units) <==> i in shifts))
  }

  /** Opening a new unit at a shift index keeps the partition. */
  lemma PartitionNew<T>(s: seq<T>, shifts: seq<int>, g: seq<seq<T>>, x: T)
    requires g != [] && PartitionAt(s, shifts, g) && |s| in shifts
    ensures PartitionAt(s + [x], shifts, g + [[x]])
  {
    var units := g + [[x]];
    assert units[..|units| - 1] == g;
    assert Starts(units) == Starts(g) + [|s|];
    forall i | 0 < i < |s| + 1 ensures (i in Starts(units) <==> i in shifts) {
      assert i in Starts(units) <==> i in Starts(g) || i == |s|;
    }
  }

  /** Extending the last unit at an index that is not a shift keeps the partition. */
  lemma PartitionExtend<T>(s: seq<T>, shifts: seq<int>, g: seq<seq<T>>, x: T)
    requires g != [] && PartitionAt(s, shifts, g) && |s| !in shifts
    ensures PartitionAt(s + [x], shifts, g[..|g| - 1] + [g[|g| - 1] + [x]])
  {
    var init := g[..|g| - 1];
    var last := g[|g| - 1] + [x];
    var units := init + [last];
    assert units[..|units| - 1] == init;
    assert Flatten(g) == Flatten(init) + g[|g| - 1];
    assert Flatten(units) == Flatten(init) + last;
    assert Starts(units) == Starts(g);
    StartsBounded(g);
    assert |Flatten(init)| < |s|;
    forall k | 0 <= k < |units| ensures units[k] != [] {
      if k < |units| - 1 { assert units[k] == g[k]; }
    }
  }

  lemma {:induction false} GroupPrefixFacts<T>(ss: seq<T>, shifts: seq<int>, n: nat)
    requires 1 <= n <= |ss|
    ensures PartitionAt(ss[..n], shifts, GroupPrefix(ss, shifts, n))
  {
    var units := GroupPrefix(ss, shifts, n);
    if n == 1 {
      assert Flatten(units) == Flatten(units[..0]) + [ss[0]];
      assert Starts(units) == [0] by { assert Starts(units) == Starts(units[..0]) + [|Flatten(units[..0])|]; }
    } else {
      GroupPrefixFacts(ss, shifts, n - 1);
      assert ss[..n] == ss[..n - 1] + [ss[n - 1]];
      var g := GroupPrefix(ss, shifts, n - 1);
      if n - 1 in shifts {
        PartitionNew(ss[..n - 1], shifts, g, ss[n - 1]);
      } else {
        PartitionExtend(ss[..n - 1], shifts, g, ss[n - 1]);
      }
    }
  }

  /** No unit starts after the beginning of the last one. */
  lemma {:induction false} StartsBounded<T>(units: seq<seq<T>>)
    requires units != []
    ensures forall k :: 0 <= k < |units| ==> Starts(units)[k] <= |Flatten(units[..|units| - 1])|
  {
    var init := units[..|units| - 1];
    if init != [] {
      StartsBounded(init);
      assert init[..|init| - 1] == units[..|units| - 2];
      assert Flatten(init) == Flatten(units[..|units| - 2]) + init[|init| - 1];
    }
  }

  /** `_group_sentences` partitions the sentences at the shift indices; no sentences give
      no units. */
  lemma GroupFacts<T>(ss: seq<T>, shifts: seq<int>)
    ensures ss == [] ==> Group(ss, shifts) == []
    ensures PartitionAt(ss, shifts, Group(ss, shifts))
  {
    if ss != [] {
      GroupPrefixFacts(ss, shifts, |ss|);
      assert ss[..|ss|] == ss;
    }
  }

  /** `_group_sentences`. */
  method GroupSentences<T>(sentences: seq<T>, topicShifts: seq<int>) returns (units: seq<seq<T>>)
    ensures units == Group(sentences, topicShifts)
    ensures sentences == [] ==> units == []
    ensures PartitionAt(sentences, topicShifts, units)
  {
    GroupFacts(sentences, topicShifts);
    if sentences == [] {
      return [];
    }
    units := [];
    var currentUnit := [sentences[0]];
    for i := 1 to |sentences|
      invariant currentUnit != []
      invariant units + [currentUnit] == GroupPrefix(sentences, topicShifts, i)
    {
      ghost var before := units + [currentUnit];
      assert before[..|before| - 1] == units;
      if i in topicShifts {
        if currentUnit != [] {
          units := units + [currentUnit];
        }
        currentUnit := [sentences[i]];
      } else {
        currentUnit := currentUnit + [sentences[i]];
      }
    }
    if currentUnit != [] {
      units := units + [currentUnit];
    }
  }
}
