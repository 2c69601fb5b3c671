/** The word-overlap fallback of `compute_semantic_similarity` (used when no
    sentence-embedding model is loaded): the Jaccard index of the two texts'
    lower-cased, whitespace-split word sets, kept as an exact fraction. */
module Similarity {
  import opened PyText

  type Pos = n: nat | n > 0 witness 1

  /** A similarity score `num / den`. The numerator may be negative, as a cosine
      similarity can be. */
  datatype Score = Score(num: int, den: Pos)

  /** `similarity_threshold`, taken as the exact fraction `num / den`. */
  datatype Threshold = Threshold(num: int, den: Pos)

  /** `set(text.lower().split())`. */
  function WordSet(text: string): set<string> {
    set w | w in Words(Lower(text))
  }

  /** `len(words1 & words2) / len(words1 | words2)`, or 0 when either set is empty. */
  function Jaccard(text1: string, text2: string): (r: Score)
    ensures 0 <= r.num <= r.den
  {
    var words1 := WordSet(text1);
    var words2 := WordSet(text2);
    if words1 == {} || words2 == {} then Score(0, 1)
    else
      SubsetCard(words1 * words2, words1 + words2);
      Score(|words1 * words2|, |words1 + words2|)
  }

  /** `similarity < similarity_threshold`, compared exactly. */
  predicate Below(r: Score, tau: Threshold) {
    r.num * tau.den < tau.num * r.den
  }

  /** The score does not depend on the order of the two texts. */
  lemma JaccardSymmetric(text1: string, text2: string)
    ensures Jaccard(text1, text2) == Jaccard(text2, text1)
  {
    assert WordSet(text1) * WordSet(text2) == WordSet(text2) * WordSet(text1);
    assert WordSet(text1) + WordSet(text2) == WordSet(text2) + WordSet(text1);
  }

  /** A blank text (no words at all) scores 0 against anything. */
  lemma JaccardBlank(text1: string, text2: string)
    requires AllSpace(text1) || AllSpace(text2)
    ensures Jaccard(text1, text2).num == 0
  {
    if AllSpace(text1) {
      WordsEmptyIff(Lower(text1));
    } else {
      WordsEmptyIff(Lower(text2));
    }
  }

  lemma {:induction false} SubsetCard<T>(a: set<T>, b: set<T>)
    requires a <= b
    ensures |a| <= |b|
    decreases |b|
  {
    if a != {} {
      var x :| x in a;
      SubsetCard(a - {x}, b - {x});
    }
  }

  lemma CardEqualSubset<T>(a: set<T>, b: set<T>)
    requires a <= b && |a| == |b|
    ensures a == b
  {
    if a != b {
      var x :| x in b && x !in a;
      SubsetCard(a, b - {x});
    }
  }

  /** The score is 1 exactly when both texts have the same non-empty word set. */
  lemma JaccardOneIff(text1: string, text2: string)
    ensures var r := Jaccard(text1, text2);
      r.num == r.den <==> (WordSet(text1) == WordSet(text2) && WordSet(text1) != {})
  {
    var a := WordSet(text1);
    var b := WordSet(text2);
    var r := Jaccard(text1, text2);
    if a == b && a != {} {
      assert a * b == a && a + b == a;
    }
    if r.num == r.den && a != {} && b != {} {
      CardEqualSubset(a * b, a + b);
      assert a == b by {
        forall x | x in a + b ensures x in a && x in b { assert x in a * b; }
      }
    }
  }

  /** Case does not matter: texts that agree once lower-cased score alike. */
  lemma JaccardIgnoresCase(text1: string, text1': string, text2: string)
    requires Lower(text1) == Lower(text1')
    ensures Jaccard(text1, text2) == Jaccard(text1', text2)
  {
  }

  /** A non-empty text without whitespace is a single word. */
  lemma OneWord(w: string)
    requires w != [] && forall i :: 0 <= i < |w| ==> !IsSpace(w[i])
    ensures Words(w) == [w]
  {
    assert WordLength(w) == |w|;
    assert w[..|w|] == w && w[|w|..] == [];
  }

  /** Concrete case: an upper-case and a lower-case spelling of one word score 1. */
  lemma JaccardCaseExample()
    ensures Jaccard("Theorem", "theorem") == Score(1, 1)
  {
    var w := "theorem";
    assert Lower("Theorem") == w && Lower(w) == w;
    OneWord(w);
    assert WordSet("Theorem") == {w} && WordSet(w) == {w};
  }

  /** A negative score, such as the cosine of two opposed embeddings, marks a shift for
      every non-negative threshold. */
  lemma NegativeBelow(r: Score, tau: Threshold)
    requires r.num < 0 && tau.num >= 0
    ensures Below(r, tau)
  {
    assert r.num * tau.den < 0;
    assert tau.num * r.den >= 0;
  }

  /** `Below` is the comparison of the two fractions. */
  lemma BelowMeansLess(r: Score, tau: Threshold)
    ensures Below(r, tau) <==> (r.num as real) / (r.den as real) < (tau.num as real) / (tau.den as real)
  {
    var x := (r.num as real) / (r.den as real);
    var y := (tau.num as real) / (tau.den as real);
    assert r.num as real == x * r.den as real;
    assert tau.num as real == y * tau.den as real;
    assert (r.num * tau.den) as real == x * (r.den as real) * (tau.den as real);
    assert (tau.num * r.den) as real == y * (r.den as real) * (tau.den as real);
    assert (r.den as real) * (tau.den as real) > 0.0;
  }
}
