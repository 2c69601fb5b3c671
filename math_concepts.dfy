/** `SemanticChunker.detect_mathematical_concepts`: a case-insensitive search for any of
    a fixed list of whole-word keywords or mathematical symbols. */
module MathConcepts {
  import opened PyText

  /** The alternatives of the keyword patterns (theorem words, action words, expression
      words, calculus words, linear-algebra words and exercise words), sorted here by
      length. */
  predicate IsKeyword(w: string) {
    match |w|
    case 3 => w == "sum"
    case 4 => w == "show" || w == "step"
    case 5 => w == "lemma" || w == "proof" || w == "solve" || w == "prove" || w == "limit"
    case 6 => w == "derive" || w == "matrix" || w == "vector" || w == "scalar" || w == "tensor"
    case 7 => w == "theorem" || w == "compute" || w == "formula" || w == "product" || w == "example" || w == "problem"
    case 8 => w == "equation" || w == "function" || w == "variable" || w == "integral" || w == "solution"
    case 9 => w == "corollary" || w == "calculate"
    case 10 => w == "definition" || w == "expression" || w == "derivative"
    case 11 => w == "proposition"
    case _ => false
  }

  /** The operator class `[=<>≤≥≠≈]` and the symbol class `[∫∑∏√∞]`. */
  predicate IsMathSymbol(c: char) {
    c == '=' || c == '<' || c == '>'
    || c == '≤' || c == '≥' || c == '≠' || c == '≈'
    || c == '∫' || c == '∑' || c == '∏' || c == '√' || c == '∞'
  }

  /** A character of a word for `\b`: a letter, a digit or `_`. */
  predicate IsWordChar(c: char) {
    ('a' <= c <= 'z') || ('A' <= c <= 'Z') || ('0' <= c <= '9') || c == '_'
  }

  /** `\b(keyword)\b` matches, ignoring case, the `n` characters at position `p`, for the
      keyword list `kw`. */
  predicate KeywordAt(t: string, p: int, n: int, kw: string -> bool) {
    && 0 <= p && 0 < n && p + n <= |t|
    && kw(Lower(t[p..p + n]))
    && (p == 0 || !IsWordChar(t[p - 1]))
    && (p + n == |t| || !IsWordChar(t[p + n]))
  }

  /** Some alternative of the combined pattern matches at position `p`. */
  predicate MatchAt(t: string, p: int, kw: string -> bool) {
    0 <= p < |t| && (IsMathSymbol(t[p]) || exists n :: 0 < n <= |t| - p && KeywordAt(t, p, n, kw))
  }

  /** The search for the combined pattern with the keyword list `kw`. */
  predicate Search(text: string, kw: string -> bool) {
    exists p :: 0 <= p < |text| && MatchAt(text, p, kw)
  }

  /** `bool(self.math_regex.search(text))`. */
  predicate DetectMathematicalConcepts(text: string) {
    Search(text, IsKeyword)
  }

  /** Keyword lists whose entries are non-empty runs of lower-case ASCII letters. */
  ghost predicate LowerWords(kw: string -> bool) {
    forall w :: kw(w) ==> w != [] && forall i :: 0 <= i < |w| ==> 'a' <= w[i] <= 'z'
  }

  /** The keyword list of the detector is such a list. */
  lemma KeywordsAreLowerWords()
    ensures LowerWords(IsKeyword)
  {
    forall w | IsKeyword(w) ensures w != [] && forall i :: 0 <= i < |w| ==> 'a' <= w[i] <= 'z' {
      KeywordIsLowerWord(w);
    }
  }

  /** Case does not matter: texts that agree once lower-cased are flagged alike. */
  lemma DetectIgnoresCase(text1: string, text2: string)
    requires Lower(text1) == Lower(text2)
    ensures DetectMathematicalConcepts(text1) == DetectMathematicalConcepts(text2)
  {
    forall p | 0 <= p < |text1| ensures MatchAt(text1, p, IsKeyword) <==> MatchAt(text2, p, IsKeyword) {
      MatchAtLower(text1, p, IsKeyword);
      MatchAtLower(text2, p, IsKeyword);
    }
  }

  /** Whether the pattern matches at `p` depends only on the lower-cased text. */
  lemma MatchAtLower(t: string, p: int, kw: string -> bool)
    requires 0 <= p < |t|
    ensures MatchAt(t, p, kw) <==> MatchAt(Lower(t), p, kw)
  {
    var l := Lower(t);
    forall n | 0 < n <= |t| - p ensures KeywordAt(t, p, n, kw) <==> KeywordAt(l, p, n, kw) {
      assert Lower(t[p..p + n]) == Lower(l[p..p + n]) by {
        LowerIdempotent(t[p..p + n]);
        assert Lower(t[p..p + n]) == l[p..p + n];
      }
    }
  }

  /** Any text containing one of the operator or symbol characters is flagged. */
  lemma SymbolFlagged(t: string, p: int)
    requires 0 <= p < |t| && IsMathSymbol(t[p])
    ensures DetectMathematicalConcepts(t)
  {
    assert MatchAt(t, p, IsKeyword);
  }

  /** A sentence stating the Pythagorean theorem is flagged, through the `=` at 44. */
  lemma PythagoreanFlagged()
    ensures DetectMathematicalConcepts("The Pythagorean theorem states that a² + b² = c².")
  {
    var t := "The Pythagorean theorem states that a² + b² = c².";
    assert t[44] == '=';
    SymbolFlagged(t, 44);
  }

  /** Every keyword is a non-empty run of lower-case ASCII letters. */
  lemma KeywordIsLowerWord(w: string)
    requires IsKeyword(w)
    ensures w != [] && forall i :: 0 <= i < |w| ==> 'a' <= w[i] <= 'z'
  {
  }

  /** The number of word characters from position `p` on. */
  function WordRun(t: string, p: nat): (n: nat)
    requires p <= |t|
    ensures p + n <= |t|
    decreases |t| - p
  {
    if p < |t| && IsWordChar(t[p]) then 1 + WordRun(t, p + 1) else 0
  }

  lemma {:induction false} WordRunAt(t: string, p: nat, n: nat)
    requires p + n <= |t|
    requires forall i :: p <= i < p + n ==> IsWordChar(t[i])
    requires p + n == |t| || !IsWordChar(t[p + n])
    ensures WordRun(t, p) == n
    decreases n
  {
    if n > 0 {
      WordRunAt(t, p + 1, n - 1);
    }
  }

  /** A keyword matches only as a whole word: at a word start, and spanning exactly the
      word found there. */
  lemma KeywordMatchIsWord(t: string, p: nat, n: int, kw: string -> bool)
    requires LowerWords(kw)
    ensures KeywordAt(t, p, n, kw) ==>
      && p <= |t|
      && (p == 0 || !IsWordChar(t[p - 1]))
      && (forall i :: p <= i < p + n ==> IsWordChar(t[i]))
      && n == WordRun(t, p)
  {
    if KeywordAt(t, p, n, kw) {
      var l := Lower(t[p..p + n]);
      assert kw(l);
      forall i | p <= i < p + n ensures IsWordChar(t[i]) {
        assert l[i - p] == LowerChar(t[i]);
      }
      WordRunAt(t, p, n);
    }
  }

  /** No match begins at a character that is neither a word character nor a symbol. */
  lemma NoMatchAtSeparator(t: string, p: nat, kw: string -> bool)
    requires LowerWords(kw)
    requires p < |t| && !IsWordChar(t[p]) && !IsMathSymbol(t[p])
    ensures !MatchAt(t, p, kw)
  {
    forall n | 0 < n <= |t| - p ensures !KeywordAt(t, p, n, kw) {
      KeywordMatchIsWord(t, p, n, kw);
    }
  }

  /** No match begins inside a whole word `t[lo..hi]` that is not a keyword. */
  lemma NoMatchInWord(t: string, lo: nat, hi: nat, kw: string -> bool)
    requires LowerWords(kw)
    requires lo < hi <= |t|
    requires lo == 0 || !IsWordChar(t[lo - 1])
    requires forall i :: lo <= i < hi ==> IsWordChar(t[i])
    requires hi == |t| || !IsWordChar(t[hi])
    requires !kw(Lower(t[lo..hi]))
    ensures forall p :: lo <= p < hi ==> !MatchAt(t, p, kw)
  {
    WordRunAt(t, lo, hi - lo);
    forall p, n | lo <= p < hi && 0 < n <= |t| - p ensures !KeywordAt(t, p, n, kw) {
      KeywordMatchIsWord(t, p, n, kw);
    }
  }

  /** Before a cut after a non-word character, `a + b` matches where `a` does. */
  lemma MatchAtPrefix(a: string, b: string, p: int, kw: string -> bool)
    requires LowerWords(kw)
    requires a != [] && !IsWordChar(a[|a| - 1]) && 0 <= p < |a|
    ensures MatchAt(a + b, p, kw) <==> MatchAt(a, p, kw)
  {
    var t := a + b;
    forall n | 0 < n <= |t| - p ensures KeywordAt(t, p, n, kw) <==> KeywordAt(a, p, n, kw) {
      KeywordMatchIsWord(t, p, n, kw);
      KeywordMatchIsWord(a, p, n, kw);
      if p + n < |a| {
        assert t[p..p + n] == a[p..p + n];
        assert t[p + n] == a[p + n];
      } else {
        assert t[|a| - 1] == a[|a| - 1];
      }
      if 0 < p {
        assert t[p - 1] == a[p - 1];
      }
    }
  }

  /** After a cut after a non-word character, `a + b` matches where `b` does. */
  lemma MatchAtSuffix(a: string, b: string, q: int, kw: string -> bool)
    requires a != [] && !IsWordChar(a[|a| - 1]) && 0 <= q < |b|
    ensures MatchAt(a + b, |a| + q, kw) <==> MatchAt(b, q, kw)
  {
    var t := a + b;
    var p := |a| + q;
    assert t[p] == b[q];
    forall n | 0 < n <= |b| - q ensures KeywordAt(t, p, n, kw) <==> KeywordAt(b, q, n, kw) {
      assert t[p..p + n] == b[q..q + n];
      assert t[p - 1] == if q == 0 then a[|a| - 1] else b[q - 1];
      if q + n < |b| {
        assert t[p + n] == b[q + n];
      }
    }
  }

  /** Cutting the text after a non-word character cuts no match: the pattern occurs in
      `a + b` exactly when it occurs in `a` or in `b`. */
  lemma SearchConcat(a: string, b: string, kw: string -> bool)
    requires LowerWords(kw)
    requires a != [] && !IsWordChar(a[|a| - 1])
    ensures Search(a + b, kw) == (Search(a, kw) || Search(b, kw))
  {
    var t := a + b;
    if Search(t, kw) {
      var p :| 0 <= p < |t| && MatchAt(t, p, kw);
      if p < |a| {
        MatchAtPrefix(a, b, p, kw);
      } else {
        MatchAtSuffix(a, b, p - |a|, kw);
      }
    }
    if Search(a, kw) {
      var p :| 0 <= p < |a| && MatchAt(a, p, kw);
      MatchAtPrefix(a, b, p, kw);
    }
    if Search(b, kw) {
      var q :| 0 <= q < |b| && MatchAt(b, q, kw);
      MatchAtSuffix(a, b, q, kw);
    }
  }

  /** Two unmatched pieces, cut after a non-word character, make an unmatched text. */
  lemma NoSearchConcat(a: string, b: string, kw: string -> bool)
    requires LowerWords(kw)
    requires a != [] && !IsWordChar(a[|a| - 1])
    requires !Search(a, kw) && !Search(b, kw)
    ensures !Search(a + b, kw)
  {
    SearchConcat(a, b, kw);
  }

  /** A word that is not a keyword, followed by a separator, is not matched. */
  lemma NoSearchWord(w: string, sep: char, kw: string -> bool)
    requires LowerWords(kw)
    requires w != [] && forall i :: 0 <= i < |w| ==> IsWordChar(w[i])
    requires !IsWordChar(sep) && !IsMathSymbol(sep)
    requires !kw(Lower(w))
    ensures !Search(w + [sep], kw)
  {
    var t := w + [sep];
    assert t[..|w|] == w;
    NoMatchInWord(t, 0, |w|, kw);
    NoMatchAtSeparator(t, |w|, kw);
  }

  /** A word that is not a keyword and a separator in front of an unmatched text leave
      it unmatched. */
  lemma NoSearchWordThen(w: string, sep: char, rest: string, kw: string -> bool)
    requires LowerWords(kw)
    requires w != [] && forall i :: 0 <= i < |w| ==> IsWordChar(w[i])
    requires !IsWordChar(sep) && !IsMathSymbol(sep)
    requires !kw(Lower(w)) && !Search(rest, kw)
    ensures !Search(w + [sep] + rest, kw)
  {
    NoSearchWord(w, sep, kw);
    NoSearchConcat(w + [sep], rest, kw);
  }

  /** The sentence "The weather is nice today.", taken apart one word at a time: each
      suffix of it is unmatched when its words are not keywords. */
  lemma NiceTodayNoSearch(kw: string -> bool)
    requires LowerWords(kw)
    requires !kw("nice") && !kw("today")
    ensures !Search("nice today.", kw)
  {
    assert Lower("nice") == "nice" && Lower("today") == "today";
    NoSearchWord("today", '.', kw);
    NoSearchWordThen("nice", ' ', "today" + ['.'], kw);
    assert "nice" + [' '] + ("today" + ['.']) == "nice today.";
  }

  lemma IsNiceTodayNoSearch(kw: string -> bool)
    requires LowerWords(kw)
    requires !kw("is") && !kw("nice") && !kw("today")
    ensures !Search("is nice today.", kw)
  {
    NiceTodayNoSearch(kw);
    assert Lower("is") == "is";
    NoSearchWordThen("is", ' ', "nice today.", kw);
    assert "is" + [' '] + "nice today." == "is nice today.";
  }

  lemma WeatherIsNiceTodayNoSearch(kw: string -> bool)
    requires LowerWords(kw)
    requires !kw("weather") && !kw("is") && !kw("nice") && !kw("today")
    ensures !Search("weather is nice today.", kw)
  {
    IsNiceTodayNoSearch(kw);
    assert Lower("weather") == "weather";
    NoSearchWordThen("weather", ' ', "is nice today.", kw);
    assert "weather" + [' '] + "is nice today." == "weather is nice today.";
  }

  lemma WeatherNoSearch(kw: string -> bool)
    requires LowerWords(kw)
    requires !kw("the") && !kw("weather") && !kw("is") && !kw("nice") && !kw("today")
    ensures !Search("The weather is nice today.", kw)
  {
    WeatherIsNiceTodayNoSearch(kw);
    assert Lower("The") == "the";
    NoSearchWordThen("The", ' ', "weather is nice today.", kw);
    assert "The" + [' '] + "weather is nice today." == "The weather is nice today.";
  }

  /** None of the words of that sentence is a keyword of the detector. */
  lemma WeatherWordsAreNotKeywords()
    ensures !IsKeyword("the") && !IsKeyword("weather") && !IsKeyword("is")
    ensures !IsKeyword("nice") && !IsKeyword("today")
  {
  }

  /** The sentence "The weather is nice today." has no keyword and no symbol, and is not
      flagged. */
  lemma WeatherNotFlagged()
    ensures !DetectMathematicalConcepts("The weather is nice today.")
  {
    KeywordsAreLowerWords();
    WeatherWordsAreNotKeywords();
    WeatherNoSearch(IsKeyword);
  }
}
