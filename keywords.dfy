/**
 * The keyword helpers of services/similarityService.js: `extractKeywords`,
 * `isStopWord` and `calculateSemanticSimilarity`. Nothing in the scoring
 * pipeline calls them; they are modelled for their own contracts.
 */
module Keywords {

  import opened Text

  /** A character of the regular-expression class `\w`: ASCII letters, digits and `_`. */
  predicate IsWordChar(c: char)
  {
    ('a' <= c <= 'z') || ('A' <= c <= 'Z') || ('0' <= c <= '9') || c == '_'
  }

  /** A character of the regular-expression class `\s`, as ECMAScript defines it. */
  predicate IsSpace(c: char)
  {
    c == ' ' || c == '\t' || c == '\n' || c == '\r' || c == '\U{0B}' || c == '\U{0C}'
    || c == '\U{A0}' || c == '\U{1680}' || ('\U{2000}' <= c <= '\U{200A}')
    || c == '\U{2028}' || c == '\U{2029}' || c == '\U{202F}' || c == '\U{205F}' || c == '\U{3000}' || c == '\U{FEFF}'
  }

  /** `.toLowerCase().replace(/[^\w\s]/g, ' ')`: every character that is neither a word character nor a space becomes a space. */
  function Normalize(text: string): (r: string)
    ensures |r| == |text|
    ensures forall i :: 0 <= i < |r| ==> (IsWordChar(r[i]) && !IsUpper(r[i])) || IsSpace(r[i])
    ensures forall i :: 0 <= i < |text| && (IsWordChar(text[i]) || IsSpace(text[i])) ==> r[i] == LowerChar(text[i])
    ensures forall i :: 0 <= i < |text| && !IsWordChar(text[i]) && !IsSpace(text[i]) ==> r[i] == ' '
  {
    var t := Lower(text);
    LowerNoUpper(text);
    seq(|t|, i requires 0 <= i < |t| => if IsWordChar(t[i]) || IsSpace(t[i]) then t[i] else ' ')
  }

  /** The characters of `s` that are not spaces, in order. */
  function NonSpace(s: string): string
  {
    if |s| == 0 then [] else (if IsSpace(s[0]) then [] else [s[0]]) + NonSpace(s[1..])
  }

  function Concat(words: seq<string>): string
  {
    if |words| == 0 then [] else words[0] + Concat(words[1..])
  }

  /**
   * The maximal runs of non-space characters of `s`, `current` being the
   * run read so far. `split(/\s+/)` yields the same runs plus an empty
   * string for leading or trailing space, which the length filter drops.
   */
  function TokensFrom(s: string, current: string): (tokens: seq<string>)
    requires forall i :: 0 <= i < |current| ==> !IsSpace(current[i])
    ensures forall k :: 0 <= k < |tokens| ==> |tokens[k]| > 0
    ensures forall k, i :: 0 <= k < |tokens| && 0 <= i < |tokens[k]| ==> !IsSpace(tokens[k][i])
    decreases |s|
  {
    if |s| == 0 then
      (if |current| > 0 then [current] else [])
    else if IsSpace(s[0]) then
      (if |current| > 0 then [current] else []) + TokensFrom(s[1..], [])
    else
      TokensFrom(s[1..], current + [s[0]])
  }

  function Tokens(s: string): seq<string>
  {
    TokensFrom(s, [])
  }

  /** The runs hold exactly the non-space characters, in order: no character is lost or invented. */
  lemma {:induction false} TokensFromConcat(s: string, current: string)
    requires forall i :: 0 <= i < |current| ==> !IsSpace(current[i])
    ensures Concat(TokensFrom(s, current)) == current + NonSpace(s)
    decreases |s|
  {
    if |s| == 0 {
      assert Concat([current]) == current + Concat([]);
    } else if IsSpace(s[0]) {
      var head := if |current| > 0 then [current] else [];
      TokensFromConcat(s[1..], []);
      ConcatAppend(head, TokensFrom(s[1..], []));
      assert Concat(head) == current by {
        if |current| > 0 {
          assert Concat([current]) == current + Concat([]);
        }
      }
    } else {
      TokensFromConcat(s[1..], current + [s[0]]);
    }
  }

  lemma {:induction false} ConcatAppend(a: seq<string>, b: seq<string>)
    ensures Concat(a + b) == Concat(a) + Concat(b)
    decreases |a|
  {
    if |a| > 0 {
      assert (a + b)[1..] == a[1..] + b;
      ConcatAppend(a[1..], b);
    } else {
      assert a + b == b;
    }
  }

  lemma TokensConcat(s: string)
    ensures Concat(Tokens(s)) == NonSpace(s)
  {
    TokensFromConcat(s, []);
  }

  /** The stop-word list, `'a'` listed twice as in the source. */
  const StopWords: seq<string> := [
    "the", "a", "an", "and", "or", "but", "in", "on", "at", "to", "for", "of", "with", "by",
    "o", "a", "os", "as", "um", "uma", "uns", "umas", "de", "da", "do", "das", "dos",
    "em", "na", "no", "nas", "nos", "para", "por", "com", "sem", "sobre", "entre"
  ]

  /** `isStopWord`: membership of the lower-cased word. */
  predicate IsStopWord(word: string)
  {
    Lower(word) in StopWords
  }

  /**
   * `.filter(word => word.length > 2).filter(word => !this.isStopWord(word))`,
   * over any stop-word list: the proofs below hold whatever the list holds.
   */
  function KeepKeywords(words: seq<string>, stopWords: seq<string>): (r: seq<string>)
    ensures forall k :: 0 <= k < |r| ==> |r[k]| > 2 && Lower(r[k]) !in stopWords && r[k] in words
    ensures forall w :: w in words && |w| > 2 && Lower(w) !in stopWords ==> w in r
    ensures |r| <= |words|
  {
    if |words| == 0 then []
    else
      var rest := KeepKeywords(words[1..], stopWords);
      assert forall w :: w in words ==> w == words[0] || w in words[1..];
      if |words[0]| > 2 && Lower(words[0]) !in stopWords then [words[0]] + rest else rest
  }

  /** Filtering distributes over concatenation, so the kept words stay in input order, repeats included. */
  lemma {:induction false} KeepKeywordsConcat(a: seq<string>, b: seq<string>, stopWords: seq<string>)
    ensures KeepKeywords(a + b, stopWords) == KeepKeywords(a, stopWords) + KeepKeywords(b, stopWords)
    decreases |a|
  {
    if |a| == 0 {
      assert a + b == b;
    } else {
      assert (a + b)[0] == a[0] && (a + b)[1..] == a[1..] + b;
      KeepKeywordsConcat(a[1..], b, stopWords);
    }
  }

  /** A single word is kept exactly when it is longer than 2 and not a stop word. */
  lemma KeepKeywordsSingle(w: string, stopWords: seq<string>)
    ensures KeepKeywords([w], stopWords) == if |w| > 2 && Lower(w) !in stopWords then [w] else []
  {
    assert [w][1..] == [];
  }

  /** The keywords of `text` against the stop-word list `stopWords`. */
  function KeywordsWith(text: string, stopWords: seq<string>): (keywords: seq<string>)
    ensures forall k :: 0 <= k < |keywords| ==> |keywords[k]| > 2 && Lower(keywords[k]) !in stopWords
    ensures forall k, i :: 0 <= k < |keywords| && 0 <= i < |keywords[k]| ==> IsWordChar(keywords[k][i]) && !IsUpper(keywords[k][i])
    ensures forall w :: w in Tokens(Normalize(text)) && |w| > 2 && Lower(w) !in stopWords ==> w in keywords
    ensures forall k :: 0 <= k < |keywords| ==> keywords[k] in Tokens(Normalize(text))
  {
    var normalized := Normalize(text);
    var words := Tokens(normalized);
    TokensChars(normalized);
    KeepKeywords(words, stopWords)
  }

  /** `extractKeywords`: the lower-cased word-character runs longer than two characters that are not stop words. */
  function ExtractKeywords(text: string): (keywords: seq<string>)
    ensures forall k :: 0 <= k < |keywords| ==> |keywords[k]| > 2 && !IsStopWord(keywords[k])
    ensures forall k, i :: 0 <= k < |keywords| && 0 <= i < |keywords[k]| ==> IsWordChar(keywords[k][i]) && !IsUpper(keywords[k][i])
    ensures forall w :: w in Tokens(Normalize(text)) && |w| > 2 && !IsStopWord(w) ==> w in keywords
    ensures forall k :: 0 <= k < |keywords| ==> keywords[k] in Tokens(Normalize(text))
  {
    KeywordsWith(text, StopWords)
  }

  /** Every character of a run is a character of the text. */
  lemma TokensChars(s: string)
    ensures forall w, i :: w in Tokens(s) && 0 <= i < |w| ==> w[i] in s
  {
    TokensFromChars(s, []);
  }

  lemma {:induction false} TokensFromChars(s: string, current: string)
    requires forall i :: 0 <= i < |current| ==> !IsSpace(current[i])
    ensures forall w, i :: w in TokensFrom(s, current) && 0 <= i < |w| ==> w[i] in current || w[i] in s
    decreases |s|
  {
    if |s| > 0 {
      if IsSpace(s[0]) {
        TokensFromChars(s[1..], []);
      } else {
        TokensFromChars(s[1..], current + [s[0]]);
      }
    }
  }

  // ---------------------------------------------------------------------
  // Semantic similarity

  function ToSet(s: seq<string>): set<string>
  {
    set w | w in s
  }

  /** `keywords1.filter(k => keywords2.includes(k))`: duplicates in the first list are kept. */
  function Common(keywords1: seq<string>, keywords2: seq<string>): (r: seq<string>)
    ensures forall k :: 0 <= k < |r| ==> r[k] in keywords1 && r[k] in keywords2
    ensures |r| <= |keywords1|
  {
    if |keywords1| == 0 then []
    else (if keywords1[0] in keywords2 then [keywords1[0]] else []) + Common(keywords1[1..], keywords2)
  }

  /** The ratio of `calculateSemanticSimilarity` as written: common keywords, counted with repetition, over distinct keywords. */
  function KeywordRatioAsWritten(keywords1: seq<string>, keywords2: seq<string>): (r: real)
    requires |keywords1| > 0
    ensures r >= 0.0
  {
    assert keywords1[0] in ToSet(keywords1) + ToSet(keywords2);
    (|Common(keywords1, keywords2)| as real) / (|ToSet(keywords1) + ToSet(keywords2)| as real)
  }

  /** `calculateSemanticSimilarity` as written. */
  function SemanticSimilarityAsWritten(text1: string, text2: string): (r: real)
    ensures r >= 0.0
    ensures (|text1| == 0 || |text2| == 0) ==> r == 0.0
    ensures (|ExtractKeywords(text1)| == 0 || |ExtractKeywords(text2)| == 0) ==> r == 0.0
  {
    if |text1| == 0 || |text2| == 0 then 0.0
    else
      var keywords1 := ExtractKeywords(text1);
      var keywords2 := ExtractKeywords(text2);
      if |keywords1| == 0 || |keywords2| == 0 then 0.0
      else KeywordRatioAsWritten(keywords1, keywords2)
  }

  /** The discrepancy: a keyword repeated in the first text pushes the as-written ratio above 1. */
  lemma RepeatedKeywordExceedsOne(word: string)
    ensures KeywordRatioAsWritten([word, word], [word]) == 2.0
  {
    assert Common([word, word], [word]) == [word, word] by {
      assert Common([word, word][1..], [word]) == [word] + Common([], [word]);
    }
    assert ToSet([word, word]) + ToSet([word]) == {word};
  }

  /** A non-empty run of lower-case word characters. */
  predicate PlainWord(w: string)
  {
    |w| > 0 && forall i :: 0 <= i < |w| ==> IsWordChar(w[i]) && !IsUpper(w[i])
  }

  lemma NormalizePlain(s: string)
    requires forall i :: 0 <= i < |s| ==> (IsWordChar(s[i]) && !IsUpper(s[i])) || s[i] == ' '
    ensures Normalize(s) == s
  {
    LowerOfLower(s);
  }

  lemma {:induction false} TokensFromWord(w: string, rest: string, current: string)
    requires forall i :: 0 <= i < |current| ==> !IsSpace(current[i])
    requires forall i :: 0 <= i < |w| ==> !IsSpace(w[i])
    ensures TokensFrom(w + rest, current) == TokensFrom(rest, current + w)
    decreases |w|
  {
    if |w| > 0 {
      assert (w + rest)[1..] == w[1..] + rest;
      assert current + [w[0]] + w[1..] == current + w;
      TokensFromWord(w[1..], rest, current + [w[0]]);
    } else {
      assert w + rest == rest && current + w == current;
    }
  }

  /** A space ends a word: a non-empty word without spaces, then a space, splits off as the first token. */
  lemma TokensAfterWord(w: string, c: char, rest: string)
    requires |w| > 0 && forall i :: 0 <= i < |w| ==> !IsSpace(w[i])
    requires IsSpace(c)
    ensures Tokens(w + [c] + rest) == [w] + Tokens(rest)
  {
    TokensFromWord(w, [c] + rest, []);
    assert w + ([c] + rest) == w + [c] + rest;
    assert ([c] + rest)[1..] == rest;
    assert [] + w == w;
  }

  /** Leading space yields no token. */
  lemma TokensAfterSpace(c: char, rest: string)
    requires IsSpace(c)
    ensures Tokens([c] + rest) == Tokens(rest)
  {
    assert ([c] + rest)[1..] == rest;
  }

  /** A plain word splits into itself. */
  lemma OneWordTokens(w: string)
    requires PlainWord(w)
    ensures Tokens(w) == [w]
  {
    TokensFromWord(w, [], []);
    assert w + [] == w && [] + w == w;
    assert TokensFrom([], w) == [w];
  }

  /** A plain word, a space and the word again split into the word twice. */
  lemma TwoWordTokens(w: string)
    requires PlainWord(w)
    ensures Tokens(w + " " + w) == [w, w]
  {
    TokensFromWord(w, " " + w, []);
    assert w + (" " + w) == w + " " + w;
    assert (" " + w)[1..] == w;
    assert [] + w == w;
    OneWordTokens(w);
  }

  /** `extractKeywords` of a keyword, a space and the keyword again is that keyword twice. */
  lemma RepeatedWordKeywords(w: string)
    requires PlainWord(w) && |w| > 2 && !IsStopWord(w)
    ensures ExtractKeywords(w + " " + w) == [w, w]
    ensures ExtractKeywords(w) == [w]
  {
    OneWordKeywords(w, StopWords);
    TwoWordKeywords(w, StopWords);
  }

  lemma OneWordKeywords(w: string, stopWords: seq<string>)
    requires PlainWord(w) && |w| > 2 && Lower(w) !in stopWords
    ensures KeywordsWith(w, stopWords) == [w]
  {
    PlainText(w, stopWords);
    OneWordTokens(w);
    KeepKeyword(w, [], stopWords);
  }

  lemma TwoWordKeywords(w: string, stopWords: seq<string>)
    requires PlainWord(w) && |w| > 2 && Lower(w) !in stopWords
    ensures KeywordsWith(w + " " + w, stopWords) == [w, w]
  {
    PlainPair(w);
    PlainText(w + " " + w, stopWords);
    TwoWordTokens(w);
    KeepKeyword(w, [], stopWords);
    KeepKeyword(w, [w], stopWords);
  }

  /** A plain word, a space and the word again hold only lower-case word characters and a space. */
  lemma PlainPair(w: string)
    requires PlainWord(w)
    ensures var t := w + " " + w; forall i :: 0 <= i < |t| ==> (IsWordChar(t[i]) && !IsUpper(t[i])) || t[i] == ' '
  {
    var t := w + " " + w;
    forall i | 0 <= i < |t|
      ensures (IsWordChar(t[i]) && !IsUpper(t[i])) || t[i] == ' '
    {
      if i < |w| {
        assert t[i] == w[i];
      } else if i > |w| {
        assert t[i] == w[i - |w| - 1];
      }
    }
  }

  /** Text already lower-case, with single spaces between words, is split as it stands. */
  lemma PlainText(text: string, stopWords: seq<string>)
    requires forall i :: 0 <= i < |text| ==> (IsWordChar(text[i]) && !IsUpper(text[i])) || text[i] == ' '
    ensures KeywordsWith(text, stopWords) == KeepKeywords(Tokens(text), stopWords)
  {
    NormalizePlain(text);
  }

  lemma KeepKeyword(w: string, rest: seq<string>, stopWords: seq<string>)
    requires |w| > 2 && Lower(w) !in stopWords && KeepKeywords(rest, stopWords) == rest
    ensures KeepKeywords([w] + rest, stopWords) == [w] + rest
  {
    assert ([w] + rest)[1..] == rest;
  }

  /**
   * The discrepancy on texts: for every keyword `w`, the as-written score of
   * `"w w"` against `"w"` is 2, outside the promised range [0, 1]; the
   * corrected score of the same pair is 1.
   */
  lemma RepeatedWordScoresTwo(w: string)
    requires PlainWord(w) && |w| > 2 && !IsStopWord(w)
    ensures SemanticSimilarityAsWritten(w + " " + w, w) == 2.0
    ensures SemanticSimilarity(w + " " + w, w) == 1.0
  {
    RepeatedWordAsWritten(w);
    RepeatedWordCorrected(w);
  }

  lemma RepeatedWordAsWritten(w: string)
    requires PlainWord(w) && |w| > 2 && !IsStopWord(w)
    ensures SemanticSimilarityAsWritten(w + " " + w, w) == 2.0
  {
    RepeatedWordKeywords(w);
    RepeatedKeywordExceedsOne(w);
  }

  lemma RepeatedWordCorrected(w: string)
    requires PlainWord(w) && |w| > 2 && !IsStopWord(w)
    ensures SemanticSimilarity(w + " " + w, w) == 1.0
  {
    RepeatedWordKeywords(w);
    SingletonSets(w);
    assert KeywordJaccard([w, w], [w]) == 1.0;
  }

  lemma SingletonSets(w: string)
    ensures ToSet([w, w]) == {w} && ToSet([w]) == {w}
  {
  }

  /** The Jaccard index of the two keyword sets: shared distinct keywords over all distinct keywords. */
  function KeywordJaccard(keywords1: seq<string>, keywords2: seq<string>): (r: real)
    requires |keywords1| > 0
    ensures 0.0 <= r <= 1.0
    ensures r == 1.0 <==> ToSet(keywords1) == ToSet(keywords2)
  {
    var a, b := ToSet(keywords1), ToSet(keywords2);
    assert keywords1[0] in a + b;
    SharedWithinAll(a, b);
    RatioWithin(|a * b|, |a + b|);
    (|a * b| as real) / (|a + b| as real)
  }

  /** A count over a larger positive count is a ratio in [0, 1] that is 1 exactly when the counts agree. */
  lemma RatioWithin(n: nat, d: nat)
    requires 0 < d && n <= d
    ensures 0.0 <= (n as real) / (d as real) <= 1.0
    ensures (n as real) / (d as real) == 1.0 <==> n == d
  {
    var q := (n as real) / (d as real);
    assert q * (d as real) == n as real;
  }

  /** `calculateSemanticSimilarity` as evidently intended: a score in [0, 1], on distinct keywords. */
  function SemanticSimilarity(text1: string, text2: string): (r: real)
    ensures 0.0 <= r <= 1.0
    ensures (|text1| == 0 || |text2| == 0) ==> r == 0.0
    ensures (|ExtractKeywords(text1)| == 0 || |ExtractKeywords(text2)| == 0) ==> r == 0.0
  {
    if |text1| == 0 || |text2| == 0 then 0.0
    else
      var keywords1 := ExtractKeywords(text1);
      var keywords2 := ExtractKeywords(text2);
      if |keywords1| == 0 || |keywords2| == 0 then 0.0
      else KeywordJaccard(keywords1, keywords2)
  }

  /** A score of 1 means exactly that both texts yield keywords and the same set of them. */
  lemma SemanticSimilarityOneIff(text1: string, text2: string)
    ensures SemanticSimilarity(text1, text2) == 1.0
            <==> |text1| > 0 && |text2| > 0 && |ExtractKeywords(text1)| > 0 && |ExtractKeywords(text2)| > 0
                 && ToSet(ExtractKeywords(text1)) == ToSet(ExtractKeywords(text2))
  {
  }

  lemma SemanticSimilaritySymmetric(text1: string, text2: string)
    ensures SemanticSimilarity(text1, text2) == SemanticSimilarity(text2, text1)
  {
    var a, b := ToSet(ExtractKeywords(text1)), ToSet(ExtractKeywords(text2));
    assert a * b == b * a && a + b == b + a;
  }

  predicate Distinct(s: seq<string>)
  {
    forall i, j :: 0 <= i < j < |s| ==> s[i] != s[j]
  }

  /** Without repeated keywords in the first list, the as-written ratio is the Jaccard index. */
  lemma AsWrittenIsJaccardWithoutRepeats(keywords1: seq<string>, keywords2: seq<string>)
    requires |keywords1| > 0 && Distinct(keywords1)
    ensures KeywordRatioAsWritten(keywords1, keywords2) == KeywordJaccard(keywords1, keywords2)
  {
    CommonCount(keywords1, keywords2);
  }

  lemma {:induction false} CommonCount(keywords1: seq<string>, keywords2: seq<string>)
    requires Distinct(keywords1)
    ensures |Common(keywords1, keywords2)| == |ToSet(keywords1) * ToSet(keywords2)|
    decreases |keywords1|
  {
    if |keywords1| > 0 {
      var x, rest := keywords1[0], keywords1[1..];
      CommonCount(rest, keywords2);
      assert Common(keywords1, keywords2) == (if x in keywords2 then [x] else []) + Common(rest, keywords2);
      SharedCons(keywords1, keywords2);
    }
  }

  /** The shared set gains the first keyword exactly when the other list holds it. */
  lemma SharedCons(keywords1: seq<string>, keywords2: seq<string>)
    requires |keywords1| > 0 && Distinct(keywords1)
    ensures var x, shared := keywords1[0], ToSet(keywords1[1..]) * ToSet(keywords2);
            && x !in shared
            && ToSet(keywords1) * ToSet(keywords2) == (if x in keywords2 then {x} + shared else shared)
  {
    var x, rest := keywords1[0], keywords1[1..];
    assert ToSet(keywords1) == {x} + ToSet(rest);
    assert x !in ToSet(rest);
  }

  lemma SharedWithinAll(a: set<string>, b: set<string>)
    ensures |a * b| <= |a + b|
    ensures |a * b| == |a + b| <==> a == b
  {
    SubsetCardinality(a * b, a + b);
    if |a * b| == |a + b| {
      SubsetEqualCardinality(a * b, a + b);
      assert forall x :: x in a ==> x in a + b;
      assert forall x :: x in b ==> x in a + b;
    }
    if a == b {
      assert a * b == a + b;
    }
  }

  lemma SubsetCardinality(a: set<string>, b: set<string>)
    requires a <= b
    ensures |a| <= |b|
  {
    if a != {} {
      var x :| x in a;
      SubsetCardinality(a - {x}, b - {x});
    }
  }

  lemma SubsetEqualCardinality(a: set<string>, b: set<string>)
    requires a <= b && |a| == |b|
    ensures a == b
  {
    if a != b {
      assert exists x :: x in b && x !in a;
      var x :| x in b && x !in a;
      SubsetCardinality(a, b - {x});
    }
  }
}
