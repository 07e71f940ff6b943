/**
 * The scoring side of services/similarityService.js: text and slug
 * similarity, weight normalisation, the DE x RASTREIO cross product and the
 * score statistics.
 */
module Similarity {

  import opened Wrappers
  import opened Text
  import opened Sorting
  import opened Records
  import opened Levenshtein
  import opened Slugs

  function RealMax(a: real, b: real): real
  {
    if a >= b then a else b
  }

  /** `Math.max(0, Math.min(1, x))`. */
  function Clamp01(x: real): real
  {
    if x < 0.0 then 0.0 else if x > 1.0 then 1.0 else x
  }

  // ---------------------------------------------------------------------
  // Text similarity

  /**
   * `calculateTextSimilarity`: 0 if either text is empty, 1 if they are
   * equal, otherwise one minus the edit distance of the lower-cased texts
   * over the longer length, floored at 0.
   */
  function TextSimilarity(text1: string, text2: string): (r: real)
    ensures 0.0 <= r <= 1.0
    ensures (|text1| == 0 || |text2| == 0) ==> r == 0.0
  {
    if |text1| == 0 || |text2| == 0 then 0.0
    else if text1 == text2 then 1.0
    else
      var distance := Distance(Lower(text1), Lower(text2));
      var maxLength := Max(|text1|, |text2|);
      if maxLength == 0 then 1.0
      else RealMax(0.0, 1.0 - distance as real / maxLength as real)
  }

  /**
   * The floor at 0 never applies: the distance never exceeds the longer
   * length, so the score is exactly one minus the normalised distance.
   */
  lemma TextSimilarityIsNormalisedDistance(text1: string, text2: string)
    requires |text1| > 0 && |text2| > 0 && text1 != text2
    ensures TextSimilarity(text1, text2)
            == 1.0 - Distance(Lower(text1), Lower(text2)) as real / Max(|text1|, |text2|) as real
  {
    DistanceAtMostLonger(Lower(text1), Lower(text2));
    var d := Distance(Lower(text1), Lower(text2)) as real;
    var m := Max(|text1|, |text2|) as real;
    RatioAtMostOne(d, m);
  }

  lemma RatioAtMostOne(d: real, m: real)
    requires 0.0 < m && d <= m
    ensures d / m <= 1.0
  {
    assert d / m * m == d;
  }

  /**
   * A score of 1 means exactly that both texts are non-empty and equal up to
   * ASCII case; in particular texts that differ only in case score 1.
   */
  lemma TextSimilarityOneIff(text1: string, text2: string)
    ensures TextSimilarity(text1, text2) == 1.0 <==> |text1| > 0 && |text2| > 0 && Lower(text1) == Lower(text2)
  {
    if |text1| > 0 && |text2| > 0 && text1 != text2 {
      DistanceZeroIff(Lower(text1), Lower(text2));
      TextSimilarityIsNormalisedDistance(text1, text2);
      var d := Distance(Lower(text1), Lower(text2)) as real;
      var m := Max(|text1|, |text2|) as real;
      assert d / m == 0.0 <==> d == 0.0;
    }
  }

  lemma TextSimilaritySymmetric(text1: string, text2: string)
    ensures TextSimilarity(text1, text2) == TextSimilarity(text2, text1)
  {
    DistanceSymmetric(Lower(text1), Lower(text2));
  }

  // ---------------------------------------------------------------------
  // Slug similarity

  /**
   * Rules 5 to 8 of `calculateSlugSimilarity`, once the cleaned slugs differ:
   * same category 0.9, incompatible categories 0.1, one slug inside the
   * other 0.8, otherwise text similarity. Generic in what a category lookup
   * yields, so that the as-written lookup can be run through the same rules.
   */
  function CategoryRules<C(==)>(clean1: string, clean2: string, category1: Option<C>, category2: Option<C>,
                                incompatible: (C, C) -> bool): (r: real)
    ensures 0.0 <= r <= 1.0
  {
    if category1.Some? && category2.Some? && category1 == category2 then 0.9
    else if category1.Some? && category2.Some? && incompatible(category1.value, category2.value) then 0.1
    else if Contains(clean1, clean2) || Contains(clean2, clean1) then 0.8
    else TextSimilarity(clean1, clean2)
  }

  /** `calculateSlugSimilarity`: the layered heuristic, first applicable rule wins. */
  function SlugSimilarity(slug1: string, slug2: string): (r: real)
    ensures 0.0 <= r <= 1.0
    ensures (|slug1| == 0 || |slug2| == 0) ==> r == 0.0
  {
    if |slug1| == 0 || |slug2| == 0 then 0.0
    else if slug1 == slug2 then 1.0
    else
      var clean1 := CleanSlug(slug1);
      var clean2 := CleanSlug(slug2);
      if clean1 == clean2 then 1.0
      else CategoryRules(clean1, clean2, SlugCategory(clean1), SlugCategory(clean2), Incompatible)
  }

  /** A slug score of 1 means exactly that both slugs are non-empty and clean to the same text. */
  lemma SlugSimilarityOneIff(slug1: string, slug2: string)
    ensures SlugSimilarity(slug1, slug2) == 1.0 <==> |slug1| > 0 && |slug2| > 0 && CleanSlug(slug1) == CleanSlug(slug2)
  {
    var clean1, clean2 := CleanSlug(slug1), CleanSlug(slug2);
    if |slug1| > 0 && |slug2| > 0 && clean1 != clean2 {
      CleanSlugIsClean(slug1);
      CleanSlugIsClean(slug2);
      LowerOfLower(clean1);
      LowerOfLower(clean2);
      TextSimilarityOneIff(clean1, clean2);
    }
  }

  /** The slug score does not depend on the order of the slugs. */
  lemma SlugSimilaritySymmetric(slug1: string, slug2: string)
    ensures SlugSimilarity(slug1, slug2) == SlugSimilarity(slug2, slug1)
  {
    var clean1, clean2 := CleanSlug(slug1), CleanSlug(slug2);
    var category1, category2 := SlugCategory(clean1), SlugCategory(clean2);
    if category1.Some? && category2.Some? {
      IncompatibleIffDistinct(category1.value, category2.value);
    }
    TextSimilaritySymmetric(clean1, clean2);
  }

  /** Two slugs of the same category that do not clean to the same text score 0.9. */
  lemma SameCategoryScoresHigh(slug1: string, slug2: string)
    requires |slug1| > 0 && |slug2| > 0 && CleanSlug(slug1) != CleanSlug(slug2)
    requires SlugCategory(CleanSlug(slug1)).Some? && SlugCategory(CleanSlug(slug1)) == SlugCategory(CleanSlug(slug2))
    ensures SlugSimilarity(slug1, slug2) == 0.9
  {
  }

  /**
   * `blusa-azul` against `bermuda-jeans`: both lead with a word the lexicon
   * files under `roupa`, so they share a category and score 0.9; the two
   * garments are never told apart as incompatible.
   */
  lemma BlusaBermudaShareCategory(word1: string, rest1: string, word2: string, rest2: string)
    requires word1 == "blusa" && rest1 == "azul" && word2 == "bermuda" && rest2 == "jeans"
    ensures SlugSimilarity(word1 + "-" + rest1, word2 + "-" + rest2) == 0.9
  {
    CleanRoupaSlug(word1, rest1);
    CleanRoupaSlug(word2, rest2);
    RoupaSlugCategory(word1, rest1);
    RoupaSlugCategory(word2, rest2);
    DistinctRoupaSlugs(word1, rest1, word2, rest2);
    SameCategoryScoresHigh(word1 + "-" + rest1, word2 + "-" + rest2);
  }

  lemma DistinctRoupaSlugs(word1: string, rest1: string, word2: string, rest2: string)
    requires word1 == "blusa" && rest1 == "azul" && word2 == "bermuda" && rest2 == "jeans"
    ensures word1 + "-" + rest1 != word2 + "-" + rest2
  {
    assert (word1 + "-" + rest1)[1] != (word2 + "-" + rest2)[1];
  }

  lemma RoupaSlugCategory(word: string, rest: string)
    requires (word == "blusa" && rest == "azul") || (word == "bermuda" && rest == "jeans")
    ensures SlugCategory(word + "-" + rest) == Some(Roupa)
  {
    RoupaWord(word);
    SlugCategoryLeadingWord(word, rest);
  }

  lemma CleanRoupaSlug(word: string, rest: string)
    requires (word == "blusa" && rest == "azul") || (word == "bermuda" && rest == "jeans")
    ensures CleanSlug(word + "-" + rest) == word + "-" + rest
  {
    CleanSlugOfClean(word + "-" + rest);
  }

  /** `blusa` and `bermuda` are both filed under `roupa`. */
  lemma RoupaWord(word: string)
    requires word == "blusa" || word == "bermuda"
    ensures '-' !in word && Lookup(word) == Some(Roupa)
  {
    LowerOfLower(word);
  }

  /**
   * A category mismatch dominates: two slugs of different categories score
   * 0.1 even when one contains the other.
   */
  lemma CategoryMismatchScoresLow(slug1: string, slug2: string)
    requires |slug1| > 0 && |slug2| > 0 && CleanSlug(slug1) != CleanSlug(slug2)
    requires SlugCategory(CleanSlug(slug1)).Some? && SlugCategory(CleanSlug(slug2)).Some?
    requires SlugCategory(CleanSlug(slug1)) != SlugCategory(CleanSlug(slug2))
    ensures SlugSimilarity(slug1, slug2) == 0.1
  {
    IncompatibleIffDistinct(SlugCategory(CleanSlug(slug1)).value, SlugCategory(CleanSlug(slug2)).value);
  }

  /** Without a category signal, a slug contained in the other scores 0.8. */
  lemma ContainedSlugScores(slug1: string, slug2: string)
    requires |slug1| > 0 && |slug2| > 0 && CleanSlug(slug1) != CleanSlug(slug2)
    requires SlugCategory(CleanSlug(slug1)).None?
    requires Contains(CleanSlug(slug2), CleanSlug(slug1))
    ensures SlugSimilarity(slug1, slug2) == 0.8
  {
  }

  /** `areIncompatibleCategories` on what the as-written lookup yields: an inherited member equals no category name. */
  predicate IncompatibleValues(p1: PropertyValue, p2: PropertyValue)
  {
    p1.Entry? && p2.Entry? && Incompatible(p1.category, p2.category)
  }

  /** `calculateSlugSimilarity` as written, with the category lookup that also finds inherited members. */
  function SlugSimilarityAsWritten(slug1: string, slug2: string): (r: real)
    ensures 0.0 <= r <= 1.0
    ensures (|slug1| == 0 || |slug2| == 0) ==> r == 0.0
  {
    if |slug1| == 0 || |slug2| == 0 then 0.0
    else if slug1 == slug2 then 1.0
    else
      var clean1 := CleanSlug(slug1);
      var clean2 := CleanSlug(slug2);
      if clean1 == clean2 then 1.0
      else CategoryRules(clean1, clean2, SlugPropertyAsWritten(clean1), SlugPropertyAsWritten(clean2), IncompatibleValues)
  }

  /** On slugs without an inherited member name among their words, the as-written and corrected scores agree. */
  lemma AsWrittenAgreesWithoutInheritedWords(slug1: string, slug2: string)
    requires NoInheritedWord(CleanSlug(slug1)) && NoInheritedWord(CleanSlug(slug2))
    ensures SlugSimilarityAsWritten(slug1, slug2) == SlugSimilarity(slug1, slug2)
  {
    var clean1, clean2 := CleanSlug(slug1), CleanSlug(slug2);
    FirstPropertyAgrees(Split(clean1, '-'));
    FirstPropertyAgrees(Split(clean2, '-'));
    RulesOnEntries(clean1, clean2, SlugCategory(clean1), SlugCategory(clean2));
  }

  /** The rules score a category and that category as a lexicon entry alike. */
  lemma RulesOnEntries(clean1: string, clean2: string, category1: Option<Category>, category2: Option<Category>)
    ensures CategoryRules(clean1, clean2, AsEntry(category1), AsEntry(category2), IncompatibleValues)
            == CategoryRules(clean1, clean2, category1, category2, Incompatible)
  {
  }

  function AsEntry(category: Option<Category>): Option<PropertyValue>
  {
    if category.Some? then Some(Entry(category.value)) else None
  }

  /**
   * The discrepancy, as written: two distinct slugs whose first words are
   * both `constructor` share a "category" (the inherited `constructor`
   * function) and score 0.9, as `constructor-azul` and `constructor-rosa` do.
   */
  lemma InheritedKeyScoresAsSameCategory(slug1: string, slug2: string)
    requires CleanSlug(slug1) == slug1 && CleanSlug(slug2) == slug2 && slug1 != slug2
    requires SlugPropertyAsWritten(slug1) == Some(InheritedMember("constructor"))
    requires SlugPropertyAsWritten(slug2) == Some(InheritedMember("constructor"))
    ensures SlugSimilarityAsWritten(slug1, slug2) == 0.9
  {
  }

  /** `constructor-azul` against `constructor-rosa`, as written: 0.9. */
  lemma ConstructorSlugExample(word1: string, word2: string)
    requires word1 == "azul" && word2 == "rosa"
    ensures SlugSimilarityAsWritten("constructor-" + word1, "constructor-" + word2) == 0.9
  {
    CleanConstructorSlug(word1);
    CleanConstructorSlug(word2);
    DistinctConstructorSlugs(word1, word2);
    InheritedKeyActsAsCategory(word1);
    InheritedKeyActsAsCategory(word2);
    InheritedKeyScoresAsSameCategory("constructor-" + word1, "constructor-" + word2);
  }

  /**
   * Corrected: two distinct clean slugs of equal length with no category are
   * scored by text similarity alone.
   */
  lemma NoCategoryScoresByText(slug1: string, slug2: string)
    requires CleanSlug(slug1) == slug1 && CleanSlug(slug2) == slug2 && slug1 != slug2
    requires |slug1| == |slug2| > 0
    requires SlugCategory(slug1).None? && SlugCategory(slug2).None?
    ensures SlugSimilarity(slug1, slug2) == TextSimilarity(slug1, slug2)
  {
    NotContainedSameLength(slug1, slug2);
  }

  /** ... so that, when the common length is no multiple of 10, the score is not 0.9. */
  lemma NoCategoryNotNineTenths(slug1: string, slug2: string)
    requires CleanSlug(slug1) == slug1 && CleanSlug(slug2) == slug2 && slug1 != slug2
    requires |slug1| == |slug2| > 0 && |slug1| % 10 != 0
    requires SlugCategory(slug1).None? && SlugCategory(slug2).None?
    ensures SlugSimilarity(slug1, slug2) != 0.9
  {
    NoCategoryScoresByText(slug1, slug2);
    EqualLengthScoreNotNineTenths(slug1, slug2);
  }

  /** `constructor-azul` against `constructor-rosa`, corrected: a text score. */
  lemma ConstructorSlugCorrectedExample(word1: string, word2: string)
    requires word1 == "azul" && word2 == "rosa"
    ensures SlugSimilarity("constructor-" + word1, "constructor-" + word2)
            == TextSimilarity("constructor-" + word1, "constructor-" + word2)
  {
    CleanConstructorSlug(word1);
    CleanConstructorSlug(word2);
    DistinctConstructorSlugs(word1, word2);
    NoCategoryScoresByText("constructor-" + word1, "constructor-" + word2);
  }

  /** ... and that text score cannot be 0.9 for two distinct slugs of length 16. */
  lemma ConstructorSlugCorrectedNotNineTenths(word1: string, word2: string)
    requires word1 == "azul" && word2 == "rosa"
    ensures SlugSimilarity("constructor-" + word1, "constructor-" + word2) != 0.9
  {
    CleanConstructorSlug(word1);
    CleanConstructorSlug(word2);
    DistinctConstructorSlugs(word1, word2);
    NoCategoryNotNineTenths("constructor-" + word1, "constructor-" + word2);
  }

  /** `constructor-azul` and `constructor-rosa` are clean, 16 characters long, and take no category. */
  lemma CleanConstructorSlug(word: string)
    requires word == "azul" || word == "rosa"
    ensures var slug := "constructor-" + word;
            CleanSlug(slug) == slug && |slug| == 16 && SlugCategory(slug).None?
  {
    CleanSlugOfClean("constructor-" + word);
    OutsideLexicon(word);
    ConstructorSlugHasNoCategory(word);
  }

  lemma DistinctConstructorSlugs(word1: string, word2: string)
    requires word1 == "azul" && word2 == "rosa"
    ensures "constructor-" + word1 != "constructor-" + word2
  {
    assert ("constructor-" + word1)[12] != ("constructor-" + word2)[12];
  }

  lemma OutsideLexicon(word: string)
    requires word == "azul" || word == "rosa"
    ensures '-' !in word && Lower(word) !in Lexicon
  {
    LowerOfLower(word);
  }

  lemma NotContainedSameLength(s1: string, s2: string)
    requires |s1| == |s2| && s1 != s2
    ensures !Contains(s1, s2) && !Contains(s2, s1)
  {
    if Contains(s1, s2) {
      ContainsSameLength(s1, s2);
    }
    if Contains(s2, s1) {
      ContainsSameLength(s2, s1);
    }
  }

  /** A text score of exactly 0.9 needs an edit distance of a tenth of the longer length. */
  lemma TextScoreNineTenths(text1: string, text2: string)
    requires |text1| > 0 && |text2| > 0 && text1 != text2
    ensures TextSimilarity(text1, text2) == 0.9 ==> 10 * Distance(Lower(text1), Lower(text2)) == Max(|text1|, |text2|)
  {
    TextSimilarityIsNormalisedDistance(text1, text2);
    NineTenths(Distance(Lower(text1), Lower(text2)), Max(|text1|, |text2|));
  }

  /** Two distinct texts of one length that is no multiple of 10 never score exactly 0.9. */
  lemma EqualLengthScoreNotNineTenths(text1: string, text2: string)
    requires |text1| == |text2| && |text1| % 10 != 0 && text1 != text2
    ensures TextSimilarity(text1, text2) != 0.9
  {
    TextScoreNineTenths(text1, text2);
  }

  lemma NineTenths(d: nat, m: nat)
    requires m > 0
    ensures 1.0 - d as real / m as real == 0.9 ==> 10 * d == m
  {
    if 1.0 - d as real / m as real == 0.9 {
      assert d as real / m as real == 0.1;
      assert d as real == 0.1 * m as real;
    }
  }

  // ---------------------------------------------------------------------
  // Weights

  /** `[slug, title, description, h1]` when the caller gives none. */
  const DefaultWeights: seq<real> := [0.4, 0.25, 0.2, 0.15]

  function Sum(s: seq<real>): real
  {
    if |s| == 0 then 0.0 else s[0] + Sum(s[1..])
  }

  /** `weights.map(w => w / sum)`. */
  function DivideAll(weights: seq<real>, divisor: real): (r: seq<real>)
    requires divisor != 0.0
    ensures |r| == |weights|
    ensures forall i :: 0 <= i < |weights| ==> r[i] == weights[i] / divisor
    ensures Sum(r) == Sum(weights) / divisor
  {
    if |weights| == 0 then []
    else
      var rest := DivideAll(weights[1..], divisor);
      assert ([weights[0] / divisor] + rest)[1..] == rest;
      DivideSum(weights[0], Sum(weights[1..]), divisor);
      [weights[0] / divisor] + rest
  }

  lemma DivideSum(a: real, b: real, d: real)
    requires d != 0.0
    ensures a / d + b / d == (a + b) / d
  {
  }

  lemma Sum4(w: seq<real>)
    requires |w| == 4
    ensures Sum(w) == w[0] + w[1] + w[2] + w[3]
  {
    assert Sum(w[3..]) == w[3] + Sum(w[4..]);
    assert Sum(w[2..]) == w[2] + Sum(w[3..]);
    assert Sum(w[1..]) == w[1] + Sum(w[2..]);
  }

  /**
   * `normalizeWeights`: same length, each weight divided by the total, so
   * the results sum to 1 and keep their proportions; non-negative weights
   * with a positive total stay non-negative.
   */
  function NormalizeWeights(weights: seq<real>): (normalized: seq<real>)
    requires Sum(weights) != 0.0
    ensures |normalized| == |weights|
    ensures Sum(normalized) == 1.0
    ensures forall i :: 0 <= i < |weights| ==> normalized[i] * Sum(weights) == weights[i]
    ensures Sum(weights) > 0.0 ==> forall i :: 0 <= i < |weights| && weights[i] >= 0.0 ==> normalized[i] >= 0.0
  {
    var total := Sum(weights);
    assert total / total == 1.0;
    DivideAll(weights, total)
  }

  // ---------------------------------------------------------------------
  // Cross product

  /** The four per-field similarities of a DE row against a RASTREIO row. */
  function FieldScoresOf(de: Row, rast: Row): (f: FieldScores)
    ensures 0.0 <= f.slugScore <= 1.0 && 0.0 <= f.titleScore <= 1.0
    ensures 0.0 <= f.descScore <= 1.0 && 0.0 <= f.h1Score <= 1.0
  {
    FieldScores(SlugSimilarity(de.slug, rast.slug), TextSimilarity(de.metaTitle, rast.metaTitle),
                TextSimilarity(de.metaDescription, rast.metaDescription), TextSimilarity(de.h1, rast.h1))
  }

  function Weighted(f: FieldScores, w: seq<real>): real
    requires |w| == 4
  {
    f.slugScore * w[0] + f.titleScore * w[1] + f.descScore * w[2] + f.h1Score * w[3]
  }

  /** One candidate: the RASTREIO row, its clamped weighted score and the unclamped field scores. */
  function ScoreCandidate(de: Row, rast: Row, weights: seq<real>): (c: Candidate)
    requires |weights| == 4
    ensures c.row == rast && c.gemini.None?
    ensures 0.0 <= c.score <= 1.0
    ensures c.details == FieldScoresOf(de, rast)
  {
    var details := FieldScoresOf(de, rast);
    Candidate(rast, Clamp01(Weighted(details, weights)), details, None)
  }

  /**
   * With non-negative weights summing to 1 the weighted score already lies
   * in [0, 1], so the clamp leaves it as it is.
   */
  lemma ClampIsNoOpForConvexWeights(de: Row, rast: Row, weights: seq<real>)
    requires |weights| == 4 && Sum(weights) == 1.0
    requires forall i :: 0 <= i < 4 ==> weights[i] >= 0.0
    ensures ScoreCandidate(de, rast, weights).score == Weighted(FieldScoresOf(de, rast), weights)
  {
    Sum4(weights);
    WeightedWithin(FieldScoresOf(de, rast), weights);
  }

  lemma WeightedWithin(f: FieldScores, weights: seq<real>)
    requires |weights| == 4 && weights[0] + weights[1] + weights[2] + weights[3] == 1.0
    requires forall i :: 0 <= i < 4 ==> weights[i] >= 0.0
    requires 0.0 <= f.slugScore <= 1.0 && 0.0 <= f.titleScore <= 1.0
    requires 0.0 <= f.descScore <= 1.0 && 0.0 <= f.h1Score <= 1.0
    ensures 0.0 <= Weighted(f, weights) <= 1.0
  {
    var p0 := ScaledWithin(f.slugScore, weights[0]);
    var p1 := ScaledWithin(f.titleScore, weights[1]);
    var p2 := ScaledWithin(f.descScore, weights[2]);
    var p3 := ScaledWithin(f.h1Score, weights[3]);
    SumWithin(p0, p1, p2, p3, weights[0], weights[1], weights[2], weights[3]);
    assert Weighted(f, weights) == p0 + p1 + p2 + p3;
  }

  lemma SumWithin(p0: real, p1: real, p2: real, p3: real, w0: real, w1: real, w2: real, w3: real)
    requires 0.0 <= p0 <= w0 && 0.0 <= p1 <= w1 && 0.0 <= p2 <= w2 && 0.0 <= p3 <= w3
    requires w0 + w1 + w2 + w3 == 1.0
    ensures 0.0 <= p0 + p1 + p2 + p3 <= 1.0
  {
  }

  lemma ScaledWithin(a: real, w: real) returns (p: real)
    requires 0.0 <= a <= 1.0 && w >= 0.0
    ensures p == a * w && 0.0 <= p <= w
  {
    assert (1.0 - a) * w >= 0.0;
    assert 0.0 <= a * w <= w;
    p := a * w;
  }

  function ScoreKey(c: Candidate): real
  {
    c.score
  }

  function Rows(cs: seq<Candidate>): (rows: seq<Row>)
    ensures |rows| == |cs|
    ensures forall k :: 0 <= k < |cs| ==> rows[k] == cs[k].row
  {
    seq(|cs|, k requires 0 <= k < |cs| => cs[k].row)
  }

  lemma {:induction false} RowsConcat(a: seq<Candidate>, b: seq<Candidate>)
    ensures Rows(a + b) == Rows(a) + Rows(b)
  {
  }

  /** Rearranging candidates rearranges their rows the same way. */
  lemma {:induction false} RowsPermutation(a: seq<Candidate>, b: seq<Candidate>)
    requires multiset(a) == multiset(b)
    ensures multiset(Rows(a)) == multiset(Rows(b))
    decreases |a|
  {
    if |a| > 0 {
      var x := a[0];
      ConsMultiset(a);
      assert x in multiset(b);
      var i :| 0 <= i < |b| && b[i] == x;
      var rest := b[..i] + b[i + 1..];
      RemoveOne(b, i);
      RowsPermutation(a[1..], rest);
      RowsRemoveOne(b, i);
      RowsCons(a);
    }
  }

  lemma ConsMultiset<T>(a: seq<T>)
    requires |a| > 0
    ensures multiset(a) == multiset{a[0]} + multiset(a[1..])
  {
    assert a == [a[0]] + a[1..];
  }

  lemma RowsCons(a: seq<Candidate>)
    requires |a| > 0
    ensures multiset(Rows(a)) == multiset{a[0].row} + multiset(Rows(a[1..]))
  {
    assert Rows(a) == [a[0].row] + Rows(a[1..]);
  }

  lemma RemoveOne<T>(b: seq<T>, i: nat)
    requires i < |b|
    ensures multiset(b[..i] + b[i + 1..]) == multiset(b) - multiset{b[i]}
  {
    assert b == b[..i] + [b[i]] + b[i + 1..];
  }

  lemma RowsRemoveOne(b: seq<Candidate>, i: nat)
    requires i < |b|
    ensures multiset(Rows(b)) == multiset(Rows(b[..i] + b[i + 1..])) + multiset{b[i].row}
  {
    assert Rows(b) == Rows(b[..i]) + [b[i].row] + Rows(b[i + 1..]);
    assert Rows(b[..i] + b[i + 1..]) == Rows(b[..i]) + Rows(b[i + 1..]);
  }

  function ScoreAll(de: Row, rastRows: seq<Row>, weights: seq<real>): (cs: seq<Candidate>)
    requires |weights| == 4
    ensures Rows(cs) == rastRows
    ensures forall c :: c in cs ==> c == ScoreCandidate(de, c.row, weights)
  {
    seq(|rastRows|, k requires 0 <= k < |rastRows| => ScoreCandidate(de, rastRows[k], weights))
  }

  /**
   * The candidates of one DE row: every RASTREIO row scored once, then sorted
   * by score, highest first, keeping input order among equal scores.
   */
  function RankCandidates(de: Row, rastRows: seq<Row>, weights: seq<real>): (cs: seq<Candidate>)
    requires |weights| == 4
    ensures multiset(Rows(cs)) == multiset(rastRows)
    ensures SortedDesc(cs, ScoreKey)
    ensures forall c :: c in cs ==> c == ScoreCandidate(de, c.row, weights)
  {
    var scored := ScoreAll(de, rastRows, weights);
    var sorted := SortDesc(scored, ScoreKey);
    RowsPermutation(sorted, scored);
    assert forall c :: c in sorted ==> c in multiset(scored);
    sorted
  }

  /**
   * `calculateSimilarities`: one result per DE row, in input order; each
   * holds every RASTREIO row exactly once, ranked by score, each score being
   * the clamped weighted sum under the normalised weights.
   */
  function CalculateSimilarities(deRows: seq<Row>, rastRows: seq<Row>, weights: seq<real>): (results: seq<MatchResult>)
    requires |weights| == 4 && Sum(weights) != 0.0
    ensures |results| == |deRows|
    ensures forall k :: 0 <= k < |deRows| ==> results[k].de == deRows[k]
    ensures forall k :: 0 <= k < |deRows| ==> multiset(Rows(results[k].candidates)) == multiset(rastRows)
    ensures forall k :: 0 <= k < |deRows| ==> SortedDesc(results[k].candidates, ScoreKey)
    ensures forall k, c :: 0 <= k < |deRows| && c in results[k].candidates
              ==> c == ScoreCandidate(deRows[k], c.row, NormalizeWeights(weights))
  {
    var normalized := NormalizeWeights(weights);
    seq(|deRows|, k requires 0 <= k < |deRows| => MatchResult(deRows[k], RankCandidates(deRows[k], rastRows, normalized)))
  }

  /** Candidates with equal scores keep the order of the RASTREIO sheet. */
  lemma RankingIsStable(de: Row, rastRows: seq<Row>, weights: seq<real>, v: real)
    requires |weights| == 4
    ensures WithKey(RankCandidates(de, rastRows, weights), ScoreKey, v) == WithKey(ScoreAll(de, rastRows, weights), ScoreKey, v)
  {
    SortDescStable(ScoreAll(de, rastRows, weights), ScoreKey, v);
  }

  // ---------------------------------------------------------------------
  // Statistics

  /**
   * `getSimilarityStats`. The average, maximum and minimum of no scores are
   * NaN, -Infinity and Infinity in the source; they are `None` here.
   */
  datatype Stats = Stats(totalComparisons: nat, averageScore: Option<real>, maxScore: Option<real>,
                         minScore: Option<real>, scoresAbove80: nat, scoresAbove90: nat)

  function Scores(cs: seq<Candidate>): (s: seq<real>)
    ensures |s| == |cs|
    ensures forall k :: 0 <= k < |cs| ==> s[k] == cs[k].score
  {
    if |cs| == 0 then [] else [cs[0].score] + Scores(cs[1..])
  }

  /** `results.flatMap(r => r.candidates.map(c => c.score))`. */
  function AllScores(results: seq<MatchResult>): seq<real>
  {
    if |results| == 0 then [] else Scores(results[0].candidates) + AllScores(results[1..])
  }

  function CountAtLeast(s: seq<real>, threshold: real): (n: nat)
    ensures n <= |s|
  {
    if |s| == 0 then 0 else (if s[0] >= threshold then 1 else 0) + CountAtLeast(s[1..], threshold)
  }

  function MaxOf(s: seq<real>): (m: real)
    requires |s| > 0
    ensures m in s && forall x :: x in s ==> x <= m
  {
    assert forall x :: x in s ==> x == s[0] || x in s[1..];
    if |s| == 1 then s[0] else RealMax(s[0], MaxOf(s[1..]))
  }

  function MinOf(s: seq<real>): (m: real)
    requires |s| > 0
    ensures m in s && forall x :: x in s ==> m <= x
  {
    assert forall x :: x in s ==> x == s[0] || x in s[1..];
    if |s| == 1 then s[0] else (var r := MinOf(s[1..]); if s[0] <= r then s[0] else r)
  }

  /**
   * The count is 0 exactly when every score falls below the threshold, and
   * the whole length exactly when every score reaches it.
   */
  lemma {:induction false} CountAtLeastExtremes(s: seq<real>, threshold: real)
    ensures CountAtLeast(s, threshold) == 0 <==> forall k :: 0 <= k < |s| ==> s[k] < threshold
    ensures CountAtLeast(s, threshold) == |s| <==> forall k :: 0 <= k < |s| ==> s[k] >= threshold
  {
    if |s| > 0 {
      CountAtLeastExtremes(s[1..], threshold);
      assert forall k :: 1 <= k < |s| ==> s[k] == s[1..][k - 1];
    }
  }

  /** Counting over a concatenation adds the counts of the parts. */
  lemma {:induction false} CountAtLeastConcat(a: seq<real>, b: seq<real>, threshold: real)
    ensures CountAtLeast(a + b, threshold) == CountAtLeast(a, threshold) + CountAtLeast(b, threshold)
  {
    if |a| == 0 {
      assert a + b == b;
    } else {
      assert (a + b)[0] == a[0] && (a + b)[1..] == a[1..] + b;
      CountAtLeastConcat(a[1..], b, threshold);
    }
  }

  lemma {:induction false} CountAtLeastMonotone(s: seq<real>, low: real, high: real)
    requires low <= high
    ensures CountAtLeast(s, high) <= CountAtLeast(s, low)
  {
    if |s| > 0 {
      CountAtLeastMonotone(s[1..], low, high);
    }
  }

  lemma {:induction false} SumBetween(s: seq<real>, low: real, high: real)
    requires forall x :: x in s ==> low <= x <= high
    ensures |s| as real * low <= Sum(s) <= |s| as real * high
  {
    if |s| > 0 {
      var rest := s[1..];
      forall x | x in rest
        ensures low <= x <= high
      {
        assert x in s;
      }
      SumBetween(rest, low, high);
      assert s[0] in s;
      ScaleByLength(|s|, low);
      ScaleByLength(|s|, high);
    }
  }

  /** `n * x` is `(n - 1) * x + x`. */
  lemma ScaleByLength(n: nat, x: real)
    requires n > 0
    ensures n as real * x == (n - 1) as real * x + x
  {
  }

  /** The mean: the sum of the scores over their number. */
  function Average(s: seq<real>): real
    requires |s| > 0
  {
    Sum(s) / |s| as real
  }

  /** The average times the number of scores is their sum. */
  lemma AverageTimesLength(s: seq<real>)
    requires |s| > 0
    ensures Average(s) * |s| as real == Sum(s)
  {
  }

  /** The average lies between any lower and upper bound of the scores. */
  lemma AverageBetween(s: seq<real>, low: real, high: real)
    requires |s| > 0
    requires forall x :: x in s ==> low <= x <= high
    ensures low <= Average(s) <= high
  {
    SumBetween(s, low, high);
    var n := |s| as real;
    assert Average(s) * n == Sum(s);
  }

  function GetSimilarityStats(results: seq<MatchResult>): (stats: Stats)
    ensures stats.totalComparisons == |AllScores(results)|
    ensures stats.scoresAbove90 <= stats.scoresAbove80 <= stats.totalComparisons
    ensures stats.averageScore.Some? <==> stats.totalComparisons > 0
    ensures stats.maxScore.Some? <==> stats.totalComparisons > 0
    ensures stats.minScore.Some? <==> stats.totalComparisons > 0
    ensures stats.maxScore.Some? ==> (stats.maxScore.value in AllScores(results)
              && forall x :: x in AllScores(results) ==> x <= stats.maxScore.value)
    ensures stats.minScore.Some? ==> (stats.minScore.value in AllScores(results)
              && forall x :: x in AllScores(results) ==> stats.minScore.value <= x)
    ensures stats.averageScore.Some? ==> stats.minScore.value <= stats.averageScore.value <= stats.maxScore.value
    ensures stats.averageScore.Some? ==> stats.averageScore.value == Average(AllScores(results))
    ensures stats.scoresAbove80 == CountAtLeast(AllScores(results), 0.8)
    ensures stats.scoresAbove90 == CountAtLeast(AllScores(results), 0.9)
  {
    var all := AllScores(results);
    CountAtLeastMonotone(all, 0.8, 0.9);
    if |all| == 0 then Stats(0, None, None, None, 0, 0)
    else
      var lo, hi := MinOf(all), MaxOf(all);
      AverageBetween(all, lo, hi);
      Stats(|all|, Some(Average(all)), Some(hi), Some(lo), CountAtLeast(all, 0.8), CountAtLeast(all, 0.9))
  }

  /** The cross product makes |DE| x |RASTREIO| comparisons. */
  lemma ComparisonCount(deRows: seq<Row>, rastRows: seq<Row>, weights: seq<real>)
    requires |weights| == 4 && Sum(weights) != 0.0
    ensures |AllScores(CalculateSimilarities(deRows, rastRows, weights))| == |deRows| * |rastRows|
  {
    var results := CalculateSimilarities(deRows, rastRows, weights);
    forall k | 0 <= k < |results|
      ensures |results[k].candidates| == |rastRows|
    {
      assert |multiset(Rows(results[k].candidates))| == |multiset(rastRows)|;
    }
    AllScoresCount(results, |rastRows|);
  }

  lemma {:induction false} AllScoresCount(results: seq<MatchResult>, m: nat)
    requires forall k :: 0 <= k < |results| ==> |results[k].candidates| == m
    ensures |AllScores(results)| == |results| * m
  {
    if |results| > 0 {
      AllScoresCount(results[1..], m);
    }
  }
}
