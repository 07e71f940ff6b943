/**
 * Slug cleaning and the product-category lexicon of
 * services/similarityService.js (`cleanSlug`, `extractProductCategory`,
 * `areIncompatibleCategories`).
 */
module Slugs {

  import opened Wrappers
  import opened Text

  /** The characters `[a-z0-9\-_]` that survive cleaning. */
  predicate IsSlugChar(c: char)
  {
    ('a' <= c <= 'z') || ('0' <= c <= '9') || c == '-' || c == '_'
  }

  /** `.replace(/[^a-z0-9\-_]/g, '')`. */
  function KeepSlugChars(s: string): (r: string)
    ensures forall i :: 0 <= i < |r| ==> IsSlugChar(r[i])
    ensures forall c :: c in r ==> c in s
  {
    if |s| == 0 then []
    else (if IsSlugChar(s[0]) then [s[0]] else []) + KeepSlugChars(s[1..])
  }

  /** Removing characters distributes over concatenation, so the kept characters stay in input order. */
  lemma {:induction false} KeepSlugCharsConcat(a: string, b: string)
    ensures KeepSlugChars(a + b) == KeepSlugChars(a) + KeepSlugChars(b)
    decreases |a|
  {
    if |a| == 0 {
      assert a + b == b;
    } else {
      assert (a + b)[0] == a[0] && (a + b)[1..] == a[1..] + b;
      KeepSlugCharsConcat(a[1..], b);
    }
  }

  /** A single character is kept exactly when it is a slug character. */
  lemma KeepSlugCharsSingle(c: char)
    ensures KeepSlugChars([c]) == if IsSlugChar(c) then [c] else []
  {
    assert [c][1..] == [];
  }

  /** `.replace(/-+/g, '-')`: every run of hyphens becomes one. */
  function CollapseHyphens(s: string): (r: string)
    ensures forall c :: c in r ==> c in s
    ensures |s| > 0 ==> |r| > 0 && r[0] == s[0]
    ensures NoDoubleHyphen(r)
    ensures WithoutHyphens(r) == WithoutHyphens(s)
  {
    if |s| <= 1 then s
    else if s[0] == '-' && s[1] == '-' then CollapseHyphens(s[1..])
    else
      var rest := CollapseHyphens(s[1..]);
      assert ([s[0]] + rest)[1..] == rest;
      [s[0]] + rest
  }

  /** The characters of `s` other than `-`, in order. */
  function WithoutHyphens(s: string): string
  {
    if |s| == 0 then [] else (if s[0] == '-' then [] else [s[0]]) + WithoutHyphens(s[1..])
  }

  predicate NoDoubleHyphen(s: string)
  {
    forall i :: 0 <= i < |s| - 1 ==> !(s[i] == '-' && s[i + 1] == '-')
  }

  /** `.replace(/^-|-$/g, '')`: one leading and one trailing hyphen go. */
  function TrimHyphens(s: string): string
  {
    var t := if |s| > 0 && s[0] == '-' then s[1..] else s;
    if |t| > 0 && t[|t| - 1] == '-' then t[..|t| - 1] else t
  }

  /** `cleanSlug`: lower-case, keep `[a-z0-9\-_]`, collapse hyphens, trim hyphens. */
  function CleanSlug(slug: string): string
  {
    TrimHyphens(CollapseHyphens(KeepSlugChars(Lower(slug))))
  }

  /** What a cleaned slug looks like. */
  predicate IsCleanSlug(s: string)
  {
    && (forall i :: 0 <= i < |s| ==> IsSlugChar(s[i]))
    && NoDoubleHyphen(s)
    && (|s| > 0 ==> s[0] != '-' && s[|s| - 1] != '-')
  }

  /**
   * The output of `cleanSlug` holds only `a-z`, `0-9`, `-` and `_`, has no
   * two hyphens in a row, and neither starts nor ends with a hyphen.
   */
  lemma CleanSlugIsClean(slug: string)
    ensures IsCleanSlug(CleanSlug(slug))
  {
    var c := CollapseHyphens(KeepSlugChars(Lower(slug)));
    CollapsedSlugChars(KeepSlugChars(Lower(slug)));
    TrimmedIsClean(c);
  }

  /** Collapsing hyphens keeps a string of slug characters one. */
  lemma CollapsedSlugChars(k: string)
    requires forall i :: 0 <= i < |k| ==> IsSlugChar(k[i])
    ensures forall i :: 0 <= i < |CollapseHyphens(k)| ==> IsSlugChar(CollapseHyphens(k)[i])
  {
    var c := CollapseHyphens(k);
    forall i | 0 <= i < |c|
      ensures IsSlugChar(c[i])
    {
      assert c[i] in c;
      var m :| 0 <= m < |k| && k[m] == c[i];
    }
  }

  /** Trimming the end hyphens of slug characters without a double hyphen leaves a clean slug. */
  lemma TrimmedIsClean(c: string)
    requires forall i :: 0 <= i < |c| ==> IsSlugChar(c[i])
    requires NoDoubleHyphen(c)
    ensures IsCleanSlug(TrimHyphens(c))
  {
    var t := if |c| > 0 && c[0] == '-' then c[1..] else c;
    assert |c| > 1 && c[0] == '-' ==> c[1] != '-';
    assert forall i :: 0 <= i < |t| ==> IsSlugChar(t[i]);
    assert NoDoubleHyphen(t);
    assert |t| > 0 ==> t[0] != '-';
    if |t| > 0 && t[|t| - 1] == '-' {
      var u := t[..|t| - 1];
      assert |u| > 0 ==> u[|u| - 1] == t[|t| - 2];
      assert forall i :: 0 <= i < |u| ==> u[i] == t[i];
    }
  }

  lemma {:induction false} KeepSlugCharsOfSlugChars(s: string)
    requires forall i :: 0 <= i < |s| ==> IsSlugChar(s[i])
    ensures KeepSlugChars(s) == s
  {
    if |s| > 0 {
      KeepSlugCharsOfSlugChars(s[1..]);
      assert s == [s[0]] + s[1..];
    }
  }

  lemma {:induction false} CollapseOfCollapsed(s: string)
    requires NoDoubleHyphen(s)
    ensures CollapseHyphens(s) == s
  {
    if |s| > 1 {
      CollapseOfCollapsed(s[1..]);
      assert s == [s[0]] + s[1..];
    }
  }

  /** A slug that already looks clean is left unchanged by `cleanSlug`. */
  lemma CleanSlugOfClean(s: string)
    requires IsCleanSlug(s)
    ensures CleanSlug(s) == s
  {
    assert forall i :: 0 <= i < |s| ==> !IsUpper(s[i]) by {
      forall i | 0 <= i < |s| ensures !IsUpper(s[i]) {
        assert IsSlugChar(s[i]);
      }
    }
    LowerOfLower(s);
    KeepSlugCharsOfSlugChars(s);
    CollapseOfCollapsed(s);
    assert CleanSlug(s) == TrimHyphens(s);
  }

  /** `cleanSlug` is idempotent. */
  lemma CleanSlugIdempotent(slug: string)
    ensures CleanSlug(CleanSlug(slug)) == CleanSlug(slug)
  {
    CleanSlugIsClean(slug);
    CleanSlugOfClean(CleanSlug(slug));
  }

  /** A slug is its own cleaned form exactly when it looks clean. */
  lemma CleanSlugFixedPoints(s: string)
    ensures CleanSlug(s) == s <==> IsCleanSlug(s)
  {
    CleanSlugIsClean(s);
    if IsCleanSlug(s) {
      CleanSlugOfClean(s);
    }
  }

  // ---------------------------------------------------------------------
  // Product categories

  datatype Category = Roupa | Calcado | Acessorio

  /** The lexicon of `extractProductCategory`, accented keys included. */
  const Lexicon: map<string, Category> := map[
    "blusa" := Roupa, "camiseta" := Roupa, "camisa" := Roupa, "bermuda" := Roupa,
    "calca" := Roupa, "cal\U{e7}a" := Roupa, "short" := Roupa, "vestido" := Roupa,
    "saia" := Roupa, "jaqueta" := Roupa, "casaco" := Roupa, "moletom" := Roupa,
    "sueter" := Roupa, "cardigan" := Roupa,
    "sapato" := Calcado, "tenis" := Calcado, "t\U{ea}nis" := Calcado, "sandalias" := Calcado,
    "sand\U{e1}lias" := Calcado, "chinelo" := Calcado, "bota" := Calcado, "salto" := Calcado,
    "sneaker" := Calcado,
    "oculos" := Acessorio, "\U{f3}culos" := Acessorio, "mochila" := Acessorio, "bolsa" := Acessorio,
    "carteira" := Acessorio, "cinto" := Acessorio, "relogio" := Acessorio, "rel\U{f3}gio" := Acessorio,
    "chapeu" := Acessorio, "chap\U{e9}u" := Acessorio, "bon\U{e9}" := Acessorio, "bonet" := Acessorio,
    "luvas" := Acessorio, "cachecol" := Acessorio, "cachec\U{f3}l" := Acessorio
  ]

  /** The lexicon keys that hold a character outside `[a-z0-9\-_]`. */
  const AccentedKeys: set<string> := {
    "cal\U{e7}a", "t\U{ea}nis", "sand\U{e1}lias", "\U{f3}culos", "rel\U{f3}gio",
    "chap\U{e9}u", "bon\U{e9}", "cachec\U{f3}l"
  }

  /** The category of a word, looked up on the lexicon's own keys. */
  function Lookup(word: string): Option<Category>
  {
    var w := Lower(word);
    if w in Lexicon then Some(Lexicon[w]) else None
  }

  /** The category of the first hyphen-separated word found in the lexicon. */
  function FirstCategory(words: seq<string>): (c: Option<Category>)
    ensures c.None? <==> forall k :: 0 <= k < |words| ==> Lookup(words[k]).None?
    ensures c.Some? ==> exists k :: 0 <= k < |words| && Lookup(words[k]) == c
                                   && forall m :: 0 <= m < k ==> Lookup(words[m]).None?
  {
    if |words| == 0 then None
    else if Lookup(words[0]).Some? then Lookup(words[0])
    else
      var c := FirstCategory(words[1..]);
      assert forall k :: 1 <= k < |words| ==> words[k] == words[1..][k - 1];
      if c.Some? then
        var k :| 0 <= k < |words[1..]| && Lookup(words[1..][k]) == c
                 && forall m :: 0 <= m < k ==> Lookup(words[1..][m]).None?;
        assert Lookup(words[k + 1]) == c;
        c
      else c
  }

  /** The category a cleaned slug signals. */
  function SlugCategory(slug: string): Option<Category>
  {
    FirstCategory(Split(slug, '-'))
  }

  /** A slug whose first word is a lexicon word takes that word's category. */
  lemma SlugCategoryLeadingWord(word: string, rest: string)
    requires '-' !in word && Lookup(word).Some?
    ensures SlugCategory(word + "-" + rest) == Lookup(word)
  {
    SplitLeadingWord(word, rest, '-');
    assert Split(word + "-" + rest, '-')[0] == word;
  }

  /** A slug none of whose words is a lexicon word has no category. */
  lemma SlugCategoryNone(slug: string)
    requires forall k :: 0 <= k < |Split(slug, '-')| ==> Lower(Split(slug, '-')[k]) !in Lexicon
    ensures SlugCategory(slug).None?
  {
  }

  // ---------------------------------------------------------------------
  // The category lookup as written: `categories[word.toLowerCase()]` on a
  // plain object literal also finds the members every object inherits.
  // Of those, exactly `constructor` and `__proto__` are lower case, survive
  // `cleanSlug`, and hold a truthy value (a function and an object).

  /** What the property access on the object literal yields. */
  datatype PropertyValue = Entry(category: Category) | InheritedMember(name: string)

  const InheritedKeys: set<string> := {"constructor", "__proto__"}

  /** `categories[word.toLowerCase()]`, when truthy. */
  function PropertyLookup(word: string): (p: Option<PropertyValue>)
    ensures p.Some? && p.value.Entry? <==> Lookup(word).Some?
    ensures p.Some? && p.value.Entry? ==> Lookup(word) == Some(p.value.category)
    ensures p.Some? && p.value.InheritedMember? <==> Lower(word) in InheritedKeys
  {
    var w := Lower(word);
    if w in Lexicon then Some(Entry(Lexicon[w]))
    else if w in InheritedKeys then Some(InheritedMember(w))
    else None
  }

  /** The first truthy property access over the words, as the loop returns it. */
  function FirstPropertyAsWritten(words: seq<string>): (p: Option<PropertyValue>)
    ensures p.None? <==> forall k :: 0 <= k < |words| ==> PropertyLookup(words[k]).None?
  {
    if |words| == 0 then None
    else if PropertyLookup(words[0]).Some? then PropertyLookup(words[0])
    else
      var p := FirstPropertyAsWritten(words[1..]);
      assert forall k :: 1 <= k < |words| ==> words[k] == words[1..][k - 1];
      p
  }

  /** `extractProductCategory` as written. */
  function SlugPropertyAsWritten(slug: string): Option<PropertyValue>
  {
    FirstPropertyAsWritten(Split(slug, '-'))
  }

  /**
   * Where no word lower-cases to an inherited member name, the lookup as
   * written and the corrected lookup agree: the as-written result is the
   * corrected category, wrapped.
   */
  lemma {:induction false} FirstPropertyAgrees(words: seq<string>)
    requires forall k :: 0 <= k < |words| ==> Lower(words[k]) !in InheritedKeys
    ensures FirstPropertyAsWritten(words) == (if FirstCategory(words).Some? then Some(Entry(FirstCategory(words).value)) else None)
  {
    if |words| > 0 && PropertyLookup(words[0]).None? {
      assert forall k :: 0 <= k < |words[1..]| ==> words[1..][k] == words[k + 1];
      FirstPropertyAgrees(words[1..]);
    }
  }

  /** No word of the slug lower-cases to an inherited member name. */
  predicate NoInheritedWord(slug: string)
  {
    forall k :: 0 <= k < |Split(slug, '-')| ==> Lower(Split(slug, '-')[k]) !in InheritedKeys
  }

  /** As-written: a slug made of `constructor` and any lexicon-free rest gets a category value. */
  lemma InheritedKeyActsAsCategory(rest: string)
    ensures SlugPropertyAsWritten("constructor-" + rest) == Some(InheritedMember("constructor"))
  {
    LowerOfLower("constructor");
    assert "constructor" !in Lexicon;
    SplitLeadingWord("constructor", rest, '-');
    assert "constructor-" + rest == "constructor" + "-" + rest;
    assert Split("constructor-" + rest, '-')[0] == "constructor";
  }

  /** Corrected: `constructor-<word>`, with a second word outside the lexicon, has no category. */
  lemma ConstructorSlugHasNoCategory(word: string)
    requires '-' !in word && Lower(word) !in Lexicon
    ensures SlugCategory("constructor-" + word).None?
  {
    assert "constructor-" + word == "constructor" + "-" + word;
    SplitLeadingWord("constructor", word, '-');
    SplitWithoutSeparator(word, '-');
    LowerOfLower("constructor");
    assert Split("constructor-" + word, '-') == ["constructor", word];
  }

  /** Corrected: the same slugs take no category from their first word. */
  lemma InheritedKeyIsNoCategory()
    ensures Lookup("constructor").None? && Lookup("__proto__").None?
  {
    LowerOfLower("constructor");
    LowerOfLower("__proto__");
  }

  /**
   * `extractProductCategory`: walks the hyphen-separated words and returns
   * on the first one the lexicon knows; `null` when there is none.
   */
  method ExtractProductCategory(slug: string) returns (category: Option<Category>)
    ensures category == SlugCategory(slug)
    ensures category.None? <==> forall k :: 0 <= k < |Split(slug, '-')| ==> Lower(Split(slug, '-')[k]) !in Lexicon
  {
    var words := Split(slug, '-');
    for k := 0 to |words|
      invariant forall m :: 0 <= m < k ==> Lookup(words[m]).None?
    {
      var w := Lower(words[k]);
      if w in Lexicon {
        assert words[k] == Split(slug, '-')[k] && Lower(Split(slug, '-')[k]) in Lexicon;
        return Some(Lexicon[w]);
      }
    }
    return None;
  }

  /** The incompatible pairs, listed once each. */
  const IncompatiblePairs: seq<(Category, Category)> := [(Roupa, Calcado), (Roupa, Acessorio), (Calcado, Acessorio)]

  /** Two categories are incompatible when they form a listed pair, in either order. */
  predicate Incompatible(c1: Category, c2: Category)
  {
    c1 != c2 && exists k :: 0 <= k < |IncompatiblePairs| && (IncompatiblePairs[k] == (c1, c2) || IncompatiblePairs[k] == (c2, c1))
  }

  /** `areIncompatibleCategories`: equal categories first, then a scan of the pairs. */
  method AreIncompatibleCategories(category1: Category, category2: Category) returns (incompatible: bool)
    ensures incompatible == Incompatible(category1, category2)
    ensures incompatible <==> category1 != category2
  {
    IncompatibleIffDistinct(category1, category2);
    if category1 == category2 {
      return false;
    }
    for k := 0 to |IncompatiblePairs|
      invariant forall m :: 0 <= m < k ==> IncompatiblePairs[m] != (category1, category2) && IncompatiblePairs[m] != (category2, category1)
    {
      var pair := IncompatiblePairs[k];
      if (category1 == pair.0 && category2 == pair.1) || (category1 == pair.1 && category2 == pair.0) {
        return true;
      }
    }
    return false;
  }

  /** Every pair of distinct categories is incompatible, symmetrically. */
  lemma IncompatibleIffDistinct(c1: Category, c2: Category)
    ensures Incompatible(c1, c2) <==> c1 != c2
    ensures Incompatible(c1, c2) == Incompatible(c2, c1)
  {
    if c1 != c2 {
      var k := if {c1, c2} == {Roupa, Calcado} then 0 else if {c1, c2} == {Roupa, Acessorio} then 1 else 2;
      assert IncompatiblePairs[k] == (c1, c2) || IncompatiblePairs[k] == (c2, c1);
    }
  }

  lemma AccentedKeysHaveForeignChar()
    ensures forall a :: a in AccentedKeys ==> exists i :: 0 <= i < |a| && !IsSlugChar(a[i])
  {
    assert !IsSlugChar("cal\U{e7}a"[3]);
    assert !IsSlugChar("t\U{ea}nis"[1]);
    assert !IsSlugChar("sand\U{e1}lias"[4]);
    assert !IsSlugChar("\U{f3}culos"[0]);
    assert !IsSlugChar("rel\U{f3}gio"[3]);
    assert !IsSlugChar("chap\U{e9}u"[4]);
    assert !IsSlugChar("bon\U{e9}"[3]);
    assert !IsSlugChar("cachec\U{f3}l"[6]);
  }

  /**
   * The accented lexicon keys can never match: every word of a cleaned slug
   * consists of `[a-z0-9_]`, and each accented key holds another character.
   */
  lemma AccentedKeysUnreachable(slug: string)
    ensures forall k :: 0 <= k < |Split(CleanSlug(slug), '-')| ==> Lower(Split(CleanSlug(slug), '-')[k]) !in AccentedKeys
  {
    var clean := CleanSlug(slug);
    CleanSlugIsClean(slug);
    SplitChars(clean, '-');
    forall k | 0 <= k < |Split(clean, '-')|
      ensures Lower(Split(clean, '-')[k]) !in AccentedKeys
    {
      var w := Split(clean, '-')[k];
      assert forall i :: 0 <= i < |w| ==> w[i] in clean;
      assert forall i :: 0 <= i < |w| ==> IsSlugChar(w[i]);
      LowerOfLower(w);
      AccentedKeysHaveForeignChar();
    }
  }
}
