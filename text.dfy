/**
 * The JavaScript string built-ins the matching code relies on, over strings
 * of `char`: ASCII `toLowerCase`, `split` on a one-character separator and
 * `includes`.
 */
module Text {

  /** `toLowerCase` on one character; only the ASCII letters A-Z are mapped. */
  function LowerChar(c: char): char
  {
    if 'A' <= c <= 'Z' then (c as int + 32) as char else c
  }

  predicate IsUpper(c: char)
  {
    'A' <= c <= 'Z'
  }

  /** `String.prototype.toLowerCase`, restricted to ASCII. */
  function Lower(s: string): (r: string)
    ensures |r| == |s|
    ensures forall i :: 0 <= i < |s| ==> r[i] == LowerChar(s[i])
  {
    seq(|s|, i requires 0 <= i < |s| => LowerChar(s[i]))
  }

  lemma LowerNoUpper(s: string)
    ensures forall i :: 0 <= i < |s| ==> !IsUpper(Lower(s)[i])
  {
  }

  /** A string with no upper-case ASCII letter is its own lower-case form. */
  lemma LowerOfLower(s: string)
    requires forall i :: 0 <= i < |s| ==> !IsUpper(s[i])
    ensures Lower(s) == s
  {
  }

  /** `s.split(sep)` for a one-character separator: the empty string gives `[""]`. */
  function Split(s: string, sep: char): (parts: seq<string>)
    ensures |parts| >= 1
    ensures forall k :: 0 <= k < |parts| ==> sep !in parts[k]
    decreases |s|
  {
    if |s| == 0 then [""]
    else
      var rest := Split(s[1..], sep);
      if s[0] == sep then [""] + rest
      else [[s[0]] + rest[0]] + rest[1..]
  }

  /** `parts.join(sep)`, the inverse of `Split`. */
  function Join(parts: seq<string>, sep: char): string
    requires |parts| >= 1
    decreases |parts|
  {
    if |parts| == 1 then parts[0] else parts[0] + [sep] + Join(parts[1..], sep)
  }

  /** Splitting and joining on the same separator gives back the string. */
  lemma {:induction false} JoinSplit(s: string, sep: char)
    ensures Join(Split(s, sep), sep) == s
    decreases |s|
  {
    if |s| > 0 {
      JoinSplit(s[1..], sep);
      var rest := Split(s[1..], sep);
      if s[0] == sep {
        assert Split(s, sep)[1..] == rest;
      } else {
        var parts := Split(s, sep);
        if |rest| == 1 {
          assert parts == [[s[0]] + rest[0]];
        } else {
          assert parts[1..] == rest[1..];
          assert Join(rest, sep) == rest[0] + [sep] + Join(rest[1..], sep);
        }
      }
    }
  }

  /** A string without the separator is a single part. */
  lemma {:induction false} SplitWithoutSeparator(w: string, sep: char)
    requires sep !in w
    ensures Split(w, sep) == [w]
    decreases |w|
  {
    if |w| > 0 {
      SplitWithoutSeparator(w[1..], sep);
      assert [w[0]] + w[1..] == w;
    }
  }

  /** A leading word followed by the separator becomes the first part. */
  lemma {:induction false} SplitLeadingWord(w: string, rest: string, sep: char)
    requires sep !in w
    ensures Split(w + [sep] + rest, sep) == [w] + Split(rest, sep)
    decreases |w|
  {
    var s := w + [sep] + rest;
    if |w| == 0 {
      assert s == [sep] + rest;
      assert s[1..] == rest;
    } else {
      SplitLeadingWord(w[1..], rest, sep);
      assert s[1..] == w[1..] + [sep] + rest;
      assert [w[0]] + w[1..] == w;
    }
  }

  /** Every character of a part of `Split(s, sep)` occurs in `s`. */
  lemma {:induction false} SplitChars(s: string, sep: char)
    ensures forall k, c :: 0 <= k < |Split(s, sep)| && c in Split(s, sep)[k] ==> c in s
    decreases |s|
  {
    if |s| > 0 {
      SplitChars(s[1..], sep);
      var rest := Split(s[1..], sep);
      forall k, c | 0 <= k < |Split(s, sep)| && c in Split(s, sep)[k]
        ensures c in s
      {
        var j := if s[0] != sep then k else k - 1;
        if s[0] != sep && k == 0 {
          assert Split(s, sep)[0] == [s[0]] + rest[0];
          if c != s[0] {
            assert c in rest[0];
            assert c in s[1..];
          }
        } else {
          assert 0 <= j < |rest| && Split(s, sep)[k] == rest[j];
          assert c in s[1..];
        }
      }
    }
  }

  /** `s.includes(sub)`: `sub` occurs in `s` at some position. */
  predicate Contains(s: string, sub: string)
    decreases |s|
  {
    sub <= s || (|s| > 0 && Contains(s[1..], sub))
  }

  /** `sub` occurs in `s` starting at index `k`. */
  predicate OccursAt(s: string, sub: string, k: int)
  {
    0 <= k <= |s| - |sub| && s[k..k + |sub|] == sub
  }

  /** `Contains` holds exactly when `sub` occurs at some index of `s`. */
  lemma {:induction false} ContainsIffOccurs(s: string, sub: string)
    ensures Contains(s, sub) <==> exists k :: OccursAt(s, sub, k)
    decreases |s|
  {
    OccursAtStart(s, sub);
    if !(sub <= s) && |s| > 0 {
      ContainsIffOccurs(s[1..], sub);
      if Contains(s[1..], sub) {
        var k :| OccursAt(s[1..], sub, k);
        OccursShift(s, sub, k + 1);
      }
      if k :| OccursAt(s, sub, k) {
        OccursShift(s, sub, k);
      }
    }
  }

  /** An occurrence at index 0 is a prefix. */
  lemma OccursAtStart(s: string, sub: string)
    ensures OccursAt(s, sub, 0) <==> sub <= s
  {
    if sub <= s {
      assert s[0..|sub|] == sub;
    }
  }

  /** An occurrence past index 0 is an occurrence in the tail, one index earlier. */
  lemma OccursShift(s: string, sub: string, k: int)
    requires |s| > 0 && k >= 1
    ensures OccursAt(s, sub, k) <==> OccursAt(s[1..], sub, k - 1)
  {
    if 0 <= k - 1 <= |s| - 1 - |sub| {
      assert s[1..][k - 1..k - 1 + |sub|] == s[k..k + |sub|];
    }
  }

  /** A string contains itself; a longer string is never contained in a shorter one. */
  lemma ContainsSelf(s: string)
    ensures Contains(s, s)
  {
  }

  lemma {:induction false} ContainsLength(s: string, sub: string)
    requires Contains(s, sub)
    ensures |sub| <= |s|
    decreases |s|
  {
    if !(sub <= s) {
      ContainsLength(s[1..], sub);
    }
  }

  /** A string contains one at least as long only when the two are equal. */
  lemma ContainsSameLength(s: string, sub: string)
    requires Contains(s, sub) && |s| <= |sub|
    ensures sub == s
  {
    if !(sub <= s) {
      ContainsLength(s[1..], sub);
    }
  }
}
