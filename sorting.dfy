/**
 * `Array.prototype.sort` with a numeric comparator `(a, b) => key(b) - key(a)`:
 * a stable sort into non-increasing key order. JavaScript's sort is stable,
 * so its result is the one permutation that is ordered and keeps equal keys
 * in input order; `SortDesc` computes it by insertion.
 */
module Sorting {

  /** Non-increasing by `key`. */
  predicate SortedDesc<T>(s: seq<T>, key: T -> real)
  {
    forall i, j :: 0 <= i < j < |s| ==> key(s[i]) >= key(s[j])
  }

  /** The elements of `s` whose key is `v`, in order. */
  function WithKey<T>(s: seq<T>, key: T -> real, v: real): seq<T>
  {
    if |s| == 0 then []
    else (if key(s[0]) == v then [s[0]] else []) + WithKey(s[1..], key, v)
  }

  /** Puts `x` before the first element whose key is not larger than its own. */
  function Insert<T>(x: T, s: seq<T>, key: T -> real): (r: seq<T>)
    requires SortedDesc(s, key)
    ensures |r| == |s| + 1
    ensures multiset(r) == multiset(s) + multiset{x}
    ensures SortedDesc(r, key)
  {
    if |s| == 0 || key(s[0]) <= key(x) then [x] + s
    else
      var t := Insert(x, s[1..], key);
      assert s == [s[0]] + s[1..];
      HeadBoundsRest(x, s, t, key);
      [s[0]] + t
  }

  /** Everything in `t`, a rearrangement of `x` and the tail of `s`, has a key no larger than `s[0]`'s. */
  lemma HeadBoundsRest<T>(x: T, s: seq<T>, t: seq<T>, key: T -> real)
    requires |s| > 0 && SortedDesc(s, key) && key(x) < key(s[0])
    requires multiset(t) == multiset(s[1..]) + multiset{x}
    ensures forall j :: 0 <= j < |t| ==> key(t[j]) <= key(s[0])
  {
    forall j | 0 <= j < |t|
      ensures key(t[j]) <= key(s[0])
    {
      assert t[j] in multiset(t);
      if t[j] != x {
        assert t[j] in multiset(s[1..]);
        var m :| 0 <= m < |s[1..]| && s[1..][m] == t[j];
        assert s[m + 1] == t[j];
      }
    }
  }

  /** The stable descending sort of `s`. */
  function SortDesc<T>(s: seq<T>, key: T -> real): (r: seq<T>)
    ensures |r| == |s|
    ensures multiset(r) == multiset(s)
    ensures SortedDesc(r, key)
  {
    if |s| == 0 then []
    else
      assert s == [s[0]] + s[1..];
      Insert(s[0], SortDesc(s[1..], key), key)
  }

  /** Inserting `x` adds it to the elements of its key and leaves every other key's elements alone. */
  lemma {:induction false} InsertWithKey<T>(x: T, s: seq<T>, key: T -> real, v: real)
    requires SortedDesc(s, key)
    ensures WithKey(Insert(x, s, key), key, v) == (if key(x) == v then [x] else []) + WithKey(s, key, v)
    decreases |s|
  {
    if |s| == 0 || key(s[0]) <= key(x) {
      WithKeyCons(x, s, key, v);
    } else {
      InsertWithKey(x, s[1..], key, v);
      var t := Insert(x, s[1..], key);
      WithKeyCons(s[0], t, key, v);
      assert s == [s[0]] + s[1..];
      WithKeyCons(s[0], s[1..], key, v);
      var hx: seq<T> := if key(x) == v then [x] else [];
      var hs: seq<T> := if key(s[0]) == v then [s[0]] else [];
      SwapEmptyPrefix(hs, hx, WithKey(s[1..], key, v));
    }
  }

  /** When one of two prefixes is empty, their order does not matter. */
  lemma SwapEmptyPrefix<T>(a: seq<T>, b: seq<T>, w: seq<T>)
    requires a == [] || b == []
    ensures a + (b + w) == b + (a + w)
  {
    if a == [] {
      assert a + (b + w) == b + w == b + (a + w);
    } else {
      assert a + (b + w) == a + w == b + (a + w);
    }
  }

  /** The elements of one key in `[y] + t`: `y` if it has that key, then those of `t`. */
  lemma WithKeyCons<T>(y: T, t: seq<T>, key: T -> real, v: real)
    ensures WithKey([y] + t, key, v) == (if key(y) == v then [y] else []) + WithKey(t, key, v)
  {
    assert ([y] + t)[1..] == t;
  }

  /**
   * Stability: for every key value, the elements carrying it appear in the
   * same order before and after sorting.
   */
  lemma {:induction false} SortDescStable<T>(s: seq<T>, key: T -> real, v: real)
    ensures WithKey(SortDesc(s, key), key, v) == WithKey(s, key, v)
    decreases |s|
  {
    if |s| > 0 {
      SortDescStable(s[1..], key, v);
      InsertWithKey(s[0], SortDesc(s[1..], key), key, v);
    }
  }

  /** A sequence that is already ordered is left as it is. */
  lemma {:induction false} SortDescOfSorted<T>(s: seq<T>, key: T -> real)
    requires SortedDesc(s, key)
    ensures SortDesc(s, key) == s
    decreases |s|
  {
    if |s| > 0 {
      SortDescOfSorted(s[1..], key);
      assert SortDesc(s[1..], key) == s[1..];
      assert s == [s[0]] + s[1..];
    }
  }
}
