/**
 * Levenshtein distance, filled in a (|str2|+1) x (|str1|+1) matrix exactly as
 * `levenshteinDistance` in services/similarityService.js does.
 */
module Levenshtein {

  function Min3(a: nat, b: nat, c: nat): nat
  {
    if a <= b && a <= c then a else if b <= c then b else c
  }

  function Max(a: nat, b: nat): nat
  {
    if a >= b then a else b
  }

  /**
   * Cell [i][j] of the matrix: the distance between the first `i` characters
   * of `str2` and the first `j` characters of `str1`. Equal characters copy
   * the diagonal; otherwise the cheapest of substitution, insertion and
   * deletion, each costing 1.
   */
  function Cell(str1: string, str2: string, i: nat, j: nat): nat
    requires i <= |str2| && j <= |str1|
    decreases i + j
  {
    if i == 0 then j
    else if j == 0 then i
    else if str2[i - 1] == str1[j - 1] then Cell(str1, str2, i - 1, j - 1)
    else Min3(Cell(str1, str2, i - 1, j - 1) + 1, Cell(str1, str2, i, j - 1) + 1, Cell(str1, str2, i - 1, j) + 1)
  }

  /** The edit distance: the bottom-right cell. */
  function Distance(str1: string, str2: string): nat
  {
    Cell(str1, str2, |str2|, |str1|)
  }

  /**
   * Fills the matrix row by row. Identical strings and an empty string are
   * answered before the matrix is built, as in the source.
   */
  method LevenshteinDistance(str1: string, str2: string) returns (d: nat)
    ensures d == Distance(str1, str2)
    ensures d == 0 <==> str1 == str2
    ensures d <= Max(|str1|, |str2|)
  {
    DistanceZeroIff(str1, str2);
    DistanceAtMostLonger(str1, str2);
    if str1 == str2 {
      return 0;
    }
    if |str1| == 0 {
      return |str2|;
    }
    if |str2| == 0 {
      return |str1|;
    }
    var matrix := new nat[|str2| + 1, |str1| + 1];
    for i := 0 to |str2| + 1
      invariant forall r :: 0 <= r < i ==> matrix[r, 0] == r
    {
      matrix[i, 0] := i;
    }
    for j := 0 to |str1| + 1
      invariant forall r :: 0 <= r <= |str2| ==> matrix[r, 0] == r
      invariant forall c :: 0 <= c < j ==> matrix[0, c] == c
    {
      matrix[0, j] := j;
    }
    for i := 1 to |str2| + 1
      invariant forall r, c {:trigger matrix[r, c]} :: 0 <= r < i && 0 <= c <= |str1| ==> matrix[r, c] == Cell(str1, str2, r, c)
      invariant forall r :: i <= r <= |str2| ==> matrix[r, 0] == r
    {
      FillRow(str1, str2, matrix, i);
    }
    d := matrix[|str2|, |str1|];
  }

  /** Fills row `i` from the rows above it and the cell to its left. */
  method FillRow(str1: string, str2: string, matrix: array2<nat>, i: nat)
    requires matrix.Length0 == |str2| + 1 && matrix.Length1 == |str1| + 1 && 1 <= i <= |str2|
    requires forall r, c {:trigger matrix[r, c]} :: 0 <= r < i && 0 <= c <= |str1| ==> matrix[r, c] == Cell(str1, str2, r, c)
    requires forall r :: i <= r <= |str2| ==> matrix[r, 0] == r
    modifies matrix
    ensures forall r, c {:trigger matrix[r, c]} :: 0 <= r <= i && 0 <= c <= |str1| ==> matrix[r, c] == Cell(str1, str2, r, c)
    ensures forall r :: i < r <= |str2| ==> matrix[r, 0] == r
  {
    for j := 1 to |str1| + 1
      invariant forall r, c {:trigger matrix[r, c]} :: 0 <= r < i && 0 <= c <= |str1| ==> matrix[r, c] == Cell(str1, str2, r, c)
      invariant forall c {:trigger matrix[i, c]} :: 0 <= c < j ==> matrix[i, c] == Cell(str1, str2, i, c)
      invariant forall r :: i < r <= |str2| ==> matrix[r, 0] == r
    {
      var value;
      if str2[i - 1] == str1[j - 1] {
        value := matrix[i - 1, j - 1];
      } else {
        value := Min3(matrix[i - 1, j - 1] + 1, matrix[i, j - 1] + 1, matrix[i - 1, j] + 1);
      }
      assert value == Cell(str1, str2, i, j);
      matrix[i, j] := value;
    }
  }

  /** A cell is zero exactly when the two prefixes are equal. */
  lemma {:induction false} CellZeroIff(str1: string, str2: string, i: nat, j: nat)
    requires i <= |str2| && j <= |str1|
    ensures Cell(str1, str2, i, j) == 0 <==> i == j && str1[..j] == str2[..i]
    decreases i + j
  {
    if i > 0 && j > 0 {
      CellZeroIff(str1, str2, i - 1, j - 1);
      assert str1[..j] == str1[..j - 1] + [str1[j - 1]];
      assert str2[..i] == str2[..i - 1] + [str2[i - 1]];
      if i == j && str1[..j] == str2[..i] {
        assert str1[..j][j - 1] == str2[..i][i - 1];
        assert str1[..j - 1] == str1[..j][..j - 1];
        assert str2[..i - 1] == str2[..i][..i - 1];
      }
    }
  }

  lemma DistanceZeroIff(str1: string, str2: string)
    ensures Distance(str1, str2) == 0 <==> str1 == str2
  {
    CellZeroIff(str1, str2, |str2|, |str1|);
    assert str1[..|str1|] == str1 && str2[..|str2|] == str2;
  }

  /** A cell never exceeds the longer of the two prefix lengths. */
  lemma {:induction false} CellAtMostLonger(str1: string, str2: string, i: nat, j: nat)
    requires i <= |str2| && j <= |str1|
    ensures Cell(str1, str2, i, j) <= Max(i, j)
    decreases i + j
  {
    if i > 0 && j > 0 {
      CellAtMostLonger(str1, str2, i - 1, j - 1);
    }
  }

  lemma DistanceAtMostLonger(str1: string, str2: string)
    ensures Distance(str1, str2) <= Max(|str1|, |str2|)
  {
    CellAtMostLonger(str1, str2, |str2|, |str1|);
  }

  /** A cell is at least the difference of the two prefix lengths. */
  lemma {:induction false} CellAtLeastLengthGap(str1: string, str2: string, i: nat, j: nat)
    requires i <= |str2| && j <= |str1|
    ensures Cell(str1, str2, i, j) >= i - j && Cell(str1, str2, i, j) >= j - i
    decreases i + j
  {
    if i > 0 && j > 0 {
      CellAtLeastLengthGap(str1, str2, i - 1, j - 1);
      if str2[i - 1] != str1[j - 1] {
        CellAtLeastLengthGap(str1, str2, i, j - 1);
        CellAtLeastLengthGap(str1, str2, i - 1, j);
        var diagonal, left, up := Cell(str1, str2, i - 1, j - 1), Cell(str1, str2, i, j - 1), Cell(str1, str2, i - 1, j);
        assert Cell(str1, str2, i, j) == Min3(diagonal + 1, left + 1, up + 1);
      }
    }
  }

  /** Swapping the strings transposes the matrix. */
  lemma {:induction false} CellSymmetric(str1: string, str2: string, i: nat, j: nat)
    requires i <= |str2| && j <= |str1|
    ensures Cell(str1, str2, i, j) == Cell(str2, str1, j, i)
    decreases i + j
  {
    if i > 0 && j > 0 {
      CellSymmetric(str1, str2, i - 1, j - 1);
      CellSymmetric(str1, str2, i, j - 1);
      CellSymmetric(str1, str2, i - 1, j);
    }
  }

  /** The distance does not depend on the order of its arguments. */
  lemma DistanceSymmetric(str1: string, str2: string)
    ensures Distance(str1, str2) == Distance(str2, str1)
  {
    CellSymmetric(str1, str2, |str2|, |str1|);
  }

  /** Against the empty string the distance is the other string's length. */
  lemma DistanceToEmpty(s: string)
    ensures Distance(s, "") == |s| && Distance("", s) == |s|
  {
  }
}
