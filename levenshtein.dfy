/** levenshteinDistance: the classic dynamic-programming matrix fill,
    proved equal to the recursive edit distance. */
module Levenshtein {

  function Min3(x: nat, y: nat, z: nat): (m: nat)
    ensures m <= x && m <= y && m <= z
    ensures m == x || m == y || m == z
  {
    if x <= y && x <= z then x else if y <= z then y else z
  }

  /** The edit distance between a[..i] and b[..j], by the recurrence the
      matrix follows: a matching pair of last characters costs nothing,
      otherwise one substitution, insertion or deletion is paid. */
  function Dist(a: string, b: string, i: nat, j: nat): nat
    requires i <= |a| && j <= |b|
    decreases i + j
  {
    if i == 0 then j
    else if j == 0 then i
    else if a[i - 1] == b[j - 1] then Dist(a, b, i - 1, j - 1)
    else 1 + Min3(Dist(a, b, i - 1, j - 1), Dist(a, b, i, j - 1), Dist(a, b, i - 1, j))
  }

  function Distance(a: string, b: string): nat {
    Dist(a, b, |a|, |b|)
  }

  /** levenshteinDistance(str1, str2): rows of the matrix follow str2,
      columns follow str1, and the answer is the bottom-right cell. */
  method LevenshteinDistance(str1: string, str2: string) returns (d: nat)
    ensures d == Distance(str1, str2)
  {
    var matrix := new nat[|str2| + 1, |str1| + 1];
    for i := 0 to |str2| + 1
      invariant forall ii :: 0 <= ii < i ==> matrix[ii, 0] == ii
    {
      matrix[i, 0] := i;
    }
    for j := 0 to |str1| + 1
      invariant forall jj :: 0 <= jj < j ==> matrix[0, jj] == jj
      invariant forall ii :: 1 <= ii <= |str2| ==> matrix[ii, 0] == ii
    {
      matrix[0, j] := j;
    }
    for i := 1 to |str2| + 1
      invariant forall ii, jj {:trigger matrix[ii, jj]} :: 0 <= ii < i && 0 <= jj <= |str1| ==> matrix[ii, jj] == Dist(str2, str1, ii, jj)
      invariant forall ii :: i <= ii <= |str2| ==> matrix[ii, 0] == ii
    {
      FillRow(matrix, str1, str2, i);
    }
    d := matrix[|str2|, |str1|];
    DistSymmetric(str2, str1, |str2|, |str1|);
  }

  /** One pass of the inner loop: row i is filled from row i - 1 and from
      the cells to its left. */
  method FillRow(matrix: array2<nat>, str1: string, str2: string, i: nat)
    requires matrix.Length0 == |str2| + 1 && matrix.Length1 == |str1| + 1
    requires 1 <= i <= |str2|
    requires forall ii, jj {:trigger matrix[ii, jj]} :: 0 <= ii < i && 0 <= jj <= |str1| ==> matrix[ii, jj] == Dist(str2, str1, ii, jj)
    requires matrix[i, 0] == i
    modifies matrix
    ensures forall ii, jj {:trigger matrix[ii, jj]} :: 0 <= ii <= i && 0 <= jj <= |str1| ==> matrix[ii, jj] == Dist(str2, str1, ii, jj)
    ensures forall ii, jj :: i < ii <= |str2| && 0 <= jj <= |str1| ==> matrix[ii, jj] == old(matrix[ii, jj])
  {
    for j := 1 to |str1| + 1
      invariant forall ii, jj {:trigger matrix[ii, jj]} :: 0 <= ii < i && 0 <= jj <= |str1| ==> matrix[ii, jj] == Dist(str2, str1, ii, jj)
      invariant forall jj {:trigger matrix[i, jj]} :: 0 <= jj < j ==> matrix[i, jj] == Dist(str2, str1, i, jj)
      invariant forall ii, jj :: i < ii <= |str2| && 0 <= jj <= |str1| ==> matrix[ii, jj] == old(matrix[ii, jj])
    {
      var diagonal, left, up := matrix[i - 1, j - 1], matrix[i, j - 1], matrix[i - 1, j];
      assert diagonal == Dist(str2, str1, i - 1, j - 1);
      assert left == Dist(str2, str1, i, j - 1);
      assert up == Dist(str2, str1, i - 1, j);
      var cell: nat;
      if str2[i - 1] == str1[j - 1] {
        cell := diagonal;
      } else {
        cell := Min3(diagonal + 1, left + 1, up + 1);
      }
      CellRecurrence(str2, str1, i, j, diagonal, left, up, cell);
      matrix[i, j] := cell;
    }
  }

  /** A cell computed from its three neighbours holds the distance. */
  lemma CellRecurrence(a: string, b: string, i: nat, j: nat, diagonal: nat, left: nat, up: nat, cell: nat)
    requires 1 <= i <= |a| && 1 <= j <= |b|
    requires diagonal == Dist(a, b, i - 1, j - 1) && left == Dist(a, b, i, j - 1) && up == Dist(a, b, i - 1, j)
    requires cell == if a[i - 1] == b[j - 1] then diagonal else Min3(diagonal + 1, left + 1, up + 1)
    ensures cell == Dist(a, b, i, j)
  {
  }

  /** The distance does not depend on which string is the row. */
  lemma {:induction false} DistSymmetric(a: string, b: string, i: nat, j: nat)
    requires i <= |a| && j <= |b|
    ensures Dist(a, b, i, j) == Dist(b, a, j, i)
    decreases i + j
  {
    if i > 0 && j > 0 {
      DistSymmetric(a, b, i - 1, j - 1);
      DistSymmetric(a, b, i, j - 1);
      DistSymmetric(a, b, i - 1, j);
    }
  }

  /** The distance to the empty string is the other string's length. */
  lemma DistanceToEmpty(s: string)
    ensures Distance(s, "") == |s| && Distance("", s) == |s|
  {
  }

  lemma {:induction false} DistSame(a: string, i: nat)
    requires i <= |a|
    ensures Dist(a, a, i, i) == 0
  {
    if i > 0 {
      DistSame(a, i - 1);
    }
  }

  /** A string is at distance 0 from itself. */
  lemma DistanceSelf(s: string)
    ensures Distance(s, s) == 0
  {
    DistSame(s, |s|);
  }

  /** The distance is at least the difference of the lengths. */
  lemma {:induction false} DistLowerBound(a: string, b: string, i: nat, j: nat)
    requires i <= |a| && j <= |b|
    ensures i <= j + Dist(a, b, i, j) && j <= i + Dist(a, b, i, j)
    decreases i + j
  {
    if i > 0 && j > 0 {
      DistLowerBound(a, b, i - 1, j - 1);
      DistLowerBound(a, b, i, j - 1);
      DistLowerBound(a, b, i - 1, j);
    }
  }

  /** The distance is at most the larger length. */
  lemma {:induction false} DistUpperBound(a: string, b: string, i: nat, j: nat)
    requires i <= |a| && j <= |b|
    ensures Dist(a, b, i, j) <= i || Dist(a, b, i, j) <= j
    ensures Dist(a, b, i, j) <= i + j
    ensures i <= j ==> Dist(a, b, i, j) <= j
    ensures j <= i ==> Dist(a, b, i, j) <= i
    decreases i + j
  {
    if i > 0 && j > 0 {
      DistUpperBound(a, b, i - 1, j - 1);
    }
  }

  lemma {:induction false} DistZero(a: string, b: string, i: nat, j: nat)
    requires i <= |a| && j <= |b|
    requires Dist(a, b, i, j) == 0
    ensures i == j && a[..i] == b[..j]
    decreases i + j
  {
    if i > 0 && j > 0 {
      if a[i - 1] == b[j - 1] {
        DistZero(a, b, i - 1, j - 1);
        assert a[..i] == a[..i - 1] + [a[i - 1]];
        assert b[..j] == b[..j - 1] + [b[j - 1]];
      }
    }
  }

  /** Distance 0 means the strings are equal, and only then. */
  lemma DistanceZeroIffEqual(a: string, b: string)
    ensures Distance(a, b) == 0 <==> a == b
  {
    if Distance(a, b) == 0 {
      DistZero(a, b, |a|, |b|);
      assert a == a[..|a|] && b == b[..|b|];
    }
    if a == b {
      DistanceSelf(a);
    }
  }

  /** Bounds on the distance in terms of the lengths. */
  lemma DistanceBounds(a: string, b: string)
    ensures (if |a| >= |b| then |a| - |b| else |b| - |a|) <= Distance(a, b)
    ensures Distance(a, b) <= (if |a| >= |b| then |a| else |b|)
  {
    DistLowerBound(a, b, |a|, |b|);
    DistUpperBound(a, b, |a|, |b|);
  }
}
