/** Levenshtein distance as computed by `levenshteinDistance`: a recursive
    definition over prefixes, the dynamic-programming method that fills the
    table in place, and the properties of the distance the matcher relies on. */
module EditDistance {

  /** The smallest of three values, as `Math.min` with three arguments. */
  function Min3(x: int, y: int, z: int): (r: int)
    ensures r <= x && r <= y && r <= z
    ensures r == x || r == y || r == z
  {
    if x <= y && x <= z then x else if y <= z then y else z
  }

  function Max(x: int, y: int): (r: int)
    ensures r >= x && r >= y
    ensures r == x || r == y
  {
    if x >= y then x else y
  }

  /** 0 when the last characters of the two non-empty strings agree, 1 otherwise. */
  function Indicator(a: seq<char>, b: seq<char>): nat
    requires |a| > 0 && |b| > 0
  {
    if a[|a| - 1] == b[|b| - 1] then 0 else 1
  }

  /** The Levenshtein distance of `a` and `b`, by recursion on their prefixes:
      the table cell `matrix[j][i]` holds `Distance(a[..i], b[..j])`. */
  function Distance(a: seq<char>, b: seq<char>): nat
    decreases |a| + |b|
  {
    if |a| == 0 then |b|
    else if |b| == 0 then |a|
    else
      Min3(Distance(a[..|a| - 1], b) + 1,
           Distance(a, b[..|b| - 1]) + 1,
           Distance(a[..|a| - 1], b[..|b| - 1]) + Indicator(a, b))
  }

  /** The dynamic-programming computation: a `(|b|+1) x (|a|+1)` table whose
      row 0 and column 0 are initialised first, then filled row by row. */
  method LevenshteinDistance(a: seq<char>, b: seq<char>) returns (d: int)
    ensures d == Distance(a, b)
  {
    var matrix := new int[|b| + 1, |a| + 1];

    for i := 0 to |a| + 1
      invariant forall k :: 0 <= k < i ==> matrix[0, k] == k
    {
      matrix[0, i] := i;
    }
    for j := 0 to |b| + 1
      invariant forall k :: 0 <= k <= |a| ==> matrix[0, k] == k
      invariant forall k :: 0 <= k < j ==> matrix[k, 0] == k
    {
      matrix[j, 0] := j;
    }

    for j := 1 to |b| + 1
      invariant forall jj, ii :: 0 <= jj < j && 0 <= ii <= |a| ==>
                  matrix[jj, ii] == Distance(a[..ii], b[..jj])
      invariant forall jj :: j <= jj <= |b| ==> matrix[jj, 0] == jj
    {
      FillRow(matrix, a, b, j);
    }

    d := matrix[|b|, |a|];
    assert a[..|a|] == a && b[..|b|] == b;
  }

  /** One pass of the inner loop: fills row `j` from row `j - 1`, cell by cell
      from left to right, leaving every other row as it was. */
  method FillRow(matrix: array2<int>, a: seq<char>, b: seq<char>, j: nat)
    requires matrix.Length0 == |b| + 1 && matrix.Length1 == |a| + 1
    requires 0 < j <= |b|
    requires forall ii :: 0 <= ii <= |a| ==> matrix[j - 1, ii] == Distance(a[..ii], b[..j - 1])
    requires matrix[j, 0] == j
    modifies matrix
    ensures forall ii :: 0 <= ii <= |a| ==> matrix[j, ii] == Distance(a[..ii], b[..j])
    ensures forall jj, ii :: 0 <= jj < matrix.Length0 && jj != j && 0 <= ii < matrix.Length1 ==>
              matrix[jj, ii] == old(matrix[jj, ii])
  {
    DistanceOfPrefixes(a, b, 0, j);
    for i := 1 to |a| + 1
      invariant forall ii :: 0 <= ii < i ==> matrix[j, ii] == Distance(a[..ii], b[..j])
      invariant forall jj, ii :: 0 <= jj < matrix.Length0 && jj != j && 0 <= ii < matrix.Length1 ==>
                  matrix[jj, ii] == old(matrix[jj, ii])
    {
      var indicator := if a[i - 1] == b[j - 1] then 0 else 1;
      var left, up, diagonal := matrix[j, i - 1], matrix[j - 1, i], matrix[j - 1, i - 1];
      assert left == Distance(a[..i - 1], b[..j]);
      assert up == Distance(a[..i], b[..j - 1]) && diagonal == Distance(a[..i - 1], b[..j - 1]);
      DistanceOfPrefixes(a, b, i, j);
      var cell := Min3(left + 1, up + 1, diagonal + indicator);
      assert cell == Distance(a[..i], b[..j]);
      matrix[j, i] := cell;
    }
  }

  /** The recurrence one table cell obeys, stated on prefixes of `a` and `b`. */
  lemma DistanceOfPrefixes(a: seq<char>, b: seq<char>, i: nat, j: nat)
    requires i <= |a| && 0 < j <= |b|
    ensures i == 0 ==> Distance(a[..i], b[..j]) == j
    ensures i > 0 ==>
      Distance(a[..i], b[..j]) ==
      Min3(Distance(a[..i - 1], b[..j]) + 1,
           Distance(a[..i], b[..j - 1]) + 1,
           Distance(a[..i - 1], b[..j - 1]) + (if a[i - 1] == b[j - 1] then 0 else 1))
  {
    if i > 0 {
      assert a[..i][..i - 1] == a[..i - 1];
      assert b[..j][..j - 1] == b[..j - 1];
    }
  }

  /** A string is at distance 0 from itself. */
  lemma {:induction false} DistanceToSelf(a: seq<char>)
    ensures Distance(a, a) == 0
  {
    if |a| > 0 {
      DistanceToSelf(a[..|a| - 1]);
    }
  }

  /** The distance is 0 exactly when the strings are equal. */
  lemma {:induction false} DistanceZeroIff(a: seq<char>, b: seq<char>)
    ensures Distance(a, b) == 0 <==> a == b
    decreases |a| + |b|
  {
    if a == b {
      DistanceToSelf(a);
    } else if |a| > 0 && |b| > 0 {
      var a', b' := a[..|a| - 1], b[..|b| - 1];
      DistanceZeroIff(a', b');
      assert a == a' + [a[|a| - 1]] && b == b' + [b[|b| - 1]];
    }
  }

  /** The distance is symmetric in its arguments. */
  lemma {:induction false} DistanceSymmetric(a: seq<char>, b: seq<char>)
    ensures Distance(a, b) == Distance(b, a)
    decreases |a| + |b|
  {
    if |a| > 0 && |b| > 0 {
      var a', b' := a[..|a| - 1], b[..|b| - 1];
      DistanceSymmetric(a', b);
      DistanceSymmetric(a, b');
      DistanceSymmetric(a', b');
    }
  }

  /** The distance lies between the difference of the lengths and the larger
      length; in particular it is `|b|` from the empty string and `|a|` to it. */
  lemma {:induction false} DistanceBounds(a: seq<char>, b: seq<char>)
    ensures |a| - |b| <= Distance(a, b) && |b| - |a| <= Distance(a, b)
    ensures Distance(a, b) <= Max(|a|, |b|)
    ensures a == [] ==> Distance(a, b) == |b|
    ensures b == [] ==> Distance(a, b) == |a|
    decreases |a| + |b|
  {
    if |a| > 0 && |b| > 0 {
      var a', b' := a[..|a| - 1], b[..|b| - 1];
      DistanceBounds(a', b);
      DistanceBounds(a, b');
      DistanceBounds(a', b');
    }
  }
}
