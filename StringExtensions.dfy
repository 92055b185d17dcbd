/**
 * `StringExtensions.Similarity`: the edit-distance similarity of two strings,
 * `(max(m, n) - d) / max(m, n)` where `d` is the unit-cost insert/delete/substitute
 * distance filled into an (m+1) x (n+1) table. The `double` result is modelled as a `real`.
 */
module StringExtensions {
  import opened Wrappers

  /** `string.IsNullOrEmpty` */
  predicate IsNullOrEmpty(s: Option<string>) {
    s.None? || s.value == []
  }

  /** Lower-casing of one character, for the ASCII letters. */
  function ToLowerChar(c: char): char {
    if 'A' <= c <= 'Z' then (c as int + 32) as char else c
  }

  /** `s.ToLower()`, character by character. */
  function ToLower(s: string): (r: string)
    ensures |r| == |s|
    ensures forall i :: 0 <= i < |s| ==> r[i] == ToLowerChar(s[i])
  {
    seq(|s|, i requires 0 <= i < |s| => ToLowerChar(s[i]))
  }

  function Min(a: int, b: int): int { if a <= b then a else b }
  function Max(a: int, b: int): int { if a >= b then a else b }

  /**
   * The cell `dp[i, j]` as the source fills it: the borders are `i` and `j`; an inner cell
   * copies its diagonal neighbour when the characters agree and is otherwise one more than
   * the least of its three neighbours.
   */
  function Table(s1: string, s2: string, i: nat, j: nat): int
    requires i <= |s1| && j <= |s2|
    decreases i + j
  {
    if i == 0 then j
    else if j == 0 then i
    else if s1[i - 1] == s2[j - 1] then Table(s1, s2, i - 1, j - 1)
    else Min(Table(s1, s2, i - 1, j - 1), Min(Table(s1, s2, i - 1, j), Table(s1, s2, i, j - 1))) + 1
  }

  /**
   * The textbook Levenshtein distance of the prefixes `s1[..i]` and `s2[..j]`: the cheapest
   * of deleting the last character of `s1[..i]`, inserting the last of `s2[..j]`, or
   * matching the two last characters at cost 0 when they agree and 1 when they do not.
   */
  function Lev(s1: string, s2: string, i: nat, j: nat): nat
    requires i <= |s1| && j <= |s2|
    decreases i + j
  {
    if i == 0 then j
    else if j == 0 then i
    else
      var cost := if s1[i - 1] == s2[j - 1] then 0 else 1;
      Min(Lev(s1, s2, i - 1, j) + 1, Min(Lev(s1, s2, i, j - 1) + 1, Lev(s1, s2, i - 1, j - 1) + cost))
  }

  function Distance(s1: string, s2: string): nat {
    Lev(s1, s2, |s1|, |s2|)
  }

  /** Dropping the last character of the second prefix changes the distance by at most one. */
  lemma {:induction false} LevDropSecond(s1: string, s2: string, i: nat, j: nat)
    requires i <= |s1| && 1 <= j <= |s2|
    ensures Lev(s1, s2, i, j - 1) <= Lev(s1, s2, i, j) + 1
    decreases i + j
  {
    if i > 0 {
      LevDropSecond(s1, s2, i - 1, j);
    }
  }

  /** Dropping the last character of the first prefix changes the distance by at most one. */
  lemma {:induction false} LevDropFirst(s1: string, s2: string, i: nat, j: nat)
    requires 1 <= i <= |s1| && j <= |s2|
    ensures Lev(s1, s2, i - 1, j) <= Lev(s1, s2, i, j) + 1
    decreases i + j
  {
    if j > 0 {
      LevDropFirst(s1, s2, i, j - 1);
    }
  }

  /**
   * The source's table is the Levenshtein distance: copying the diagonal on equal
   * characters loses nothing, because the diagonal is never more than one above the
   * other two neighbours.
   */
  lemma {:induction false} TableIsLev(s1: string, s2: string, i: nat, j: nat)
    requires i <= |s1| && j <= |s2|
    ensures Table(s1, s2, i, j) == Lev(s1, s2, i, j)
    decreases i + j
  {
    if i > 0 && j > 0 {
      TableIsLev(s1, s2, i - 1, j - 1);
      TableIsLev(s1, s2, i - 1, j);
      TableIsLev(s1, s2, i, j - 1);
      if s1[i - 1] == s2[j - 1] {
        LevDropSecond(s1, s2, i - 1, j);
        LevDropFirst(s1, s2, i, j - 1);
      }
    }
  }

  /** `d` lies between the difference of `i` and `j` and the larger of the two. */
  predicate Within(d: int, i: int, j: int) {
    i - j <= d && j - i <= d && d <= Max(i, j)
  }

  /** The distance lies between the difference and the larger of the two lengths. */
  lemma {:induction false} LevBounds(s1: string, s2: string, i: nat, j: nat)
    requires i <= |s1| && j <= |s2|
    ensures Within(Lev(s1, s2, i, j), i, j)
    decreases i + j
  {
    if i > 0 && j > 0 {
      LevBounds(s1, s2, i - 1, j);
      LevBounds(s1, s2, i, j - 1);
      LevBounds(s1, s2, i - 1, j - 1);
      LevBoundsStep(s1, s2, i, j);
    }
  }

  /** The inductive step of `LevBounds`: the bounds of the three neighbours give those of the cell. */
  lemma LevBoundsStep(s1: string, s2: string, i: nat, j: nat)
    requires 1 <= i <= |s1| && 1 <= j <= |s2|
    requires Within(Lev(s1, s2, i - 1, j), i - 1, j)
    requires Within(Lev(s1, s2, i, j - 1), i, j - 1)
    requires Within(Lev(s1, s2, i - 1, j - 1), i - 1, j - 1)
    ensures Within(Lev(s1, s2, i, j), i, j)
  {
    var cost := if s1[i - 1] == s2[j - 1] then 0 else 1;
    MinBounds(i, j, Lev(s1, s2, i - 1, j), Lev(s1, s2, i, j - 1), Lev(s1, s2, i - 1, j - 1), cost);
  }

  /** The arithmetic of `LevBoundsStep`, on the three neighbours' values. */
  lemma MinBounds(i: int, j: int, a: int, b: int, c: int, cost: int)
    requires 0 <= cost <= 1
    requires Within(a, i - 1, j) && Within(b, i, j - 1) && Within(c, i - 1, j - 1)
    ensures Within(Min(a + 1, Min(b + 1, c + cost)), i, j)
  {
  }

  /** A string is at distance 0 from itself. */
  lemma {:induction false} LevSame(s: string, i: nat)
    requires i <= |s|
    ensures Lev(s, s, i, i) == 0
  {
    if i > 0 {
      LevSame(s, i - 1);
    }
  }

  /** The distance does not depend on the order of the two strings. */
  lemma {:induction false} LevSymmetric(s1: string, s2: string, i: nat, j: nat)
    requires i <= |s1| && j <= |s2|
    ensures Lev(s1, s2, i, j) == Lev(s2, s1, j, i)
    decreases i + j
  {
    if i > 0 && j > 0 {
      LevSymmetric(s1, s2, i - 1, j);
      LevSymmetric(s1, s2, i, j - 1);
      LevSymmetric(s1, s2, i - 1, j - 1);
      LevSymmetricStep(s1, s2, i, j);
    }
  }

  /** The inductive step of `LevSymmetric`: the two recurrences take the same three options. */
  lemma LevSymmetricStep(s1: string, s2: string, i: nat, j: nat)
    requires 1 <= i <= |s1| && 1 <= j <= |s2|
    requires Lev(s1, s2, i - 1, j) == Lev(s2, s1, j, i - 1)
    requires Lev(s1, s2, i, j - 1) == Lev(s2, s1, j - 1, i)
    requires Lev(s1, s2, i - 1, j - 1) == Lev(s2, s1, j - 1, i - 1)
    ensures Lev(s1, s2, i, j) == Lev(s2, s1, j, i)
  {
    var a, b, c := Lev(s1, s2, i - 1, j), Lev(s1, s2, i, j - 1), Lev(s1, s2, i - 1, j - 1);
    var cost := if s1[i - 1] == s2[j - 1] then 0 else 1;
    MinSwap(a + 1, b + 1, c + cost);
  }

  lemma MinSwap(a: int, b: int, c: int)
    ensures Min(a, Min(b, c)) == Min(b, Min(a, c))
  {
  }

  /** The strings the table is computed on: lower-cased first under `ignoreCase`. */
  function Prepare(s: string, ignoreCase: bool): (r: string)
    ensures |r| == |s|
  {
    if ignoreCase then ToLower(s) else s
  }

  /** The value `Similarity` returns, stated with the Levenshtein distance. */
  function SimilarityOf(str1: Option<string>, str2: Option<string>, ignoreCase: bool): real {
    if IsNullOrEmpty(str1) then (if IsNullOrEmpty(str2) then 1.0 else 0.0)
    else if IsNullOrEmpty(str2) then 0.0
    else
      var s1, s2 := Prepare(str1.value, ignoreCase), Prepare(str2.value, ignoreCase);
      var ml := Max(|s1|, |s2|);
      (ml - Distance(s1, s2)) as real / ml as real
  }

  /** The similarity is a ratio in [0, 1]. */
  lemma SimilarityInUnitRange(str1: Option<string>, str2: Option<string>, ignoreCase: bool)
    ensures 0.0 <= SimilarityOf(str1, str2, ignoreCase) <= 1.0
  {
    if !IsNullOrEmpty(str1) && !IsNullOrEmpty(str2) {
      var s1, s2 := Prepare(str1.value, ignoreCase), Prepare(str2.value, ignoreCase);
      LevBounds(s1, s2, |s1|, |s2|);
      var ml := Max(|s1|, |s2|);
      var d := Distance(s1, s2);
      assert 0 <= ml - d <= ml && ml > 0;
      RatioInUnitRange(ml - d, ml);
    }
  }

  lemma RatioInUnitRange(a: int, b: int)
    requires 0 <= a <= b && b > 0
    ensures 0.0 <= a as real / b as real <= 1.0
  {
  }

  /** Two null-or-empty strings are alike; a null-or-empty string is unlike every other. */
  lemma SimilarityOfEmpty(str1: Option<string>, str2: Option<string>, ignoreCase: bool)
    ensures IsNullOrEmpty(str1) && IsNullOrEmpty(str2) ==> SimilarityOf(str1, str2, ignoreCase) == 1.0
    ensures IsNullOrEmpty(str1) != IsNullOrEmpty(str2) ==> SimilarityOf(str1, str2, ignoreCase) == 0.0
  {
  }

  /** A non-empty string is fully similar to itself. */
  lemma SimilarityOfSame(s: string, ignoreCase: bool)
    requires s != []
    ensures SimilarityOf(Some(s), Some(s), ignoreCase) == 1.0
  {
    var p := Prepare(s, ignoreCase);
    LevSame(p, |p|);
    assert Distance(p, p) == 0;
    var ml := Max(|p|, |p|);
    assert ml == |p| > 0;
    assert SimilarityOf(Some(s), Some(s), ignoreCase) == ml as real / ml as real;
  }

  /** Similarity is symmetric. */
  lemma SimilaritySymmetric(str1: Option<string>, str2: Option<string>, ignoreCase: bool)
    ensures SimilarityOf(str1, str2, ignoreCase) == SimilarityOf(str2, str1, ignoreCase)
  {
    if !IsNullOrEmpty(str1) && !IsNullOrEmpty(str2) {
      var s1, s2 := Prepare(str1.value, ignoreCase), Prepare(str2.value, ignoreCase);
      LevSymmetric(s1, s2, |s1|, |s2|);
    }
  }

  /** Ignoring case is comparing the lower-cased strings with case. */
  lemma SimilarityIgnoreCase(s1: string, s2: string)
    ensures SimilarityOf(Some(s1), Some(s2), true) == SimilarityOf(Some(ToLower(s1)), Some(ToLower(s2)), false)
  {
  }

  /** `Similarity(str1, str2, ignoreCase)` */
  method Similarity(str1: Option<string>, str2: Option<string>, ignoreCase: bool) returns (similarity: real)
    ensures similarity == SimilarityOf(str1, str2, ignoreCase)
  {
    if IsNullOrEmpty(str1) {
      if IsNullOrEmpty(str2) {
        return 1.0;
      } else {
        return 0.0;
      }
    } else if IsNullOrEmpty(str2) {
      return 0.0;
    }

    var s1, s2;
    if ignoreCase {
      s1 := ToLower(str1.value);
      s2 := ToLower(str2.value);
    } else {
      s1 := str1.value;
      s2 := str2.value;
    }

    var distance := EditDistance(s1, s2);
    var ml := Max(|s1|, |s2|);
    similarity := (ml - distance) as real / ml as real;
  }

  /** The table-filling part of `Similarity`: the bottom-right cell of the table. */
  method EditDistance(s1: string, s2: string) returns (distance: int)
    ensures distance == Distance(s1, s2)
  {
    var m := |s1|;
    var n := |s2|;
    var dp := new int[m + 1, n + 1];
    for i := 0 to m + 1
      invariant forall a :: 0 <= a < i ==> dp[a, 0] == a
    {
      dp[i, 0] := i;
    }
    for j := 1 to n + 1
      invariant forall a :: 0 <= a <= m ==> dp[a, 0] == a
      invariant forall b :: 1 <= b < j ==> dp[0, b] == b
    {
      dp[0, j] := j;
    }
    assert forall b :: 0 <= b <= n ==> dp[0, b] == Table(s1, s2, 0, b);

    for i := 1 to m + 1
      invariant forall a, b :: 0 <= a < i && 0 <= b <= n ==> dp[a, b] == Table(s1, s2, a, b)
      invariant forall a :: i <= a <= m ==> dp[a, 0] == a
    {
      assert RowMatches(dp, s1, s2, i - 1, n + 1);
      FillRow(dp, s1, s2, i);
    }

    TableIsLev(s1, s2, m, n);
    distance := dp[m, n];
  }

  /** Row `r` of `dp` agrees with the table in its first `upto` cells. */
  predicate RowMatches(dp: array2<int>, s1: string, s2: string, r: nat, upto: nat)
    reads dp
  {
    && dp.Length0 == |s1| + 1 && dp.Length1 == |s2| + 1 && r <= |s1| && upto <= |s2| + 1
    && forall b :: 0 <= b < upto ==> dp[r, b] == Table(s1, s2, r, b)
  }

  /** One pass of the outer loop of `Similarity`: row `i` of the table from row `i - 1`. */
  method FillRow(dp: array2<int>, s1: string, s2: string, i: nat)
    requires 1 <= i && RowMatches(dp, s1, s2, i - 1, |s2| + 1) && RowMatches(dp, s1, s2, i, 1)
    modifies dp
    ensures RowMatches(dp, s1, s2, i, |s2| + 1)
    ensures forall a, b :: 0 <= a < dp.Length0 && 0 <= b < dp.Length1 && a != i ==> dp[a, b] == old(dp[a, b])
  {
    var n := |s2|;
    var si := s1[i - 1];
    for j := 1 to n + 1
      invariant RowMatches(dp, s1, s2, i, j)
      invariant forall a, b :: 0 <= a < dp.Length0 && 0 <= b < dp.Length1 && a != i ==> dp[a, b] == old(dp[a, b])
    {
      var diagonal, above, left := dp[i - 1, j - 1], dp[i - 1, j], dp[i, j - 1];
      assert diagonal == Table(s1, s2, i - 1, j - 1) && above == Table(s1, s2, i - 1, j);
      assert left == Table(s1, s2, i, j - 1);
      if si == s2[j - 1] {
        dp[i, j] := diagonal;
      } else {
        dp[i, j] := Min(diagonal, Min(above, left)) + 1;
      }
    }
  }
}
