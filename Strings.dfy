/**
 * The .NET `string` operations the modelled code relies on, with ordinal (char by char)
 * comparison: `StartsWith`, `Contains`, `Replace`, `Trim(char)`, `TrimEnd(char)` and
 * `string.Join`.
 */
module Strings {

  predicate StartsWith(s: string, prefix: string) {
    |prefix| <= |s| && s[..|prefix|] == prefix
  }

  /** `sub` occurs in `s` at index `i`. */
  predicate OccursAt(s: string, sub: string, i: int) {
    0 <= i <= |s| - |sub| && s[i..i + |sub|] == sub
  }

  /** `s.Contains(sub)`, scanning from the left. */
  predicate Contains(s: string, sub: string)
    decreases |s|
  {
    StartsWith(s, sub) || (s != [] && Contains(s[1..], sub))
  }

  /** `Contains` holds exactly when `sub` occurs at some index of `s`. */
  lemma {:induction false} ContainsAt(s: string, sub: string)
    ensures Contains(s, sub) <==> exists i :: OccursAt(s, sub, i)
    decreases |s|
  {
    if StartsWith(s, sub) {
      assert OccursAt(s, sub, 0);
    } else if s == [] {
    } else {
      ContainsAt(s[1..], sub);
      if exists i :: OccursAt(s, sub, i) {
        var i :| OccursAt(s, sub, i);
        assert i != 0;
        assert OccursAt(s[1..], sub, i - 1) by {
          assert s[1..][i - 1..i - 1 + |sub|] == s[i..i + |sub|];
        }
      }
      if exists i :: OccursAt(s[1..], sub, i) {
        var i :| OccursAt(s[1..], sub, i);
        assert OccursAt(s, sub, i + 1) by {
          assert s[1..][i..i + |sub|] == s[i + 1..i + 1 + |sub|];
        }
      }
    }
  }

  /**
   * `s.Replace(oldValue, newValue)`: scans from the left and replaces every
   * non-overlapping occurrence; the scan resumes after each replaced occurrence.
   */
  function ReplaceAll(s: string, oldValue: string, newValue: string): string
    requires oldValue != []
    decreases |s|
  {
    if |s| < |oldValue| then s
    else if StartsWith(s, oldValue) then newValue + ReplaceAll(s[|oldValue|..], oldValue, newValue)
    else [s[0]] + ReplaceAll(s[1..], oldValue, newValue)
  }

  /** A string without an occurrence is returned unchanged. */
  lemma {:induction false} ReplaceAllAbsent(s: string, oldValue: string, newValue: string)
    requires oldValue != [] && !Contains(s, oldValue)
    ensures ReplaceAll(s, oldValue, newValue) == s
    decreases |s|
  {
    if |s| >= |oldValue| {
      ReplaceAllAbsent(s[1..], oldValue, newValue);
      assert [s[0]] + s[1..] == s;
    }
  }

  /** An occurrence at the front is replaced and the scan goes on after it. */
  lemma ReplaceAllFront(oldValue: string, rest: string, newValue: string)
    requires oldValue != []
    ensures ReplaceAll(oldValue + rest, oldValue, newValue) == newValue + ReplaceAll(rest, oldValue, newValue)
  {
    assert (oldValue + rest)[..|oldValue|] == oldValue;
    assert (oldValue + rest)[|oldValue|..] == rest;
  }

  /** A character that cannot start an occurrence is copied and the scan goes on after it. */
  lemma ReplaceAllSkip(c: char, rest: string, oldValue: string, newValue: string)
    requires oldValue != [] && oldValue[0] != c
    ensures ReplaceAll([c] + rest, oldValue, newValue) == [c] + ReplaceAll(rest, oldValue, newValue)
  {
    assert ([c] + rest)[1..] == rest;
  }

  /** A prefix none of whose characters can start an occurrence is copied as it is. */
  lemma {:induction false} ReplaceAllSkipAll(w: string, rest: string, oldValue: string, newValue: string)
    requires oldValue != [] && oldValue[0] !in w
    ensures ReplaceAll(w + rest, oldValue, newValue) == w + ReplaceAll(rest, oldValue, newValue)
    decreases |w|
  {
    if w != [] {
      assert w + rest == [w[0]] + (w[1..] + rest);
      assert w[0] in w;
      ReplaceAllSkip(w[0], w[1..] + rest, oldValue, newValue);
      assert oldValue[0] !in w[1..] by {
        assert forall k :: 0 <= k < |w[1..]| ==> w[1..][k] == w[k + 1];
      }
      ReplaceAllSkipAll(w[1..], rest, oldValue, newValue);
      assert [w[0]] + (w[1..] + ReplaceAll(rest, oldValue, newValue)) == w + ReplaceAll(rest, oldValue, newValue);
    } else {
      assert w + rest == rest;
    }
  }

  /** `s.TrimStart(c)` */
  function TrimStart(s: string, c: char): string
    decreases |s|
  {
    if s != [] && s[0] == c then TrimStart(s[1..], c) else s
  }

  /** `TrimStart` cuts a run of `c` off the front, and only that. */
  lemma {:induction false} TrimStartShape(s: string, c: char)
    ensures var r := TrimStart(s, c);
      && |r| <= |s| && r == s[|s| - |r|..]
      && (r == [] || r[0] != c)
      && (forall i :: 0 <= i < |s| - |r| ==> s[i] == c)
    decreases |s|
  {
    if s != [] && s[0] == c {
      TrimStartShape(s[1..], c);
    }
  }

  /** `s.TrimEnd(c)` */
  function TrimEnd(s: string, c: char): string
    decreases |s|
  {
    if s != [] && s[|s| - 1] == c then TrimEnd(s[..|s| - 1], c) else s
  }

  /** `TrimEnd` cuts a run of `c` off the back, and only that. */
  lemma {:induction false} TrimEndShape(s: string, c: char)
    ensures var r := TrimEnd(s, c);
      && |r| <= |s| && r == s[..|r|]
      && (r == [] || r[|r| - 1] != c)
      && (forall i :: |r| <= i < |s| ==> s[i] == c)
    decreases |s|
  {
    if s != [] && s[|s| - 1] == c {
      TrimEndShape(s[..|s| - 1], c);
    }
  }

  /** `r` is the slice of `s` at index `i` and everything of `s` around it is `c`. */
  predicate TrimmedAt(s: string, r: string, c: char, i: int) {
    && OccursAt(s, r, i)
    && (forall k :: 0 <= k < i ==> s[k] == c)
    && (forall k :: i + |r| <= k < |s| ==> s[k] == c)
  }

  /** Where `s.Trim(c)` starts in `s`: the number of leading `c`. */
  function TrimOffset(s: string, c: char): int {
    |s| - |TrimStart(s, c)|
  }

  /** `s.Trim(c)`: removes every leading and every trailing `c`. */
  function Trim(s: string, c: char): string {
    TrimEnd(TrimStart(s, c), c)
  }

  /** `Trim` leaves the slice between the leading and the trailing run of `c`. */
  lemma TrimShape(s: string, c: char)
    ensures var r := Trim(s, c);
      && (r == [] || (r[0] != c && r[|r| - 1] != c))
      && TrimmedAt(s, r, c, TrimOffset(s, c))
  {
    var front := TrimStart(s, c);
    var r := TrimEnd(front, c);
    TrimStartShape(s, c);
    TrimEndShape(front, c);
    var i := |s| - |front|;
    assert front == s[i..];
    assert r == s[i..i + |r|];
    assert forall k :: i + |r| <= k < |s| ==> s[k] == front[k - i];
  }

  /** `string.Join(separator, items)` */
  function Join(separator: string, items: seq<string>): string
    decreases |items|
  {
    if items == [] then ""
    else if |items| == 1 then items[0]
    else items[0] + separator + Join(separator, items[1..])
  }

  /** A character in neither the separator nor any item is not in the joined string. */
  lemma {:induction false} JoinAvoids(separator: string, items: seq<string>, c: char)
    requires c !in separator
    requires forall k :: 0 <= k < |items| ==> c !in items[k]
    ensures c !in Join(separator, items)
    decreases |items|
  {
    if |items| > 1 {
      JoinAvoids(separator, items[1..], c);
    }
  }

  /** The first index of `c` in `s`, or |s| when there is none. */
  function IndexOf(s: string, c: char): (i: nat)
    ensures i <= |s| && c !in s[..i]
    ensures i < |s| ==> s[i] == c
    decreases |s|
  {
    if s == [] then 0
    else if s[0] == c then 0
    else 1 + IndexOf(s[1..], c)
  }

  /** `s.Split(c)`: the pieces between occurrences of `c`; there is always at least one. */
  function Split(s: string, c: char): (pieces: seq<string>)
    ensures |pieces| >= 1
    decreases |s|
  {
    var i := IndexOf(s, c);
    if i == |s| then [s] else [s[..i]] + Split(s[i + 1..], c)
  }

  /**
   * Joining with a one-character separator loses nothing when no item contains it:
   * splitting on the separator gives the items back.
   */
  lemma {:induction false} SplitJoin(items: seq<string>, c: char)
    requires items != []
    requires forall k :: 0 <= k < |items| ==> c !in items[k]
    ensures Split(Join([c], items), c) == items
    decreases |items|
  {
    var x := items[0];
    if |items| == 1 {
      SplitNoSeparator(x, c);
    } else {
      var rest := Join([c], items[1..]);
      var s := x + [c] + rest;
      assert Join([c], items) == s;
      FirstSeparator(x, c, rest);
      assert s[..|x|] == x && s[|x| + 1..] == rest;
      SplitJoin(items[1..], c);
      assert items == [x] + items[1..];
    }
  }

  lemma SplitNoSeparator(s: string, c: char)
    requires c !in s
    ensures Split(s, c) == [s]
  {
  }

  lemma {:induction false} FirstSeparator(x: string, c: char, rest: string)
    requires c !in x
    ensures IndexOf(x + [c] + rest, c) == |x|
    decreases |x|
  {
    if x != [] {
      assert (x + [c] + rest)[1..] == x[1..] + [c] + rest;
      assert x[0] in x;
      FirstSeparator(x[1..], c, rest);
    }
  }
}
