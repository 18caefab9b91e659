/**
 * Levenshtein (edit) distance: the least number of single-character
 * insertions, deletions and substitutions, each of cost one, that turn one
 * string into another. The scoring code takes it from an external library;
 * `Dist` is its meaning and `EditDistance` a dynamic-programming
 * computation proved to agree with it.
 */
module Levenshtein {

  function Min3(x: nat, y: nat, z: nat): nat {
    if x <= y && x <= z then x else if y <= z then y else z
  }

  /** Edit distance, by recursion on the last characters of both strings. */
  function Dist(a: string, b: string): nat
    decreases |a| + |b|
  {
    if |a| == 0 then |b|
    else if |b| == 0 then |a|
    else
      var a', b' := a[..|a| - 1], b[..|b| - 1];
      Min3(Dist(a', b) + 1,
           Dist(a, b') + 1,
           Dist(a', b') + (if a[|a| - 1] == b[|b| - 1] then 0 else 1))
  }

  /** The distance is zero exactly when the strings are equal. */
  lemma {:induction false} DistZeroIff(a: string, b: string)
    ensures Dist(a, b) == 0 <==> a == b
    decreases |a| + |b|
  {
    if |a| > 0 && |b| > 0 {
      var a', b' := a[..|a| - 1], b[..|b| - 1];
      DistZeroIff(a', b');
      if a == b {
        assert a' == b';
      }
      if Dist(a, b) == 0 {
        assert a == a' + [a[|a| - 1]];
        assert b == b' + [b[|b| - 1]];
      }
    }
  }

  /** The distance is at least the difference of the lengths. */
  lemma {:induction false} DistLengthGap(a: string, b: string)
    ensures Dist(a, b) >= |a| - |b| && Dist(a, b) >= |b| - |a|
    decreases |a| + |b|
  {
    if |a| > 0 && |b| > 0 {
      var a', b' := a[..|a| - 1], b[..|b| - 1];
      DistLengthGap(a', b);
      DistLengthGap(a, b');
      DistLengthGap(a', b');
    }
  }

  /** The distance is at most the length of the longer string. */
  lemma {:induction false} DistAtMostLonger(a: string, b: string)
    ensures Dist(a, b) <= if |a| <= |b| then |b| else |a|
    decreases |a| + |b|
  {
    if |a| > 0 && |b| > 0 {
      DistAtMostLonger(a[..|a| - 1], b[..|b| - 1]);
    }
  }

  /** Appending `q` to the first string costs at most one deletion per character. */
  lemma {:induction false} DistAppendLeft(a: string, q: string, b: string)
    ensures Dist(a + q, b) <= Dist(a, b) + |q|
    decreases |q|
  {
    if |q| == 0 {
      assert a + q == a;
    } else if |b| > 0 {
      var q' := q[..|q| - 1];
      assert (a + q)[..|a + q| - 1] == a + q';
      DistAppendLeft(a, q', b);
    }
  }

  /** A common suffix never increases the distance. */
  lemma {:induction false} DistCommonSuffix(x: string, y: string, s: string)
    ensures Dist(x + s, y + s) <= Dist(x, y)
    decreases |s|
  {
    if |s| == 0 {
      assert x + s == x && y + s == y;
    } else {
      var s' := s[..|s| - 1];
      assert (x + s)[..|x + s| - 1] == x + s';
      assert (y + s)[..|y + s| - 1] == y + s';
      DistCommonSuffix(x, y, s');
    }
  }

  /**
   * A string and a contiguous slice of it are exactly as far apart as the
   * number of characters cut off around the slice.
   */
  lemma DistToSlice(a: string, i: nat, j: nat)
    requires i <= j <= |a|
    ensures Dist(a, a[i..j]) == |a| - (j - i)
  {
    var p, m, q := a[..i], a[i..j], a[j..];
    var pm, e: string := p + m, [];
    assert a == pm + q;
    assert e + m == m;
    DistLengthGap(a, m);
    DistAppendLeft(pm, q, m);
    DistCommonSuffix(p, e, m);
    assert Dist(p, e) == |p|;
  }

  /** One cell of the distance table, in terms of its three neighbours. */
  lemma DistCell(a: string, b: string, i: nat, j: nat)
    requires i < |a| && 0 < j <= |b|
    ensures Dist(a[..i + 1], b[..j]) ==
      Min3(Dist(a[..i], b[..j]) + 1,
           Dist(a[..i + 1], b[..j - 1]) + 1,
           Dist(a[..i], b[..j - 1]) + (if a[i] == b[j - 1] then 0 else 1))
  {
    assert a[..i + 1][..i] == a[..i];
    assert b[..j][..j - 1] == b[..j - 1];
  }

  /** Row `i` of the distance table: the distances from `a[..i]` to every prefix of `b`. */
  ghost predicate IsRow(a: string, b: string, i: nat, row: seq<nat>)
    requires i <= |a|
  {
    |row| == |b| + 1 && forall k :: 0 <= k <= |b| ==> row[k] == Dist(a[..i], b[..k])
  }

  /** Fills row `i + 1` of the distance table from row `i`. */
  method NextRow(a: string, b: string, i: nat, prev: seq<nat>) returns (cur: array<nat>)
    requires i < |a| && IsRow(a, b, i, prev)
    ensures fresh(cur) && IsRow(a, b, i + 1, cur[..])
  {
    var m := |b|;
    cur := new nat[m + 1];
    cur[0] := i + 1;
    var j := 1;
    while j <= m
      invariant 1 <= j <= m + 1
      invariant forall k :: 0 <= k < j ==> cur[k] == Dist(a[..i + 1], b[..k])
    {
      var cost := if a[i] == b[j - 1] then 0 else 1;
      var d := Min3(prev[j] + 1, cur[j - 1] + 1, prev[j - 1] + cost);
      assert d == Dist(a[..i + 1], b[..j]) by {
        DistCell(a, b, i, j);
      }
      cur[j] := d;
      j := j + 1;
    }
  }

  /** Wagner-Fischer: fills the distance table row by row, keeping one row. */
  method EditDistance(a: string, b: string) returns (d: nat)
    ensures d == Dist(a, b)
  {
    var m := |b|;
    var row := new nat[m + 1];
    var j := 0;
    while j <= m
      invariant 0 <= j <= m + 1
      invariant forall k :: 0 <= k < j ==> row[k] == Dist(a[..0], b[..k])
    {
      row[j] := j;
      j := j + 1;
    }
    var i := 0;
    while i < |a|
      invariant 0 <= i <= |a|
      invariant IsRow(a, b, i, row[..])
    {
      row := NextRow(a, b, i, row[..]);
      i := i + 1;
    }
    assert a[..|a|] == a && b[..m] == b;
    d := row[m];
  }
}
