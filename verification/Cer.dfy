/**
 * The character error rate (`calculate_cer`): the edit distance between the
 * lowercased transcription and the lowercased ground truth, divided by the
 * length of the lowercased ground truth, in exact arithmetic.
 */
module Cer {
  import opened Wrappers
  import opened Text
  import opened Levenshtein

  /** An empty ground truth makes the division raise `ZeroDivisionError`. */
  function CalculateCer(transcription: string, groundTruth: string): (r: Result<real>)
    ensures r.Err? <==> |groundTruth| == 0
    ensures r.Ok? ==> r.value >= 0.0
    ensures r.Ok? ==> (r.value == 0.0 <==> Lower(transcription) == Lower(groundTruth))
  {
    var t, g := Lower(transcription), Lower(groundTruth);
    if |g| == 0 then Err(ZeroDivision)
    else
      var d := Dist(t, g);
      DistZeroIff(t, g);
      RatioSign(d, |g|);
      Ok(d as real / |g| as real)
  }

  /** A ratio of naturals is non-negative, and zero exactly when its numerator is. */
  lemma RatioSign(d: nat, n: nat)
    requires n > 0
    ensures d as real / n as real >= 0.0
    ensures d as real / n as real == 0.0 <==> d == 0
  {
    assert (d as real / n as real) * n as real == d as real;
  }

  /** For a non-empty ground truth, the rate is the distance over its length. */
  lemma CerValue(t: string, g: string)
    requires |g| > 0
    ensures CalculateCer(t, g) == Ok(Dist(Lower(t), Lower(g)) as real / |g| as real)
  {
  }

  /** Two strings that differ only in the case of ASCII letters. */
  predicate SameUpToCase(a: string, b: string) {
    |a| == |b| && forall k :: 0 <= k < |a| ==> LowerChar(a[k]) == LowerChar(b[k])
  }

  /** Changing the case of letters in either argument does not change the rate. */
  lemma CerCaseInsensitive(t1: string, t2: string, g1: string, g2: string)
    requires SameUpToCase(t1, t2) && SameUpToCase(g1, g2)
    ensures CalculateCer(t1, g1) == CalculateCer(t2, g2)
  {
    assert Lower(t1) == Lower(t2);
    assert Lower(g1) == Lower(g2);
  }

  /** Lowercasing the arguments beforehand does not change the rate. */
  lemma CerOfLowered(t: string, g: string)
    ensures CalculateCer(Lower(t), Lower(g)) == CalculateCer(t, g)
  {
    LowerIdempotent(t);
    LowerIdempotent(g);
  }

  /** A ratio with a numerator above the denominator is above one. */
  lemma RatioAboveOne(d: nat, n: nat)
    requires 0 < n < d
    ensures d as real / n as real > 1.0
  {
    var q := d as real / n as real;
    assert q * n as real == d as real;
  }

  /** A ratio whose numerator is at most `max(a, n)` is at most `max(a / n, 1)`. */
  lemma RatioAtMostLonger(d: nat, a: nat, n: nat)
    requires 0 < n && d <= (if a <= n then n else a)
    ensures d as real / n as real <= (if a <= n then 1.0 else a as real / n as real)
  {
    var q := d as real / n as real;
    assert q * n as real == d as real;
    if a > n {
      var r := a as real / n as real;
      assert r * n as real == a as real;
      assert (r - q) * n as real >= 0.0;
      NonNegativeFactor(r - q, n as real);
    } else {
      assert (1.0 - q) * n as real >= 0.0;
      NonNegativeFactor(1.0 - q, n as real);
    }
  }

  lemma NonNegativeFactor(x: real, n: real)
    requires n > 0.0 && x * n >= 0.0
    ensures x >= 0.0
  {
  }

  /**
   * The rate is not bounded by 1: a transcription more than twice as long as
   * the ground truth scores above 1.
   */
  lemma CerExceedsOne(t: string, g: string)
    requires 0 < |g| && 2 * |g| < |t|
    ensures CalculateCer(t, g).Ok? && CalculateCer(t, g).value > 1.0
  {
    var lt, lg := Lower(t), Lower(g);
    CerValue(t, g);
    DistLengthGap(lt, lg);
    RatioAboveOne(Dist(lt, lg), |g|);
  }

  /** The rate never exceeds the longer length over the ground-truth length. */
  lemma CerAtMost(t: string, g: string)
    requires |g| > 0
    ensures CalculateCer(t, g).Ok?
    ensures CalculateCer(t, g).value <= (if |t| <= |g| then 1.0 else |t| as real / |g| as real)
  {
    var lt, lg := Lower(t), Lower(g);
    CerValue(t, g);
    DistAtMostLonger(lt, lg);
    RatioAtMostLonger(Dist(lt, lg), |t|, |g|);
  }

  /** Substituting the last character costs one edit. */
  lemma DistLastSubstitution(x: string, c: char, e: char)
    requires c != e
    ensures Dist(x + [c], x + [e]) == 1
  {
    assert (x + [c])[..|x|] == x && (x + [e])[..|x|] == x;
    DistZeroIff(x, x);
    DistZeroIff(x + [c], x + [e]);
  }

  /** Worked examples of the rate. */
  lemma CerExampleEqual()
    ensures CalculateCer("abc", "abc") == Ok(0.0)
  {
  }

  /** Two lowercase strings that differ only in their last character. */
  lemma CerLastSubstitution(x: string, c: char, e: char)
    requires Lower(x) == x && c != e && LowerChar(c) == c && LowerChar(e) == e
    ensures CalculateCer(x + [c], x + [e]) == Ok(1.0 / (|x| + 1) as real)
  {
    assert Lower(x + [c]) == x + [c];
    assert Lower(x + [e]) == x + [e];
    DistLastSubstitution(x, c, e);
  }

  lemma CerExampleOneSubstitution()
    ensures CalculateCer("abc", "abd") == Ok(1.0 / 3.0)
  {
    assert Lower("ab") == "ab";
    CerLastSubstitution("ab", 'c', 'd');
    assert "ab" + ['c'] == "abc" && "ab" + ['d'] == "abd";
  }

  lemma CerExampleCase()
    ensures CalculateCer("ABC", "abc") == Ok(0.0)
  {
    assert Lower("ABC") == Lower("abc");
  }

  lemma CerExampleEmptyGroundTruth()
    ensures CalculateCer("abc", "") == Err(ZeroDivision)
  {
  }

  /**
   * Scoring a string against its own stripped form: the rate is the number
   * of whitespace characters strip removed, over the length of what is
   * left.
   */
  lemma CerAgainstOwnStrip(s: string)
    requires Strip(s) != []
    ensures CalculateCer(s, Strip(s)) == Ok((|s| - |Strip(s)|) as real / |Strip(s)| as real)
  {
    var g, ls := Strip(s), Lower(s);
    var i := StripStart(s);
    var j := i + |g|;
    assert j <= |s| && Lower(g) == ls[i..j] by {
      StripIsSlice(s);
      LowerSlice(s, i, j);
    }
    assert Dist(ls, Lower(g)) == |s| - |g| by {
      DistToSlice(ls, i, j);
    }
    CerValue(s, g);
  }
}
