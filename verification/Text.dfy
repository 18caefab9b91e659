/**
 * The string and path operations the scoring script relies on: ASCII
 * `str.lower`, `str.strip`, `str.endswith`, and the Windows flavour of
 * `os.path.join`, `os.path.basename` and `os.path.splitext`.
 */
module Text {

  /** `str.lower` on one character, for the ASCII range. */
  function LowerChar(c: char): char {
    if 'A' <= c <= 'Z' then (c as int + 32) as char else c
  }

  function Lower(s: string): string {
    seq(|s|, i requires 0 <= i < |s| => LowerChar(s[i]))
  }

  /** Lowering twice is lowering once. */
  lemma LowerIdempotent(s: string)
    ensures Lower(Lower(s)) == Lower(s)
  {
  }

  /** Lowering commutes with taking a slice. */
  lemma LowerSlice(s: string, i: nat, j: nat)
    requires i <= j <= |s|
    ensures Lower(s[i..j]) == Lower(s)[i..j]
  {
  }

  /** The ASCII characters `str.isspace` accepts. */
  predicate IsSpace(c: char) {
    c == ' ' || '\t' <= c <= '\r' || '\U{1C}' <= c <= '\U{1F}'
  }

  /** `str.lstrip()`: drops the leading whitespace. */
  function StripLeft(s: string): (r: string)
    ensures |r| <= |s| && r == s[|s| - |r|..]
    ensures r == [] || !IsSpace(r[0])
    ensures forall k :: 0 <= k < |s| - |r| ==> IsSpace(s[k])
  {
    if |s| > 0 && IsSpace(s[0]) then StripLeft(s[1..]) else s
  }

  /** `str.rstrip()`: drops the trailing whitespace. */
  function StripRight(s: string): (r: string)
    ensures |r| <= |s| && r == s[..|r|]
    ensures r == [] || !IsSpace(r[|r| - 1])
    ensures forall k :: |r| <= k < |s| ==> IsSpace(s[k])
  {
    if |s| > 0 && IsSpace(s[|s| - 1]) then StripRight(s[..|s| - 1]) else s
  }

  /** `str.strip()`: drops whitespace at both ends. */
  function Strip(s: string): string {
    StripRight(StripLeft(s))
  }

  /** Where the stripped text starts: after the leading whitespace. */
  function StripStart(s: string): nat {
    |s| - |StripLeft(s)|
  }

  /**
   * The stripped string is the slice of `s` starting at `StripStart(s)`, all
   * of whose surroundings are whitespace, and which neither starts nor ends
   * with whitespace.
   */
  lemma StripIsSlice(s: string)
    ensures StripStart(s) + |Strip(s)| <= |s|
    ensures Strip(s) == s[StripStart(s)..StripStart(s) + |Strip(s)|]
    ensures forall k :: 0 <= k < StripStart(s) || StripStart(s) + |Strip(s)| <= k < |s| ==> IsSpace(s[k])
    ensures Strip(s) == [] || (!IsSpace(Strip(s)[0]) && !IsSpace(Strip(s)[|Strip(s)| - 1]))
  {
    var l := StripLeft(s);
    var i := |s| - |l|;
    var r := StripRight(l);
    assert l == s[i..];
    assert r == l[..|r|];
    assert r == s[i..i + |r|];
    forall k | i + |r| <= k < |s|
      ensures IsSpace(s[k])
    {
      assert s[k] == l[k - i];
    }
  }

  /** Stripping leaves nothing exactly when the string is all whitespace. */
  lemma StripEmptyIff(s: string)
    ensures Strip(s) == [] <==> forall k :: 0 <= k < |s| ==> IsSpace(s[k])
  {
    StripIsSlice(s);
  }

  /** A trailing whitespace character is always removed. */
  lemma StripShortens(s: string)
    requires |s| > 0 && IsSpace(s[|s| - 1])
    ensures |Strip(s)| < |s|
  {
    StripIsSlice(s);
  }

  /** `str.endswith` with a single suffix. */
  predicate EndsWith(s: string, suffix: string) {
    |suffix| <= |s| && s[|s| - |suffix|..] == suffix
  }

  /** Python's `str.rfind` for one character: the last index of `c`, or -1. */
  function RFind(s: string, c: char): (r: int)
    ensures -1 <= r < |s|
    ensures r >= 0 ==> s[r] == c
    ensures forall k :: r < k < |s| ==> s[k] != c
  {
    if |s| == 0 then -1
    else if s[|s| - 1] == c then |s| - 1
    else RFind(s[..|s| - 1], c)
  }

  /** The path separators of the Windows path module. */
  predicate IsSep(c: char) {
    c == '\\' || c == '/'
  }

  /** A drive such as `C:` with nothing after it. */
  predicate IsBareDrive(a: string) {
    |a| == 2 && a[1] == ':'
  }

  /** The length of the drive `os.path.splitdrive` splits off, for drive-letter paths. */
  function DriveLength(p: string): nat {
    if |p| >= 2 && p[1] == ':' then 2 else 0
  }

  /**
   * `os.path.join(a, b)` for a relative, drive-less component `b`: a
   * separator goes between the two unless `a` is empty, already ends in one,
   * or is a bare drive (`join("C:", "x")` is `"C:x"`).
   */
  function Join(a: string, b: string): string {
    if |a| == 0 || IsSep(a[|a| - 1]) || IsBareDrive(a) then a + b
    else a + "\\" + b
  }

  /** Index of the last separator, or -1. */
  function LastSep(p: string): int {
    var s, t := RFind(p, '\\'), RFind(p, '/');
    if s < t then t else s
  }

  /** `os.path.basename(p)`: everything after the drive and the last separator. */
  function Basename(p: string): string {
    var start := LastSep(p) + 1;
    if start < DriveLength(p) then p[DriveLength(p)..] else p[start..]
  }

  /** A name a directory listing can return: no separators and, on Windows, no `:`. */
  predicate IsPlainName(b: string) {
    forall k :: 0 <= k < |b| ==> !IsSep(b[k]) && b[k] != ':'
  }

  /** Joining a plain name onto a directory and taking the base name gives the name back. */
  lemma BasenameOfJoin(a: string, b: string)
    requires IsPlainName(b)
    ensures Basename(Join(a, b)) == b
  {
    var p := Join(a, b);
    assert p[|p| - |b|..] == b;
    assert forall k :: |p| - |b| <= k < |p| ==> p[k] == b[k - (|p| - |b|)];
    if |a| > 0 && !IsBareDrive(a) {
      assert IsSep(p[|p| - |b| - 1]);
    }
  }

  /** A bare drive takes no separator, and the base name drops the drive. */
  lemma JoinOntoBareDrive()
    ensures Join("C:", "x") == "C:x" && Basename("C:x") == "x"
  {
    BasenameOfJoin("C:", "x");
  }

  /**
   * `os.path.splitext(p)[0]`: `p` without its final extension. Leading dots
   * of the last path component do not start an extension, so ".wav" has none.
   */
  function SplitExtRoot(p: string): string {
    var sep, dot := LastSep(p), RFind(p, '.');
    if sep < dot && !AllDots(p[sep + 1..dot]) then p[..dot] else p
  }

  /** Whether `s` consists of dots only. */
  predicate AllDots(s: string)
    ensures AllDots(s) <==> forall k :: 0 <= k < |s| ==> s[k] == '.'
  {
    |s| == 0 || (s[0] == '.' && AllDots(s[1..]))
  }
}
