/**
 The few string operations of Python that the scraper's decisions rest on:
 `str.lower`, `str.endswith`, `str.find`, `str.rfind` and `os.path.splitext`
 (the POSIX flavour, separator '/').
 */
module Text {

  /** `str.lower` on one character; only the ASCII letters are mapped. */
  function LowerChar(c: char): char
  {
    if 'A' <= c <= 'Z' then (c as int + 32) as char else c
  }

  /** `str.lower`, character by character. */
  function Lower(s: string): string
  {
    seq(|s|, i requires 0 <= i < |s| => LowerChar(s[i]))
  }

  /** `s.endswith(suffix)`. */
  predicate EndsWith(s: string, suffix: string)
  {
    |suffix| <= |s| && s[|s| - |suffix|..] == suffix
  }

  /** `sub` occurs in `s` starting at position `k`. */
  predicate OccursAt(s: string, sub: string, k: int)
  {
    0 <= k && k + |sub| <= |s| && s[k..k + |sub|] == sub
  }

  /** `s.find(sub, start)`: the least position at or after `start` where `sub` occurs, or -1. */
  function FindFrom(s: string, sub: string, start: nat): (r: int)
    requires start <= |s|
    ensures r == -1 || (start <= r && OccursAt(s, sub, r))
    ensures r == -1 <==> forall k :: start <= k ==> !OccursAt(s, sub, k)
    ensures r != -1 ==> forall k :: start <= k < r ==> !OccursAt(s, sub, k)
    decreases |s| - start
  {
    if start + |sub| > |s| then -1
    else if s[start..start + |sub|] == sub then start
    else FindFrom(s, sub, start + 1)
  }

  /** `s.find(sub)`. */
  function Find(s: string, sub: string): int
  {
    FindFrom(s, sub, 0)
  }

  /** `s.rfind(c)` for a single character: its last position, or -1. */
  function RFind(s: string, c: char): (r: int)
    ensures -1 <= r < |s|
    ensures r != -1 ==> s[r] == c
    ensures forall k :: r < k < |s| ==> s[k] != c
  {
    if |s| == 0 then -1
    else if s[|s| - 1] == c then |s| - 1
    else RFind(s[..|s| - 1], c)
  }

  /** Some character strictly between positions `lo` and `hi` of `p` is not a dot. */
  predicate NonDotBetween(p: string, lo: int, hi: int)
    requires -1 <= lo && hi <= |p|
  {
    exists k :: lo < k < hi && p[k] != '.'
  }

  /**
   `os.path.splitext(p)`: the extension starts at the last dot that comes after
   the last '/', unless everything between that '/' and the dot is dots (a
   leading-dot basename such as ".png" has no extension).
   */
  function SplitExt(p: string): (string, string)
  {
    var sep := RFind(p, '/');
    var dot := RFind(p, '.');
    if dot > sep && NonDotBetween(p, sep, dot) then (p[..dot], p[dot..]) else (p, "")
  }

  /**
   What `os.path.splitext` promises: root and extension put back together
   give the path; the extension is empty or a dot followed by neither dots
   nor separators; and it is empty exactly when the last path segment has no
   dot preceded by a non-dot character.
   */
  lemma SplitExtSpec(p: string)
    ensures SplitExt(p).0 + SplitExt(p).1 == p
    ensures var ext := SplitExt(p).1;
      ext == [] || (ext[0] == '.' && forall k :: 0 < k < |ext| ==> ext[k] != '.' && ext[k] != '/')
    ensures SplitExt(p).1 != [] ==> NonDotBetween(p, RFind(p, '/'), |SplitExt(p).0|)
    ensures SplitExt(p).1 == [] ==>
      forall d :: RFind(p, '/') < d < |p| && p[d] == '.' ==> !NonDotBetween(p, RFind(p, '/'), d)
  {
    var sep := RFind(p, '/');
    var dot := RFind(p, '.');
    if dot > sep && NonDotBetween(p, sep, dot) {
      var ext := p[dot..];
      assert forall k :: 0 < k < |ext| ==> ext[k] == p[dot + k];
    }
  }
}
