/** Character classes and the two string operations the extractor relies on:
    `str.startswith` and `str.replace('\\', '/')`. Digits are the ASCII digits
    only (Python's `\d` also accepts other Unicode decimal digits). */
module Strings {

  predicate IsDigit(c: char) {
    '0' <= c <= '9'
  }

  /** The class `[A-Za-z]`. */
  predicate IsAsciiLetter(c: char) {
    'A' <= c <= 'Z' || 'a' <= c <= 'z'
  }

  predicate StartsWith(s: string, prefix: string) {
    |prefix| <= |s| && s[..|prefix|] == prefix
  }

  /** `p.replace('\\', '/')`: every backslash becomes a forward slash, every other
      character is kept in place. */
  function ReplaceBackslashes(p: string): (r: string)
    ensures |r| == |p|
    ensures forall k :: 0 <= k < |p| && p[k] == '\\' ==> r[k] == '/'
    ensures forall k :: 0 <= k < |p| && p[k] != '\\' ==> r[k] == p[k]
    ensures forall k :: 0 <= k < |r| ==> r[k] != '\\'
  {
    if p == [] then []
    else [if p[0] == '\\' then '/' else p[0]] + ReplaceBackslashes(p[1..])
  }
}
