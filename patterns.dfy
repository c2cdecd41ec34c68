/** The capture groups of the extractor's regular expressions, written as explicit
    matchers.

    Every pattern is a literal marker followed by one capture group of one of three
    shapes:
      Number    `\d+`
      Suffixed  `\d+[A-Za-z]?`
      Section   `\d+[A-Za-z]?\.\d+`
    A digit is never a letter or a dot, so at a fixed start position the greedy
    engine has exactly one way to succeed: the maximal run of digits, then a letter
    if one follows, then (for Section) a dot and a maximal run of digits. `re.search`
    is the leftmost position at which that succeeds.

    The declarative side (the span predicates, InShape, MatchesAt, CapturesAt,
    NoMatch, FirstMatch) says what a pattern means; the executable side (DigitRun,
    TokenEnd, MatchAt, Search) is the matcher; the lemmas connect the two. */
module Patterns {
  import opened Strings

  datatype Option<T> = None | Some(value: T)

  datatype Shape = Number | Suffixed | Section

  /** A search hit: where the marker starts and what the group captured. */
  datatype Found = Found(start: nat, capture: string)

  // ---------------------------------------------------------------------------
  // The language of each capture group, read in place: s[j..e] is a token

  /** s[j..e] matches `\d+`. */
  predicate NumberSpan(s: string, j: int, e: int) {
    0 <= j < e <= |s| && forall k :: j <= k < e ==> IsDigit(s[k])
  }

  /** s[j..e] matches `\d+[A-Za-z]?`. */
  predicate SuffixedSpan(s: string, j: int, e: int) {
    0 <= j < e <= |s| &&
    (NumberSpan(s, j, e) || (NumberSpan(s, j, e - 1) && IsAsciiLetter(s[e - 1])))
  }

  /** s[j..e] matches `\d+[A-Za-z]?\.\d+`. */
  ghost predicate SectionSpan(s: string, j: int, e: int) {
    0 <= j && e <= |s| &&
    exists d :: j < d < e && s[d] == '.' && SuffixedSpan(s, j, d) && NumberSpan(s, d + 1, e)
  }

  ghost predicate ShapeSpan(s: string, shape: Shape, j: int, e: int) {
    match shape
    case Number => NumberSpan(s, j, e)
    case Suffixed => SuffixedSpan(s, j, e)
    case Section => SectionSpan(s, j, e)
  }

  /** The whole of t is a token of the shape. */
  ghost predicate InShape(shape: Shape, t: string) {
    ShapeSpan(t, shape, 0, |t|)
  }

  /** Every token is non-empty and starts with a digit. */
  lemma ShapeSpanStartsWithDigit(s: string, shape: Shape, j: int, e: int)
    requires ShapeSpan(s, shape, j, e)
    ensures 0 <= j < e <= |s| && IsDigit(s[j])
  {
    if shape == Section {
      var d :| j < d < e && s[d] == '.' && SuffixedSpan(s, j, d) && NumberSpan(s, d + 1, e);
    }
  }

  lemma NumberSpanShift(s: string, j: nat, e: nat, a: int, b: int)
    requires j <= e <= |s| && 0 <= a <= b <= e - j
    ensures NumberSpan(s[j..e], a, b) <==> NumberSpan(s, j + a, j + b)
  {
    var t := s[j..e];
    assert forall k :: a <= k < b ==> t[k] == s[j + k];
  }

  lemma SuffixedSpanShift(s: string, j: nat, e: nat, a: int, b: int)
    requires j <= e <= |s| && 0 <= a <= b <= e - j
    ensures SuffixedSpan(s[j..e], a, b) <==> SuffixedSpan(s, j + a, j + b)
  {
    NumberSpanShift(s, j, e, a, b);
    if a < b {
      NumberSpanShift(s, j, e, a, b - 1);
      assert s[j..e][b - 1] == s[j + b - 1];
    }
  }

  lemma SectionSpanFromSlice(s: string, j: nat, e: nat)
    requires j <= e <= |s| && SectionSpan(s[j..e], 0, e - j)
    ensures SectionSpan(s, j, e)
  {
    var t := s[j..e];
    var d :| 0 < d < |t| && t[d] == '.' && SuffixedSpan(t, 0, d) && NumberSpan(t, d + 1, |t|);
    SuffixedSpanShift(s, j, e, 0, d);
    NumberSpanShift(s, j, e, d + 1, |t|);
    assert s[j + d] == t[d];
    assert j < j + d < e && s[j + d] == '.' && SuffixedSpan(s, j, j + d) && NumberSpan(s, j + d + 1, e);
  }

  lemma SectionSpanToSlice(s: string, j: nat, e: nat)
    requires j <= e <= |s| && SectionSpan(s, j, e)
    ensures SectionSpan(s[j..e], 0, e - j)
  {
    var t := s[j..e];
    var d :| j < d < e && s[d] == '.' && SuffixedSpan(s, j, d) && NumberSpan(s, d + 1, e);
    SuffixedSpanShift(s, j, e, 0, d - j);
    NumberSpanShift(s, j, e, d - j + 1, |t|);
    assert t[d - j] == s[d];
    assert 0 < d - j < |t| && t[d - j] == '.' && SuffixedSpan(t, 0, d - j) && NumberSpan(t, d - j + 1, |t|);
  }

  /** Reading a token inside a slice is reading it in place in the string. */
  lemma ShapeSpanShift(s: string, shape: Shape, j: nat, e: nat)
    requires j <= e <= |s|
    ensures InShape(shape, s[j..e]) <==> ShapeSpan(s, shape, j, e)
  {
    match shape {
      case Number => NumberSpanShift(s, j, e, 0, e - j);
      case Suffixed => SuffixedSpanShift(s, j, e, 0, e - j);
      case Section =>
        if SectionSpan(s[j..e], 0, e - j) {
          SectionSpanFromSlice(s, j, e);
        }
        if SectionSpan(s, j, e) {
          SectionSpanToSlice(s, j, e);
        }
    }
  }

  // ---------------------------------------------------------------------------
  // The deterministic matcher

  /** Length of the maximal run of digits starting at index j. */
  function DigitRun(s: string, j: nat): (n: nat)
    requires j <= |s|
    ensures j + n <= |s|
    ensures forall k :: j <= k < j + n ==> IsDigit(s[k])
    ensures j + n == |s| || !IsDigit(s[j + n])
    decreases |s| - j
  {
    if j < |s| && IsDigit(s[j]) then 1 + DigitRun(s, j + 1) else 0
  }

  /** A run of digits is always covered by the maximal run from its start. */
  lemma {:induction false} DigitRunCovers(s: string, j: nat, e: nat)
    requires j <= e <= |s|
    requires forall k :: j <= k < e ==> IsDigit(s[k])
    ensures j + DigitRun(s, j) >= e
    decreases e - j
  {
    if j < e {
      DigitRunCovers(s, j + 1, e);
    }
  }

  /** A run of digits followed by a non-digit (or the end) is the maximal run. */
  lemma DigitRunExact(s: string, j: nat, e: nat)
    requires j <= e <= |s|
    requires forall k :: j <= k < e ==> IsDigit(s[k])
    requires e == |s| || !IsDigit(s[e])
    ensures j + DigitRun(s, j) == e
  {
    DigitRunCovers(s, j, e);
  }

  /** End index of the greedy `\d+[A-Za-z]?` at index j, if it matches there. */
  function SuffixedEnd(s: string, j: nat): (r: Option<nat>)
    requires j <= |s|
    ensures r.Some? ==> j < r.value <= |s|
  {
    var n := DigitRun(s, j);
    if n == 0 then None
    else if j + n < |s| && IsAsciiLetter(s[j + n]) then Some(j + n + 1)
    else Some(j + n)
  }

  /** End index of the greedy match of `shape` at index j, if it matches there. */
  function TokenEnd(s: string, j: nat, shape: Shape): (r: Option<nat>)
    requires j <= |s|
    ensures r.Some? ==> j < r.value <= |s|
  {
    match shape
    case Number =>
      var n := DigitRun(s, j);
      if n == 0 then None else Some(j + n)
    case Suffixed =>
      SuffixedEnd(s, j)
    case Section =>
      match SuffixedEnd(s, j)
      case None => None
      case Some(e) =>
        if e < |s| && s[e] == '.' then
          var m := DigitRun(s, e + 1);
          if m == 0 then None else Some(e + 1 + m)
        else None
  }

  /** The greedy match of `shape` at j is a token of that shape. */
  lemma TokenEndSound(s: string, j: nat, shape: Shape)
    requires j <= |s|
    ensures TokenEnd(s, j, shape).Some? ==> ShapeSpan(s, shape, j, TokenEnd(s, j, shape).value)
  {
    if shape == Section && SuffixedEnd(s, j).Some? {
      var d := SuffixedEnd(s, j).value;
      if d < |s| && s[d] == '.' && DigitRun(s, d + 1) > 0 {
        var e := d + 1 + DigitRun(s, d + 1);
        assert j < d < e && s[d] == '.' && SuffixedSpan(s, j, d) && NumberSpan(s, d + 1, e);
      }
    }
  }

  /** Any `\d+[A-Za-z]?` token at j ends no later than the greedy one. */
  lemma SuffixedEndCovers(s: string, j: nat, e: nat)
    requires SuffixedSpan(s, j, e)
    ensures SuffixedEnd(s, j).Some? && e <= SuffixedEnd(s, j).value
  {
    if NumberSpan(s, j, e) {
      DigitRunCovers(s, j, e);
    } else {
      DigitRunExact(s, j, e - 1);
    }
  }

  /** A `\d+[A-Za-z]?` token at j followed by a dot is exactly the greedy one. */
  lemma SuffixedEndBeforeDot(s: string, j: nat, d: nat)
    requires SuffixedSpan(s, j, d) && d < |s| && s[d] == '.'
    ensures SuffixedEnd(s, j) == Some(d)
  {
    if NumberSpan(s, j, d) {
      DigitRunExact(s, j, d);
    } else {
      DigitRunExact(s, j, d - 1);
    }
  }

  /** Any `\d+[A-Za-z]?\.\d+` token at j ends no later than the greedy one. */
  lemma SectionEndCovers(s: string, j: nat, e: nat)
    requires SectionSpan(s, j, e)
    ensures TokenEnd(s, j, Section).Some? && e <= TokenEnd(s, j, Section).value
  {
    var d :| j < d < e && s[d] == '.' && SuffixedSpan(s, j, d) && NumberSpan(s, d + 1, e);
    SuffixedEndBeforeDot(s, j, d);
    DigitRunCovers(s, d + 1, e);
  }

  /** Greediness: every token of `shape` starting at j is matched, and ends no
      later than the greedy match. */
  lemma TokenEndComplete(s: string, j: nat, shape: Shape)
    requires j <= |s|
    ensures forall e :: ShapeSpan(s, shape, j, e) ==>
              TokenEnd(s, j, shape).Some? && e <= TokenEnd(s, j, shape).value
  {
    forall e | ShapeSpan(s, shape, j, e)
      ensures TokenEnd(s, j, shape).Some? && e <= TokenEnd(s, j, shape).value
    {
      match shape {
        case Number => DigitRunCovers(s, j, e);
        case Suffixed => SuffixedEndCovers(s, j, e);
        case Section => SectionEndCovers(s, j, e);
      }
    }
  }

  // ---------------------------------------------------------------------------
  // Matching a marker and a group at one position

  predicate MarkerAt(s: string, p: nat, marker: string) {
    p + |marker| <= |s| && s[p..p + |marker|] == marker
  }

  /** Some token of the shape starts at j. */
  ghost predicate TokenFrom(s: string, shape: Shape, j: int) {
    exists e :: ShapeSpan(s, shape, j, e)
  }

  /** No token of the shape starting at j ends after `end`. */
  ghost predicate LongestFrom(s: string, shape: Shape, j: int, end: int) {
    forall e :: ShapeSpan(s, shape, j, e) ==> e <= end
  }

  /** The pattern `marker(shape)` matches with its match starting at p. */
  ghost predicate MatchesAt(s: string, marker: string, shape: Shape, p: nat) {
    MarkerAt(s, p, marker) && TokenFrom(s, shape, p + |marker|)
  }

  /** The pattern matches at p and its group captures t, the longest token of the
      shape after the marker (which is what the greedy engine captures). */
  ghost predicate CapturesAt(s: string, marker: string, shape: Shape, p: nat, t: string) {
    MarkerAt(s, p, marker) &&
    p + |marker| + |t| <= |s| &&
    s[p + |marker|..p + |marker| + |t|] == t &&
    ShapeSpan(s, shape, p + |marker|, p + |marker| + |t|) &&
    LongestFrom(s, shape, p + |marker|, p + |marker| + |t|)
  }

  ghost predicate NoMatch(s: string, marker: string, shape: Shape) {
    forall p :: 0 <= p <= |s| ==> !MatchesAt(s, marker, shape, p)
  }

  /** What `re.search` reports: the leftmost match start and its capture. */
  ghost predicate FirstMatch(s: string, marker: string, shape: Shape, p: nat, t: string) {
    p <= |s| &&
    CapturesAt(s, marker, shape, p, t) &&
    forall q :: 0 <= q < p ==> !MatchesAt(s, marker, shape, q)
  }

  function MatchAt(s: string, marker: string, shape: Shape, p: nat): Option<string>
    requires p <= |s|
  {
    if MarkerAt(s, p, marker) then
      match TokenEnd(s, p + |marker|, shape)
      case Some(e) => Some(s[p + |marker|..e])
      case None => None
    else None
  }

  /** When the greedy token after the marker ends at e, the group captures it. */
  lemma GreedyCaptures(s: string, marker: string, shape: Shape, p: nat, e: nat)
    requires MarkerAt(s, p, marker) && TokenEnd(s, p + |marker|, shape) == Some(e)
    ensures CapturesAt(s, marker, shape, p, s[p + |marker|..e])
  {
    var j := p + |marker|;
    TokenEndSound(s, j, shape);
    TokenEndComplete(s, j, shape);
    var t := s[j..e];
    assert j + |t| == e;
  }

  /** When the greedy matcher finds no token after the marker, there is none. */
  lemma GreedyFindsNone(s: string, shape: Shape, j: nat)
    requires j <= |s| && TokenEnd(s, j, shape).None?
    ensures !TokenFrom(s, shape, j)
  {
    TokenEndComplete(s, j, shape);
  }

  /** The matcher at one position succeeds exactly when the pattern matches there,
      and then captures the longest token. */
  lemma MatchAtCorrect(s: string, marker: string, shape: Shape, p: nat)
    requires p <= |s|
    ensures MatchAt(s, marker, shape, p).Some? <==> MatchesAt(s, marker, shape, p)
    ensures MatchAt(s, marker, shape, p).Some? ==>
              CapturesAt(s, marker, shape, p, MatchAt(s, marker, shape, p).value)
  {
    if MarkerAt(s, p, marker) {
      var j := p + |marker|;
      match TokenEnd(s, j, shape) {
        case Some(e) =>
          assert MatchAt(s, marker, shape, p) == Some(s[j..e]);
          GreedyCaptures(s, marker, shape, p, e);
          assert ShapeSpan(s, shape, j, e);
        case None =>
          assert MatchAt(s, marker, shape, p) == None;
          GreedyFindsNone(s, shape, j);
      }
    }
  }

  // ---------------------------------------------------------------------------
  // Searching: the leftmost position

  /** The marker followed by t occurs in s at position p. */
  predicate Occurs(s: string, marker: string, p: nat, t: string) {
    p + |marker| + |t| <= |s| &&
    s[p..p + |marker|] == marker && s[p + |marker|..p + |marker| + |t|] == t
  }

  function SearchFrom(s: string, marker: string, shape: Shape, from: nat): (r: Option<Found>)
    requires from <= |s|
    ensures r.Some? ==> from <= r.value.start && Occurs(s, marker, r.value.start, r.value.capture)
    decreases |s| - from
  {
    match MatchAt(s, marker, shape, from)
    case Some(t) => Some(Found(from, t))
    case None => if from == |s| then None else SearchFrom(s, marker, shape, from + 1)
  }

  /** `re.search(marker + '(' + shape + ')', s)`. */
  function Search(s: string, marker: string, shape: Shape): (r: Option<Found>)
    ensures r.Some? ==> Occurs(s, marker, r.value.start, r.value.capture)
  {
    SearchFrom(s, marker, shape, 0)
  }

  /** No position in [from, to] matches. */
  ghost predicate NoMatchBetween(s: string, marker: string, shape: Shape, from: nat, to: int) {
    forall q: nat :: from <= q <= to ==> !MatchesAt(s, marker, shape, q)
  }

  lemma NoMatchBetweenCons(s: string, marker: string, shape: Shape, from: nat, to: int)
    requires from <= to
    ensures NoMatchBetween(s, marker, shape, from, to) <==>
              !MatchesAt(s, marker, shape, from) && NoMatchBetween(s, marker, shape, from + 1, to)
  {
  }

  lemma {:induction false} SearchFromCorrect(s: string, marker: string, shape: Shape, from: nat)
    requires from <= |s|
    ensures SearchFrom(s, marker, shape, from).None? <==> NoMatchBetween(s, marker, shape, from, |s|)
    ensures SearchFrom(s, marker, shape, from).Some? ==>
              var f := SearchFrom(s, marker, shape, from).value;
              from <= f.start <= |s| &&
              CapturesAt(s, marker, shape, f.start, f.capture) &&
              NoMatchBetween(s, marker, shape, from, f.start - 1)
    decreases |s| - from
  {
    MatchAtCorrect(s, marker, shape, from);
    match MatchAt(s, marker, shape, from) {
      case Some(t) =>
        assert SearchFrom(s, marker, shape, from) == Some(Found(from, t));
      case None =>
        assert !MatchesAt(s, marker, shape, from);
        if from < |s| {
          var r := SearchFrom(s, marker, shape, from + 1);
          assert SearchFrom(s, marker, shape, from) == r;
          SearchFromCorrect(s, marker, shape, from + 1);
          NoMatchBetweenCons(s, marker, shape, from, |s|);
          if r.Some? {
            NoMatchBetweenCons(s, marker, shape, from, r.value.start - 1);
          }
        } else {
          assert SearchFrom(s, marker, shape, from) == None;
          NoMatchBetweenCons(s, marker, shape, from, |s|);
        }
    }
  }

  /** Search finds nothing exactly when the pattern matches nowhere; otherwise it
      finds the leftmost match and its greedy capture. */
  lemma SearchCorrect(s: string, marker: string, shape: Shape)
    ensures Search(s, marker, shape).None? <==> NoMatch(s, marker, shape)
    ensures Search(s, marker, shape).Some? ==>
              FirstMatch(s, marker, shape, Search(s, marker, shape).value.start,
                         Search(s, marker, shape).value.capture)
  {
    SearchFromCorrect(s, marker, shape, 0);
  }

  /** A capture at p is a match at p, and the capture is a token of the shape that
      starts with a digit. */
  lemma CapturesAtMatches(s: string, marker: string, shape: Shape, p: nat, t: string)
    requires CapturesAt(s, marker, shape, p, t)
    ensures MatchesAt(s, marker, shape, p)
    ensures InShape(shape, t) && |t| > 0 && IsDigit(t[0])
  {
    var j := p + |marker|;
    var e := j + |t|;
    assert t == s[j..e];
    assert ShapeSpan(s, shape, j, e);
    ShapeSpanShift(s, shape, j, e);
    ShapeSpanStartsWithDigit(s, shape, j, e);
    assert t[0] == s[j];
  }

  /** The leftmost match and its capture are unique: FirstMatch is a function of
      the input. */
  lemma FirstMatchUnique(s: string, marker: string, shape: Shape,
                         p1: nat, t1: string, p2: nat, t2: string)
    requires FirstMatch(s, marker, shape, p1, t1)
    requires FirstMatch(s, marker, shape, p2, t2)
    ensures p1 == p2 && t1 == t2
  {
    CapturesAtMatches(s, marker, shape, p1, t1);
    CapturesAtMatches(s, marker, shape, p2, t2);
    assert p1 == p2;
    var j := p1 + |marker|;
    assert ShapeSpan(s, shape, j, j + |t1|);
    assert ShapeSpan(s, shape, j, j + |t2|);
    assert |t1| == |t2|;
  }
}
