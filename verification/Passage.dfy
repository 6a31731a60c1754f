/**
  Quoting the sentence around a match (passage in internal/rubric/rubric.go).

  The loops step byte by byte through UTF-8 text, and yet every end they choose lies between
  two characters.
*/
module Passage {
  import opened Utf8
  import opened Utf8Encoding

  const MAX_PASSAGE := 160
  const REACH := 70
  const ELLIPSIS: Bytes := [0xE2, 0x80, 0xA6]

  predicate IsBreak(b: Byte) {
    b == 46 || b == 33 || b == 63 || b == NEWLINE
  }

  /** unicode.IsSpace of one byte taken as a character, which includes 0x85 and 0xA0. */
  predicate IsSpaceByte(b: Byte) {
    9 <= b <= 13 || b == SPACE || b == 0x85 || b == 0xA0
  }

  /** A sentence ends just before place k. */
  predicate BreakAt(s: Bytes, k: int) {
    0 < k < |s| && IsBreak(s[k - 1]) && IsSpaceByte(s[k])
  }

  /** The nearest sentence break before place k + 1, or the start of the text. */
  function StartFrom(s: Bytes, k: int): (a: nat)
    requires k < |s|
    ensures a == 0 || (a <= k && BreakAt(s, a))
    ensures forall m | a < m <= k :: !BreakAt(s, m)
  {
    if k <= 0 then 0 else if BreakAt(s, k) then k else StartFrom(s, k - 1)
  }

  /** The nearest sentence break after place k, or the end of the text. */
  function EndFrom(s: Bytes, k: nat): (b: nat)
    requires k <= |s|
    ensures k <= b <= |s| && (b == |s| || (k < b && BreakAt(s, b)))
    ensures forall m | k < m < b :: !BreakAt(s, m)
    decreases |s| - k
  {
    if k >= |s| - 1 then |s| else if BreakAt(s, k + 1) then k + 1 else EndFrom(s, k + 1)
  }

  /** Back to a space, but not past `start`. */
  function BackToSpace(s: Bytes, from: nat, start: nat): (a: nat)
    requires start <= from <= |s|
    ensures start <= a <= from && (a == start || s[a - 1] == SPACE)
    ensures forall m | a <= m < from :: s[m] != SPACE
    decreases from
  {
    if from > start && s[from - 1] != SPACE then BackToSpace(s, from - 1, start) else from
  }

  /** On to a space, but not past `end`. */
  function OnToSpace(s: Bytes, to: nat, end: nat): (b: nat)
    requires to <= end <= |s|
    ensures to <= b <= end && (b == end || s[b] == SPACE)
    ensures forall m | to <= m < b :: s[m] != SPACE
    decreases end - to
  {
    if to < end && s[to] != SPACE then OnToSpace(s, to + 1, end) else to
  }

  function Max(a: int, b: int): int { if a >= b then a else b }

  function Min(a: int, b: int): int { if a <= b then a else b }

  function SentenceStart(s: Bytes, i: nat): (a: nat)
    requires i <= |s|
    ensures a <= i
  {
    StartFrom(s, i - 1)
  }

  /** Where a sentence that is too long is cut. */
  function CutStart(s: Bytes, i: nat): (a: nat)
    requires i <= |s|
    ensures SentenceStart(s, i) <= a <= i
  {
    BackToSpace(s, Max(i - REACH, SentenceStart(s, i)), SentenceStart(s, i))
  }

  function CutEnd(s: Bytes, j: nat): (b: nat)
    requires j <= |s|
    ensures j <= b <= EndFrom(s, j)
  {
    OnToSpace(s, Min(j + REACH, EndFrom(s, j)), EndFrom(s, j))
  }

  predicate Match(s: Bytes, i: nat, j: nat) {
    i <= j <= |s| && Valid(s) && Boundary(s, i) && Boundary(s, j)
  }

  // ----- Every end is a boundary

  lemma BreakIsBoundary(s: Bytes, k: nat)
    requires Valid(s) && BreakAt(s, k)
    ensures Boundary(s, k)
  {
    AsciiStandsAlone(s, k - 1);
  }

  lemma EndsAreBoundaries(s: Bytes, i: nat, j: nat)
    requires Match(s, i, j)
    ensures Boundary(s, SentenceStart(s, i)) && Boundary(s, EndFrom(s, j))
    ensures Boundary(s, CutStart(s, i)) && Boundary(s, CutEnd(s, j))
  {
    var start, end := SentenceStart(s, i), EndFrom(s, j);
    if start > 0 { BreakIsBoundary(s, start); } else if |s| > 0 { FirstChar(s); }
    if end < |s| { BreakIsBoundary(s, end); }
    CutsAreBoundaries(s, i, j);
  }

  lemma CutsAreBoundaries(s: Bytes, i: nat, j: nat)
    requires Match(s, i, j) && Boundary(s, SentenceStart(s, i)) && Boundary(s, EndFrom(s, j))
    ensures Boundary(s, CutStart(s, i)) && Boundary(s, CutEnd(s, j))
  {
    var a, b := CutStart(s, i), CutEnd(s, j);
    if a > SentenceStart(s, i) { AsciiStandsAlone(s, a - 1); }
    if b < EndFrom(s, j) { AsciiStandsAlone(s, b); }
  }

  // ----- The passage

  /** The whole sentence when it is short enough, otherwise the stretch around the match. */
  ghost predicate Whole(s: Bytes, i: nat, j: nat)
    requires Match(s, i, j)
  {
    var out := TrimSpace(s[SentenceStart(s, i)..EndFrom(s, j)]);
    Valid(out) && RuneCount(out) <= MAX_PASSAGE
  }

  ghost function From(s: Bytes, i: nat, j: nat): (a: nat)
    requires Match(s, i, j)
    ensures a <= i
  {
    if Whole(s, i, j) then SentenceStart(s, i) else CutStart(s, i)
  }

  ghost function To(s: Bytes, i: nat, j: nat): (b: nat)
    requires Match(s, i, j)
    ensures j <= b <= |s|
  {
    if Whole(s, i, j) then EndFrom(s, j) else CutEnd(s, j)
  }

  /** A quote with an ellipsis where it was cut. */
  function Marked(left: bool, quote: Bytes, right: bool): Bytes {
    (if left then ELLIPSIS else []) + quote + (if right then ELLIPSIS else [])
  }

  lemma MarkedMeans(left: bool, quote: Bytes, right: bool)
    ensures Marked(left, quote, right) == (if left then Encode(0x2026) else []) + quote + (if right then Encode(0x2026) else [])
  {
  }

  /** The quote, with an ellipsis on each side that was cut. */
  method Passage(s: Bytes, i: nat, j: nat) returns (out: Bytes)
    requires Match(s, i, j)
    ensures out ==
      (if From(s, i, j) > SentenceStart(s, i) then Encode(0x2026) else [])
      + TrimSpace(s[From(s, i, j)..To(s, i, j)])
      + (if To(s, i, j) < EndFrom(s, j) then Encode(0x2026) else [])
  {
    hide Encode, Marked, From, To;
    out := Quote(s, i, j);
    MarkedMeans(From(s, i, j) > SentenceStart(s, i), TrimSpace(s[From(s, i, j)..To(s, i, j)]), To(s, i, j) < EndFrom(s, j));
  }

  method Quote(s: Bytes, i: nat, j: nat) returns (out: Bytes)
    requires Match(s, i, j)
    ensures From(s, i, j) <= To(s, i, j) <= |s|
    ensures out == Marked(From(s, i, j) > SentenceStart(s, i), TrimSpace(s[From(s, i, j)..To(s, i, j)]), To(s, i, j) < EndFrom(s, j))
  {
    EndsAreBoundaries(s, i, j);
    var start := FindStart(s, i);
    var end := FindEnd(s, j);
    TrimmedIsValid(s, start, end);
    var whole := TrimSpace(s[start..end]);
    if RuneCount(whole) <= MAX_PASSAGE {
      out := Mark(false, whole, false);
    } else {
      out := CutAround(s, i, j, start, end);
    }
  }

  /** About 70 characters on either side of the match, cut at spaces. */
  method CutAround(s: Bytes, i: nat, j: nat, start: nat, end: nat) returns (out: Bytes)
    requires i <= j <= |s| && start == SentenceStart(s, i) && end == EndFrom(s, j)
    ensures out == Marked(CutStart(s, i) > start, TrimSpace(s[CutStart(s, i)..CutEnd(s, j)]), CutEnd(s, j) < end)
  {
    var from, to := Max(i - REACH, start), Min(j + REACH, end);
    while from > start && s[from - 1] != SPACE
      invariant start <= from <= i && BackToSpace(s, from, start) == CutStart(s, i)
    {
      from := from - 1;
    }
    while to < end && s[to] != SPACE
      invariant j <= to <= end && OnToSpace(s, to, end) == CutEnd(s, j)
    {
      to := to + 1;
    }
    out := Mark(from > start, TrimSpace(s[from..to]), to < end);
  }

  method Mark(left: bool, cut: Bytes, right: bool) returns (out: Bytes)
    ensures out == Marked(left, cut, right)
  {
    out := cut;
    if left {
      out := ELLIPSIS + out;
    }
    if right {
      out := out + ELLIPSIS;
    }
  }

  method FindStart(s: Bytes, i: nat) returns (start: nat)
    requires i <= |s|
    ensures start == SentenceStart(s, i)
  {
    var k := i - 1;
    while k > 0
      invariant -1 <= k < |s| && StartFrom(s, k) == StartFrom(s, i - 1)
    {
      if IsBreak(s[k - 1]) && IsSpaceByte(s[k]) {
        return k;
      }
      k := k - 1;
    }
    return 0;
  }

  method FindEnd(s: Bytes, j: nat) returns (end: nat)
    requires j <= |s|
    ensures end == EndFrom(s, j)
  {
    var k := j;
    while k < |s| - 1
      invariant j <= k <= |s| && EndFrom(s, k) == EndFrom(s, j)
    {
      if IsBreak(s[k]) && IsSpaceByte(s[k + 1]) {
        return k + 1;
      }
      k := k + 1;
    }
    return |s|;
  }

  /** A sentence ends after one of these signs, when white space follows. */
  lemma WhereSentencesEnd(s: Bytes, k: int)
    ensures BreakAt(s, k) <==> 0 < k < |s| && s[k - 1] as char in {'.', '!', '?', '\n'} && SpaceRune(s[k])
  {
  }

  /** The place is not inside a word: it is the given end, or a space stands before it. */
  predicate AfterSpace(s: Bytes, m: int, end: int) {
    m == end || (0 < m <= |s| && s[m - 1] == SPACE)
  }

  predicate BeforeSpace(s: Bytes, m: int, end: int) {
    m == end || (0 <= m < |s| && s[m] == SPACE)
  }

  /**
    How much is quoted. The whole sentence when it has at most 160 characters without the white space
    around it. Otherwise the cut is the nearest to 70 bytes before the match, and to 70 bytes after
    it, that is not inside a word, and none that is farther from the match than the sentence.
  */
  lemma HowMuchIsQuoted(s: Bytes, i: nat, j: nat)
    requires Match(s, i, j)
    ensures var a, b := SentenceStart(s, i), EndFrom(s, j);
      Valid(TrimSpace(s[a..b])) &&
      if RuneCount(TrimSpace(s[a..b])) <= 160 then From(s, i, j) == a && To(s, i, j) == b
      else
        && AfterSpace(s, From(s, i, j), a) && From(s, i, j) <= Max(i - 70, a)
        && (forall m | From(s, i, j) < m <= Max(i - 70, a) :: !AfterSpace(s, m, a))
        && BeforeSpace(s, To(s, i, j), b) && To(s, i, j) >= Min(j + 70, b)
        && (forall m | Min(j + 70, b) <= m < To(s, i, j) :: !BeforeSpace(s, m, b))
  {
    hide Valid, TrimSpace, CutStart, CutEnd, AfterSpace, BeforeSpace;
    EndsAreBoundaries(s, i, j);
    TrimmedIsValid(s, SentenceStart(s, i), EndFrom(s, j));
    WhereItIsCut(s, i, j);
  }

  lemma WhereItIsCut(s: Bytes, i: nat, j: nat)
    requires i <= j <= |s|
    ensures var a := SentenceStart(s, i);
      && AfterSpace(s, CutStart(s, i), a) && CutStart(s, i) <= Max(i - 70, a)
      && (forall m | CutStart(s, i) < m <= Max(i - 70, a) :: !AfterSpace(s, m, a))
    ensures var b := EndFrom(s, j);
      && BeforeSpace(s, CutEnd(s, j), b) && CutEnd(s, j) >= Min(j + 70, b)
      && (forall m | Min(j + 70, b) <= m < CutEnd(s, j) :: !BeforeSpace(s, m, b))
  {
  }

  lemma TrimmedIsValid(s: Bytes, a: nat, b: nat)
    requires Valid(s) && Boundary(s, a) && Boundary(s, b) && a <= b
    ensures Valid(TrimSpace(s[a..b]))
  {
    SliceIsValid(s, a, b);
    var x, y := TrimIsSlice(s[a..b]);
  }

  /**
    The passage is a quote. It is one contiguous stretch of whole characters of s, trimmed from
    a stretch that covers the whole match, with an ellipsis at an end exactly where that end is
    inside the sentence. The sentence reaches to the nearest break on either side of the match.
  */
  lemma PassageIsQuote(s: Bytes, i: nat, j: nat, quote: Bytes) returns (a: nat, b: nat)
    requires Match(s, i, j) && quote == TrimSpace(s[From(s, i, j)..To(s, i, j)])
    ensures From(s, i, j) <= i && j <= To(s, i, j) && Boundary(s, From(s, i, j)) && Boundary(s, To(s, i, j))
    ensures From(s, i, j) <= a <= b <= To(s, i, j) && Boundary(s, a) && Boundary(s, b)
    ensures quote == s[a..b] && Valid(quote)
    ensures forall m | SentenceStart(s, i) < m < i || j < m < EndFrom(s, j) :: !BreakAt(s, m)
  {
    EndsAreBoundaries(s, i, j);
    a, b := TrimmedWithin(s, From(s, i, j), To(s, i, j), quote);
  }

  lemma TrimmedWithin(s: Bytes, from: nat, to: nat, out: Bytes) returns (a: nat, b: nat)
    requires Valid(s) && Boundary(s, from) && Boundary(s, to) && from <= to && out == TrimSpace(s[from..to])
    ensures from <= a <= b <= to && Boundary(s, a) && Boundary(s, b) && out == s[a..b] && Valid(out)
  {
    var x, y := TrimmedSlice(s, from, to);
    a, b := SubSlice(s, from, to, x, y, out);
  }

  lemma TrimmedSlice(s: Bytes, from: nat, to: nat) returns (x: nat, y: nat)
    requires Valid(s) && Boundary(s, from) && Boundary(s, to) && from <= to
    ensures x <= y <= to - from && Boundary(s[from..to], x) && Boundary(s[from..to], y)
    ensures TrimSpace(s[from..to]) == s[from..to][x..y] && Valid(s[from..to][x..y])
  {
    SliceIsValid(s, from, to);
    x, y := TrimIsSlice(s[from..to]);
  }

  lemma SubSlice(s: Bytes, from: nat, to: nat, x: nat, y: nat, out: Bytes) returns (a: nat, b: nat)
    requires from <= to <= |s| && x <= y <= to - from && out == s[from..to][x..y] && Boundary(s, to)
    requires Boundary(s[from..to], x) && Boundary(s[from..to], y)
    ensures from <= a <= b <= to && out == s[a..b] && Boundary(s, a) && Boundary(s, b)
  {
    a, b := from + x, from + y;
    var t, u := s[from..to], s[a..b];
    assert |out| == |u|;
    forall k | 0 <= k < |u| ensures out[k] == u[k] {
      assert out[k] == t[x + k] == s[from + x + k];
    }
    if from + x < to { assert t[x] == s[from + x]; }
    if from + y < to { assert t[y] == s[from + y]; }
  }
}
