/**
  Text as bytes in UTF-8, with the parts of Go's utf8 and strings packages that the text
  algorithms of the engine use.
*/
module Utf8 {

  type Byte = b: int | 0 <= b < 256

  type Bytes = seq<Byte>

  const NEWLINE: Byte := 10
  const SPACE: Byte := 32

  predicate Continuation(b: Byte) {
    0x80 <= b < 0xC0
  }

  /** utf8.RuneStart */
  predicate RuneStart(b: Byte) {
    !Continuation(b)
  }

  /** The bytes of a character that starts with b, or 0 when no character does. */
  function Width(b: Byte): nat {
    if b < 0x80 then 1
    else if 0xC2 <= b < 0xE0 then 2
    else if 0xE0 <= b < 0xF0 then 3
    else if 0xF0 <= b < 0xF5 then 4
    else 0
  }

  /** Overlong forms, surrogates and numbers past U+10FFFF are excluded by the second byte. */
  predicate SecondByte(first: Byte, second: Byte) {
    && (first == 0xE0 ==> second >= 0xA0) && (first == 0xED ==> second < 0xA0)
    && (first == 0xF0 ==> second >= 0x90) && (first == 0xF4 ==> second < 0x90)
  }

  predicate StartsWithChar(s: Bytes) {
    && s != [] && 0 < Width(s[0]) <= |s|
    && (forall k | 1 <= k < Width(s[0]) :: Continuation(s[k]))
    && (Width(s[0]) > 1 ==> SecondByte(s[0], s[1]))
  }

  /** utf8.ValidString */
  predicate Valid(s: Bytes) {
    s == [] || (StartsWithChar(s) && Valid(s[Width(s[0])..]))
  }

  /** utf8.RuneCountInString of valid text. */
  function RuneCount(s: Bytes): nat
    requires Valid(s)
  {
    if s == [] then 0 else 1 + RuneCount(s[Width(s[0])..])
  }

  /** A place between two characters. */
  predicate Boundary(s: Bytes, p: int) {
    0 <= p <= |s| && (p < |s| ==> RuneStart(s[p]))
  }

  /** The first character of s: its bytes, and a boundary after them. */
  predicate FirstCharIs(s: Bytes, w: nat) {
    && 1 <= w <= |s| && w == Width(s[0]) && RuneStart(s[0]) && Boundary(s, w)
    && forall k | 1 <= k < w :: Continuation(s[k])
  }

  lemma FirstChar(s: Bytes)
    requires Valid(s) && s != []
    ensures FirstCharIs(s, Width(s[0]))
  {
  }

  lemma PrefixStartsWithChar(s: Bytes, p: nat)
    requires StartsWithChar(s) && Width(s[0]) <= p <= |s|
    ensures StartsWithChar(s[..p]) && s[..p][0] == s[0]
  {
    assert forall k | 0 <= k < p :: s[..p][k] == s[k];
  }

  lemma BoundaryPastFirst(s: Bytes, p: nat)
    requires StartsWithChar(s) && Boundary(s, p) && p > 0
    ensures p >= Width(s[0]) > 0
  {
  }

  /** Cutting valid text at a boundary leaves two valid texts. */
  lemma {:induction false} CutAtBoundary(s: Bytes, p: nat)
    requires Valid(s) && Boundary(s, p)
    ensures Valid(s[..p]) && Valid(s[p..])
  {
    hide StartsWithChar, Width;
    if p == 0 {
      assert s[0..] == s;
    } else {
      BoundaryPastFirst(s, p);
      var w := Width(s[0]);
      RestHasBoundary(s, w, p);
      CutAtBoundary(s[w..], p - w);
      assert s[w..][p - w..] == s[p..];
      assert s[..p][w..] == s[w..][..p - w];
      PrefixStartsWithChar(s, p);
    }
  }

  lemma RestHasBoundary(s: Bytes, w: nat, p: nat)
    requires w <= p && Boundary(s, p)
    ensures Boundary(s[w..], p - w)
  {
    if p < |s| { assert s[w..][p - w] == s[p]; }
  }

  lemma {:induction false} Joined(s: Bytes, t: Bytes)
    requires Valid(s) && Valid(t)
    ensures Valid(s + t)
  {
    hide StartsWithChar, Width;
    if s == [] {
      assert s + t == t;
    } else {
      CharStays(s, t);
      var w := Width(s[0]);
      Joined(s[w..], t);
      assert (s + t)[w..] == s[w..] + t;
    }
  }

  lemma CharStays(s: Bytes, t: Bytes)
    requires StartsWithChar(s)
    ensures StartsWithChar(s + t) && (s + t)[0] == s[0] && 0 < Width(s[0]) <= |s|
  {
  }

  /** An inner part of valid text between two boundaries is valid. */
  lemma SliceIsValid(s: Bytes, a: nat, b: nat)
    requires Valid(s) && Boundary(s, a) && Boundary(s, b) && a <= b
    ensures Valid(s[a..b])
  {
    CutAtBoundary(s, b);
    assert s[..b][a..] == s[a..b];
    if a < b { CutAtBoundary(s[..b], a); }
  }

  /** After an ASCII byte there is always a boundary, and so there is before one. */
  lemma {:induction false} AsciiStandsAlone(s: Bytes, p: nat)
    requires Valid(s) && p < |s| && s[p] < 0x80
    ensures Boundary(s, p) && Boundary(s, p + 1)
  {
    var w := Width(s[0]);
    if p >= w {
      AsciiStandsAlone(s[w..], p - w);
    } else if w < |s| {
      assert s[w..][0] == s[w];
    }
  }

  /** Character by character: every place where a character starts is followed by that character and a boundary. */
  predicate Structured(s: Bytes) {
    Boundary(s, 0) && forall p {:trigger CharAt(s, p)} | 0 <= p < |s| && RuneStart(s[p]) :: CharAt(s, p)
  }

  predicate CharAt(s: Bytes, p: nat)
    requires p < |s|
  {
    && 1 <= Width(s[p]) <= |s| - p && Boundary(s, p + Width(s[p]))
    && forall k | p < k < p + Width(s[p]) :: Continuation(s[k])
  }

  lemma {:induction false} ValidIsStructured(s: Bytes)
    requires Valid(s)
    ensures Structured(s)
  {
    if s != [] {
      FirstChar(s);
      var w := Width(s[0]);
      var t := s[w..];
      ValidIsStructured(t);
      forall p | 0 <= p < |s| && RuneStart(s[p]) ensures CharAt(s, p) {
        if p > 0 {
          assert p >= w && t[p - w] == s[p];
          CharShifts(s, w, p);
        }
      }
    }
  }

  lemma CharShifts(s: Bytes, w: nat, p: nat)
    requires w <= p < |s| && CharAt(s[w..], p - w)
    ensures CharAt(s, p)
  {
  }

  // ----- Unicode white space

  predicate Space2(b: Byte, c: Byte) {
    b == 0xC2 && (c == 0x85 || c == 0xA0)
  }

  predicate Space3(b: Byte, c: Byte, d: Byte) {
    || (b == 0xE1 && c == 0x9A && d == 0x80)
    || (b == 0xE2 && c == 0x80 && (0x80 <= d <= 0x8A || d == 0xA8 || d == 0xA9 || d == 0xAF))
    || (b == 0xE2 && c == 0x81 && d == 0x9F)
    || (b == 0xE3 && c == 0x80 && d == 0x80)
  }

  /** A white-space character of w bytes starts at p. */
  predicate SpaceAt(s: Bytes, p: nat, w: nat) {
    && p + w <= |s|
    && match w
       case 1 => 9 <= s[p] <= 13 || s[p] == SPACE
       case 2 => Space2(s[p], s[p + 1])
       case 3 => Space3(s[p], s[p + 1], s[p + 2])
       case _ => false
  }

  /** The bytes of the white-space character that starts at p, or 0. */
  function SpaceFrom(s: Bytes, p: nat): (w: nat)
    ensures w > 0 ==> SpaceAt(s, p, w)
    ensures w == 0 ==> forall v :: !SpaceAt(s, p, v)
  {
    if SpaceAt(s, p, 1) then 1 else if SpaceAt(s, p, 2) then 2 else if SpaceAt(s, p, 3) then 3 else 0
  }

  /** The bytes of the white-space character that ends at p and starts at a or later, or 0. */
  function SpaceUpTo(s: Bytes, a: nat, p: nat): (w: nat)
    requires a <= p <= |s|
    ensures w <= p - a && (w > 0 ==> SpaceAt(s, p - w, w))
    ensures w == 0 ==> forall q: nat, v: nat | a <= q && q + v == p :: !SpaceAt(s, q, v)
  {
    if a + 1 <= p && SpaceAt(s, p - 1, 1) then 1
    else if a + 2 <= p && SpaceAt(s, p - 2, 2) then 2
    else if a + 3 <= p && SpaceAt(s, p - 3, 3) then 3
    else 0
  }

  /** Where the text starts after its leading white space, looking from p on. */
  function TrimStart(s: Bytes, p: nat): (a: nat)
    requires p <= |s|
    ensures p <= a <= |s| && SpaceFrom(s, a) == 0
    decreases |s| - p
  {
    var w := SpaceFrom(s, p);
    if w == 0 then p else TrimStart(s, p + w)
  }

  /** Where the text from a on ends before its trailing white space, looking from p back. */
  function TrimEnd(s: Bytes, a: nat, p: nat): (b: nat)
    requires a <= p <= |s|
    ensures a <= b <= p && SpaceUpTo(s, a, b) == 0
    decreases p
  {
    var w := SpaceUpTo(s, a, p);
    if w == 0 then p else TrimEnd(s, a, p - w)
  }

  /** strings.TrimSpace */
  function TrimSpace(s: Bytes): Bytes {
    var a := TrimStart(s, 0);
    s[a..TrimEnd(s, a, |s|)]
  }

  predicate Blank(s: Bytes) {
    TrimSpace(s) == []
  }

  /** A white-space character is a character: where one starts is a boundary, and where it ends is another. */
  lemma SpaceIsChar(s: Bytes, p: nat, w: nat)
    requires SpaceAt(s, p, w)
    ensures Boundary(s, p) && w == Width(s[p])
  {
  }

  lemma {:induction false} TrimStartIsBoundary(s: Bytes, p: nat)
    requires Structured(s) && Boundary(s, p)
    ensures Boundary(s, TrimStart(s, p))
    decreases |s| - p
  {
    var w := SpaceFrom(s, p);
    if w > 0 {
      SpaceIsChar(s, p, w);
      assert CharAt(s, p);
      TrimStartIsBoundary(s, p + w);
    }
  }

  lemma {:induction false} TrimEndIsBoundary(s: Bytes, a: nat, p: nat)
    requires a <= p <= |s| && Boundary(s, p)
    ensures Boundary(s, TrimEnd(s, a, p))
    decreases p
  {
    var w := SpaceUpTo(s, a, p);
    if w > 0 {
      SpaceIsChar(s, p - w, w);
      TrimEndIsBoundary(s, a, p - w);
    }
  }

  /** From a to b there are white-space characters only. */
  predicate AllSpace(s: Bytes, a: nat, b: nat)
    decreases b - a
  {
    a == b || (a < b <= |s| && exists w :: 1 <= w <= b - a && SpaceAt(s, a, w) && AllSpace(s, a + w, b))
  }

  lemma {:induction false} TrimStartSkipsSpace(s: Bytes, p: nat)
    requires p <= |s|
    ensures AllSpace(s, p, TrimStart(s, p))
    decreases |s| - p
  {
    var w := SpaceFrom(s, p);
    if w > 0 { TrimStartSkipsSpace(s, p + w); }
  }

  lemma {:induction false} OneMoreSpace(s: Bytes, a: nat, q: nat, w: nat)
    requires a <= q && SpaceAt(s, q, w) && AllSpace(s, a, q)
    ensures AllSpace(s, a, q + w)
    decreases q - a
  {
    if a == q {
      assert AllSpace(s, a + w, q + w);
    } else {
      var v :| 1 <= v <= q - a && SpaceAt(s, a, v) && AllSpace(s, a + v, q);
      OneMoreSpace(s, a + v, q, w);
    }
  }

  lemma {:induction false} TrimEndSkipsSpace(s: Bytes, a: nat, p: nat)
    requires a <= p <= |s|
    ensures AllSpace(s, TrimEnd(s, a, p), p)
    decreases p
  {
    var w := SpaceUpTo(s, a, p);
    if w > 0 {
      TrimEndSkipsSpace(s, a, p - w);
      OneMoreSpace(s, TrimEnd(s, a, p), p - w, w);
    }
  }

  lemma {:induction false} AllSpaceIsTrimmed(s: Bytes, p: nat)
    requires AllSpace(s, p, |s|)
    ensures p <= |s| ==> TrimStart(s, p) == |s|
    decreases |s| - p
  {
    if p < |s| {
      var w :| 1 <= w <= |s| - p && SpaceAt(s, p, w) && AllSpace(s, p + w, |s|);
      OneWidth(s, p, w, SpaceFrom(s, p));
      AllSpaceIsTrimmed(s, p + w);
    }
  }

  lemma OneWidth(s: Bytes, p: nat, v: nat, w: nat)
    requires SpaceAt(s, p, v) && SpaceAt(s, p, w)
    ensures v == w
  {
    SpaceIsChar(s, p, v);
    SpaceIsChar(s, p, w);
  }

  /** Text is blank exactly when it is white space from end to end. */
  lemma BlankMeans(s: Bytes)
    ensures Blank(s) <==> AllSpace(s, 0, |s|)
  {
    hide AllSpace, SpaceAt, SpaceFrom;
    if AllSpace(s, 0, |s|) { AllSpaceIsTrimmed(s, 0); }
    if Blank(s) {
      SpaceToTheEnd(s, TrimStart(s, 0));
      TrimStartSkipsSpace(s, 0);
    }
  }

  /** Nothing is left only when there was nothing from the first character that is no white space on. */
  lemma SpaceToTheEnd(s: Bytes, a: nat)
    requires a <= |s| && SpaceFrom(s, a) == 0 && s[a..TrimEnd(s, a, |s|)] == []
    ensures a == |s|
  {
    TrimEndSkipsSpace(s, a, |s|);
    assert TrimEnd(s, a, |s|) == a;
  }

  /**
    Trimming gives a contiguous slice of whole characters with no white space left at its start or at its
    end, and what it takes away is white space only.
  */
  lemma TrimIsSlice(s: Bytes) returns (a: nat, b: nat)
    requires Valid(s)
    ensures a <= b <= |s| && Boundary(s, a) && Boundary(s, b)
    ensures TrimSpace(s) == s[a..b] && Valid(s[a..b])
    ensures SpaceFrom(s, a) == 0 && SpaceUpTo(s, a, b) == 0
    ensures AllSpace(s, 0, a) && AllSpace(s, b, |s|)
  {
    a := TrimStart(s, 0);
    b := TrimEnd(s, a, |s|);
    TrimStartSkipsSpace(s, 0);
    TrimEndSkipsSpace(s, a, |s|);
    ValidIsStructured(s);
    TrimStartIsBoundary(s, 0);
    TrimEndIsBoundary(s, a, |s|);
    SliceIsValid(s, a, b);
  }
}
