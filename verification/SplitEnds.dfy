/**
  On which texts splitting ends (split in internal/llm/people.go).

  The inner loop cuts a part off a line while the line is too long. A cut of no bytes leaves the
  line as it was, so the loop goes on for ever.
*/
module SplitEnds {
  import opened Utf8
  import opened SplitText

  /** The inner loop does not end on this line: it comes to a rest that it cuts nothing off. */
  predicate Stuck(line: Bytes, size: nat)
    decreases |line|
  {
    |line| > size && (CutPoint(line, size) == 0 || Stuck(line[CutPoint(line, size)..], size))
  }

  /** The text from a to b is a line of the text. */
  predicate IsLine(text: Bytes, a: nat, b: nat) {
    && a <= b <= |text| && (a > 0 ==> text[a - 1] == NEWLINE) && (b < |text| ==> text[b] == NEWLINE)
    && forall k | a <= k < b :: text[k] != NEWLINE
  }

  /** Some line of the text keeps the loop busy for ever. */
  ghost predicate NeverEnds(text: Bytes, size: nat) {
    exists a: nat, b: nat :: IsLine(text, a, b) && Stuck(text[a..b], size)
  }

  lemma FitsInSlice(text: Bytes, size: nat, a: nat, b: nat)
    requires a <= b <= |text| && Fits(text, size)
    ensures Fits(text[a..b], size)
  {
    var s := text[a..b];
    forall p | 0 <= p < |s| && RuneStart(s[p]) ensures Width(s[p]) <= size {
      assert s[p] == text[a + p];
    }
  }

  /** In a prefix of at most `size` bytes that ends between characters every character fits. */
  lemma ShortPrefixFits(line: Bytes, size: nat, cut: nat, p: nat)
    requires Structured(line) && Boundary(line, cut) && p < cut <= size && RuneStart(line[p])
    ensures Width(line[p]) <= size
  {
    assert CharAt(line, p);
  }

  /** What is cut off a line always fits, so the line fits exactly when its rest does. */
  lemma CutKeepsFits(line: Bytes, size: nat, cut: nat)
    requires Valid(line) && Boundary(line, cut) && cut <= size
    ensures Fits(line, size) <==> Fits(line[cut..], size)
  {
    ValidIsStructured(line);
    var rest := line[cut..];
    if Fits(line, size) {
      FitsInSlice(line, size, cut, |line|);
      assert line[cut..|line|] == rest;
    }
    if Fits(rest, size) {
      forall p | 0 <= p < |line| && RuneStart(line[p]) ensures Width(line[p]) <= size {
        if p < cut { ShortPrefixFits(line, size, cut, p); } else { assert line[p] == rest[p - cut]; }
      }
    }
  }

  /** The loop is stuck on a line exactly when some character of the line is wider than a part. */
  lemma {:induction false} StuckIffTooWide(line: Bytes, size: nat)
    requires Valid(line) && size >= 1
    ensures Stuck(line, size) <==> !Fits(line, size)
    decreases |line|
  {
    hide Fits;
    if |line| <= size {
      CutKeepsFits(line, size, |line|);
      NothingFits(line[|line|..], size);
    } else {
      CutMakesProgressIff(line, size);
      var cut := CutPoint(line, size);
      if cut == 0 {
        TooWide(line, size);
      } else {
        CutAtBoundary(line, cut);
        CutKeepsFits(line, size, cut);
        StuckIffTooWide(line[cut..], size);
      }
    }
  }

  lemma NothingFits(s: Bytes, size: nat)
    requires s == []
    ensures Fits(s, size)
  {
  }

  lemma TooWide(line: Bytes, size: nat)
    requires Valid(line) && line != [] && Width(line[0]) > size
    ensures !Fits(line, size)
  {
    FirstChar(line);
  }

  // ----- The whole text

  /** The end of the line that place p is in. */
  function EndOfLine(text: Bytes, p: nat): (b: nat)
    requires p <= |text|
    ensures p <= b <= |text| && (b < |text| ==> text[b] == NEWLINE) && forall k | p <= k < b :: text[k] != NEWLINE
    decreases |text| - p
  {
    if p == |text| || text[p] == NEWLINE then p else EndOfLine(text, p + 1)
  }

  function StartOfLine(text: Bytes, p: nat): (a: nat)
    requires p <= |text|
    ensures a <= p && (a > 0 ==> text[a - 1] == NEWLINE) && forall k | a <= k < p :: text[k] != NEWLINE
  {
    if p == 0 || text[p - 1] == NEWLINE then p else StartOfLine(text, p - 1)
  }

  /** A line of valid text is valid. */
  lemma LineIsValid(text: Bytes, a: nat, b: nat)
    requires Valid(text) && IsLine(text, a, b)
    ensures Valid(text[a..b])
  {
    if a > 0 { AsciiStandsAlone(text, a - 1); } else if text != [] { FirstChar(text); }
    if b < |text| { AsciiStandsAlone(text, b); }
    SliceIsValid(text, a, b);
  }

  lemma WideLine(text: Bytes, size: nat) returns (a: nat, b: nat)
    requires size >= 1 && !Fits(text, size)
    ensures IsLine(text, a, b) && !Fits(text[a..b], size)
  {
    var p :| 0 <= p < |text| && RuneStart(text[p]) && Width(text[p]) > size;
    a, b := StartOfLine(text, p), EndOfLine(text, p);
    var line := text[a..b];
    assert p < b && line[p - a] == text[p];
  }

  /**
    Splitting never ends exactly on the texts that have a character wider than a part, wherever
    in the text it is. From four bytes on there is no such text.
  */
  lemma NeverEndsIffTooWide(text: Bytes, size: nat)
    requires Valid(text) && size >= 1
    ensures NeverEnds(text, size) <==> !Fits(text, size)
  {
    if NeverEnds(text, size) {
      var a: nat, b: nat :| IsLine(text, a, b) && Stuck(text[a..b], size);
      LineIsValid(text, a, b);
      StuckIffTooWide(text[a..b], size);
      if Fits(text, size) { FitsInSlice(text, size, a, b); }
    }
    if !Fits(text, size) {
      var a, b := WideLine(text, size);
      LineIsValid(text, a, b);
      StuckIffTooWide(text[a..b], size);
    }
  }

  /** Two bytes per part and the text "a€": the first cut takes the letter, and the next one nothing. */
  lemma SmallPartsNeverEnd() returns (text: Bytes)
    ensures Valid(text) && NeverEnds(text, 2)
  {
    text := [97, 0xE2, 0x82, 0xAC];
    assert text[1..] == [0xE2, 0x82, 0xAC] && text[1..][3..] == [];
    assert Width(text[1]) == 3 && RuneStart(text[1]);
    assert !Fits(text, 2);
    NeverEndsIffTooWide(text, 2);
  }
}
