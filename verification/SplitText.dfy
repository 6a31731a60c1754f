/**
  Cutting a page into parts for the language model (split in internal/llm/people.go).

  The text is looked at with a line break after its last line, because that is what the parts
  are cut from: `page` below is the text plus one line break.
*/
module SplitText {
  import opened Utf8

  // ----- Where a long line is cut

  /** strings.LastIndex(line[:n], " ") */
  function LastSpace(line: Bytes, n: nat): (k: int)
    requires n <= |line|
    ensures -1 <= k < n && (k >= 0 ==> line[k] == SPACE) && forall j | k < j < n :: line[j] != SPACE
  {
    if n == 0 then -1 else if line[n - 1] == SPACE then n - 1 else LastSpace(line, n - 1)
  }

  /** Back from p to the start of a character. */
  function BackToStart(line: Bytes, p: nat): (q: nat)
    requires p < |line|
    ensures q <= p && (q > 0 ==> RuneStart(line[q])) && forall r | q < r <= p :: Continuation(line[r])
  {
    if p == 0 || RuneStart(line[p]) then p else BackToStart(line, p - 1)
  }

  /** A part ends before the last space that leaves it something, or else before the last character that does not fit. */
  function CutPoint(line: Bytes, size: nat): (cut: nat)
    requires size < |line|
    ensures (exists j :: 0 < j < size && line[j] == SPACE) ==>
      0 < cut < size && line[cut] == SPACE && forall j | cut < j < size :: line[j] != SPACE
    ensures (forall j | 0 < j < size :: line[j] != SPACE) ==>
      cut <= size && (cut > 0 ==> RuneStart(line[cut])) && forall j | cut < j <= size :: Continuation(line[j])
  {
    if LastSpace(line, size) > 0 then LastSpace(line, size) else BackToStart(line, size)
  }

  lemma CutPointFor(line: Bytes, size: nat, w: nat)
    requires 1 <= size < |line| && FirstCharIs(line, w)
    ensures CutPoint(line, size) > 0 <==> w <= size
    ensures CutPoint(line, size) <= size && Boundary(line, CutPoint(line, size))
  {
  }

  /**
    A cut makes progress exactly when the line's first character fits into a part, and never
    cuts into a character. With a wider first character the loop would cut off nothing for ever.
  */
  lemma CutMakesProgressIff(line: Bytes, size: nat)
    requires Valid(line) && 1 <= size < |line|
    ensures CutPoint(line, size) > 0 <==> Width(line[0]) <= size
    ensures CutPoint(line, size) <= size && Boundary(line, CutPoint(line, size))
  {
  }

  // ----- Parts

  /** Every character fits into a part. Below four bytes this depends on the text. */
  predicate Fits(text: Bytes, size: nat) {
    forall p {:trigger Width(text[p])} | 0 <= p < |text| && RuneStart(text[p]) :: Width(text[p]) <= size
  }

  lemma FourBytesFitAll(text: Bytes, size: nat)
    requires size >= 4
    ensures Fits(text, size)
  {
  }

  /** At most size bytes, or one line of exactly size bytes with its line break. */
  predicate PartOk(part: Bytes, size: nat) {
    || |part| <= size
    || (|part| == size + 1 && part[size] == NEWLINE && forall k | 0 <= k < size :: part[k] != NEWLINE)
  }

  predicate Page(page: Bytes) {
    page != [] && page[|page| - 1] == NEWLINE
  }

  function LineEnd(page: Bytes, p: nat): (k: nat)
    requires Page(page) && p < |page|
    ensures p <= k < |page| && page[k] == NEWLINE && forall j | p <= j < k :: page[j] != NEWLINE
    decreases |page| - p
  {
    if page[p] == NEWLINE then p else LineEnd(page, p + 1)
  }

  /**
    The part from a to b could not be longer. Either it ends with a line, and the next line would
    not fit in any more, or it was cut off a line that is too long, at the cut point.
  */
  ghost predicate Full(page: Bytes, size: nat, a: nat, b: nat)
    requires Page(page) && a <= b < |page|
  {
    if a < b && page[b - 1] == NEWLINE then LineEnd(page, b) + 1 - a > size
    else LineEnd(page, a) - a > size && b == a + CutPoint(page[a..LineEnd(page, a)], size)
  }

  /** The parts are the stretches of the page between consecutive cuts, no cut is inside a character, and all are full. */
  ghost predicate CutFrom(page: Bytes, size: nat, parts: seq<Bytes>, cuts: seq<nat>)
    requires Page(page)
  {
    && |cuts| == |parts| + 1 && cuts[0] == 0
    && (forall i | 0 <= i < |cuts| :: cuts[i] <= |page| && Boundary(page, cuts[i]))
    && forall i {:trigger parts[i]} | 0 <= i < |parts| ::
         && cuts[i] <= cuts[i + 1] && parts[i] == page[cuts[i]..cuts[i + 1]] && PartOk(parts[i], size)
         && (cuts[i + 1] < |page| ==> Full(page, size, cuts[i], cuts[i + 1]))
  }

  lemma OneMorePart(page: Bytes, size: nat, parts: seq<Bytes>, cuts: seq<nat>, p: Bytes, to: nat)
    requires Page(page) && CutFrom(page, size, parts, cuts) && cuts[|parts|] <= to && Boundary(page, to)
    requires p == page[cuts[|parts|]..to] && PartOk(p, size)
    requires to < |page| ==> Full(page, size, cuts[|parts|], to)
    ensures CutFrom(page, size, parts + [p], cuts + [to])
  {
    var parts', cuts' := parts + [p], cuts + [to];
    forall i | 0 <= i < |parts'|
      ensures cuts'[i] <= cuts'[i + 1] && parts'[i] == page[cuts'[i]..cuts'[i + 1]] && PartOk(parts'[i], size)
      ensures cuts'[i + 1] < |page| ==> Full(page, size, cuts'[i], cuts'[i + 1])
    {
      assert i < |parts| ==> parts'[i] == parts[i];
    }
  }

  /** Between two steps: the parts so far, and in b the whole lines, if any, that the builder holds up to pos. */
  ghost predicate Holds(page: Bytes, size: nat, parts: seq<Bytes>, cuts: seq<nat>, b: Bytes, pos: nat)
    requires Page(page)
  {
    && CutFrom(page, size, parts, cuts) && cuts[|parts|] <= pos && Boundary(page, pos)
    && b == page[cuts[|parts|]..pos] && PartOk(b, size) && (b != [] ==> b[|b| - 1] == NEWLINE)
  }

  /** What is in the builder becomes a part, when there is anything in it. */
  function Flushed(parts: seq<Bytes>, b: Bytes): seq<Bytes> {
    if |b| > 0 then parts + [b] else parts
  }

  ghost function FlushedCuts(cuts: seq<nat>, b: Bytes, pos: nat): seq<nat> {
    if |b| > 0 then cuts + [pos] else cuts
  }

  /** The builder is emptied when the line that follows has no room in it. */
  lemma Flush(page: Bytes, size: nat, parts: seq<Bytes>, cuts: seq<nat>, b: Bytes, pos: nat)
    requires Page(page) && Holds(page, size, parts, cuts, b, pos) && pos < |page|
    requires |b| + LineEnd(page, pos) + 1 - pos > size
    ensures Holds(page, size, Flushed(parts, b), FlushedCuts(cuts, b, pos), [], pos)
  {
    if |b| > 0 {
      OneMorePart(page, size, parts, cuts, b, pos);
    }
  }

  lemma CutOff(page: Bytes, size: nat, parts: seq<Bytes>, cuts: seq<nat>, b: Bytes, pos: nat, to: nat)
    requires Page(page) && Holds(page, size, parts, cuts, b, pos) && pos < to <= pos + size && Boundary(page, to)
    requires pos < |page| && LineEnd(page, pos) - pos > size
    requires to == pos + CutPoint(page[pos..LineEnd(page, pos)], size)
    ensures Holds(page, size, Flushed(parts, b) + [page[pos..to]], FlushedCuts(cuts, b, pos) + [to], [], to)
  {
    Flush(page, size, parts, cuts, b, pos);
    OneMorePart(page, size, Flushed(parts, b), FlushedCuts(cuts, b, pos), page[pos..to], to);
  }

  /** A line and its break go into the builder, which is empty or has room for them. */
  lemma Append(page: Bytes, size: nat, parts: seq<Bytes>, cuts: seq<nat>, b: Bytes, pos: nat,
               line: Bytes, eol: nat)
    requires Page(page) && Holds(page, size, parts, cuts, b, pos) && pos <= eol < |page| && page[eol] == NEWLINE
    requires line == page[pos..eol]
    requires (forall k | pos <= k < eol :: page[k] != NEWLINE) && Boundary(page, eol + 1)
    requires eol - pos <= size && (b == [] || |b| + (eol - pos) + 1 <= size)
    ensures Holds(page, size, parts, cuts, b + line + [NEWLINE], eol + 1)
  {
    var from := cuts[|parts|];
    assert b + line == page[from..eol];
    assert page[from..eol] + [NEWLINE] == page[from..eol + 1];
  }

  // ----- The whole split

  /**
    `all` are the parts that are cut, `cuts` the places where. After the last cut only white space
    is left, too little to be cut again, or nothing is left and the last part is not blank.
  */
  ghost predicate AllParts(page: Bytes, size: nat, all: seq<Bytes>, cuts: seq<nat>)
    requires Page(page)
  {
    && CutFrom(page, size, all, cuts)
    && var rest := page[cuts[|all|]..];
       if rest == [] then all != [] && !Blank(all[|all| - 1]) else Blank(rest) && PartOk(rest, size)
  }

  /** The first `max` parts come back, and `unread` counts exactly the bytes of the others. */
  ghost predicate Splits(page: Bytes, size: nat, max: nat, parts: seq<Bytes>, unread: nat)
    requires Page(page)
  {
    exists all, cuts :: AllParts(page, size, all, cuts) && FirstOf(all, cuts, max, parts, unread)
  }

  ghost predicate FirstOf(all: seq<Bytes>, cuts: seq<nat>, max: nat, parts: seq<Bytes>, unread: nat) {
    && |cuts| == |all| + 1 && parts == all[..if |all| <= max then |all| else max]
    && unread + cuts[|parts|] == cuts[|all|]
  }

  method Split(text: Bytes, size: nat, max: nat) returns (parts: seq<Bytes>, unread: nat)
    requires Valid(text) && size >= 1 && Fits(text, size)
    ensures Splits(text + [NEWLINE], size, max, parts, unread)
  {
    var page := text + [NEWLINE];
    PageOf(text, size);
    var b;
    ghost var cuts;
    parts, b, cuts := CutLines(page, size);
    KeepOrDrop(page, size, parts, cuts, b);
    if !Blank(b) {
      parts, cuts := parts + [b], cuts + [|page|];
    }
    parts, unread := FirstParts(page, size, max, parts, cuts);
  }

  method FirstParts(page: Bytes, size: nat, max: nat, all: seq<Bytes>, ghost cuts: seq<nat>)
    returns (parts: seq<Bytes>, unread: nat)
    requires Page(page) && CutFrom(page, size, all, cuts)
    ensures FirstOf(all, cuts, max, parts, unread)
  {
    parts, unread := all, 0;
    if |parts| > max {
      unread := BytesOf(parts[max..]);
      BytesBetweenCuts(page, size, parts, cuts, max);
      parts := parts[..max];
    }
  }

  /** What is left in the builder is the rest of the page. It becomes a part unless it is blank. */
  lemma KeepOrDrop(page: Bytes, size: nat, parts: seq<Bytes>, cuts: seq<nat>, b: Bytes)
    requires Page(page) && Holds(page, size, parts, cuts, b, |page|) && b != []
    ensures if Blank(b) then AllParts(page, size, parts, cuts) else AllParts(page, size, parts + [b], cuts + [|page|])
  {
    assert page[cuts[|parts|]..] == b;
    OneMorePart(page, size, parts, cuts, b, |page|);
  }

  /** The outer loop, line by line. */
  method CutLines(page: Bytes, size: nat) returns (parts: seq<Bytes>, b: Bytes, ghost cuts: seq<nat>)
    requires Structured(page) && Fits(page, size) && size >= 1 && Page(page)
    requires Holds(page, size, [], [0], [], 0)
    ensures Holds(page, size, parts, cuts, b, |page|) && b != []
  {
    hide Holds, Structured, Fits;
    parts, cuts, b := [], [0], [];
    var pos := 0;
    while pos < |page|
      invariant 0 <= pos <= |page| && (pos > 0 ==> b != [])
      invariant Holds(page, size, parts, cuts, b, pos)
    {
      parts, b, cuts, pos := CutLine(page, parts, b, size, cuts, pos);
    }
  }

  lemma AfterBreak(page: Bytes, eol: nat)
    requires Structured(page) && eol < |page| && page[eol] == NEWLINE
    ensures Boundary(page, eol + 1)
  {
    assert CharAt(page, eol);
  }

  /** One line of the page, which starts at pos. */
  method CutLine(page: Bytes, parts0: seq<Bytes>, b0: Bytes, size: nat, ghost cuts0: seq<nat>, pos0: nat)
    returns (parts: seq<Bytes>, b: Bytes, ghost cuts: seq<nat>, pos: nat)
    requires Structured(page) && Fits(page, size) && size >= 1 && Page(page)
    requires pos0 < |page| && Holds(page, size, parts0, cuts0, b0, pos0)
    ensures pos0 < pos <= |page| && Holds(page, size, parts, cuts, b, pos) && b != []
  {
    hide Holds, Structured, Fits, LineEnd, Flushed, FlushedCuts;
    var eol := LineEnd(page, pos0);
    AfterBreak(page, eol);
    var line;
    parts, b, line, cuts, pos := CutLongLine(page, parts0, b0, page[pos0..eol], size, cuts0, pos0, eol);
    if |b| + |line| + 1 > size && |b| > 0 {
      Flush(page, size, parts, cuts, b, pos);
      parts, cuts, b := Flushed(parts, b), FlushedCuts(cuts, b, pos), [];
    }
    Append(page, size, parts, cuts, b, pos, line, eol);
    b := b + line + [NEWLINE];
    pos := eol + 1;
  }

  lemma PageOf(text: Bytes, size: nat)
    requires Valid(text) && size >= 1 && Fits(text, size)
    ensures Structured(text + [NEWLINE]) && Fits(text + [NEWLINE], size)
    ensures Holds(text + [NEWLINE], size, [], [0], [], 0)
  {
    Joined(text, [NEWLINE]);
    ValidIsStructured(text + [NEWLINE]);
  }

  /** The inner loop: while the line is too long, cut a part off it. */
  method CutLongLine(page: Bytes, parts0: seq<Bytes>, b0: Bytes, line0: Bytes, size: nat,
                     ghost cuts0: seq<nat>, pos0: nat, eol: nat)
    returns (parts: seq<Bytes>, b: Bytes, line: Bytes, ghost cuts: seq<nat>, pos: nat)
    requires Structured(page) && Fits(page, size) && size >= 1 && Page(page)
    requires Holds(page, size, parts0, cuts0, b0, pos0)
    requires pos0 <= eol < |page| && eol == LineEnd(page, pos0) && line0 == page[pos0..eol]
    ensures Holds(page, size, parts, cuts, b, pos)
    ensures pos0 <= pos <= eol && line == page[pos..eol] && |line| <= size && LineEnd(page, pos) == eol
  {
    hide CutFrom, Fits, Structured;
    parts, b, line, cuts, pos := parts0, b0, line0, cuts0, pos0;
    while |line| > size
      invariant Holds(page, size, parts, cuts, b, pos)
      invariant pos0 <= pos <= eol && line == page[pos..eol] && LineEnd(page, pos) == eol
      decreases |line|
    {
      var cut := FindCut(line, size);
      CutInside(page, size, pos, eol, cut);
      CutOff(page, size, parts, cuts, b, pos, pos + cut);
      parts, cuts := Flushed(parts, b) + [line[..cut]], FlushedCuts(cuts, b, pos) + [pos + cut];
      b, line, pos := [], line[cut..], pos + cut;
    }
  }

  method FindCut(line: Bytes, size: nat) returns (cut: nat)
    requires size < |line|
    ensures cut == CutPoint(line, size)
  {
    var space := LastSpace(line, size);
    if space > 0 {
      return space;
    }
    cut := size;
    while cut > 0 && !RuneStart(line[cut])
      invariant 0 <= cut <= size && BackToStart(line, cut) == BackToStart(line, size)
    {
      cut := cut - 1;
    }
  }

  /** The cut of a line of the page is a place between two characters of the page, past the line's start. */
  lemma CutInside(page: Bytes, size: nat, pos: nat, eol: nat, cut: nat)
    requires Structured(page) && Fits(page, size) && Boundary(page, pos) && Boundary(page, eol)
    requires size >= 1 && pos + size < eol && cut == CutPoint(page[pos..eol], size)
    ensures 1 <= cut <= size && Boundary(page, pos + cut)
    ensures page[pos..eol][..cut] == page[pos..pos + cut] && page[pos..eol][cut..] == page[pos + cut..eol]
  {
    var line := page[pos..eol];
    FirstCharOfLine(page, pos, eol);
    CutPointFor(line, size, Width(page[pos]));
    assert line[cut] == page[pos + cut];
  }

  lemma FirstCharOfLine(page: Bytes, pos: nat, eol: nat)
    requires Structured(page) && Boundary(page, pos) && Boundary(page, eol) && pos < eol
    ensures FirstCharIs(page[pos..eol], Width(page[pos]))
  {
    assert CharAt(page, pos);
  }

  // ----- What the cuts mean for the bytes

  function BytesOf(parts: seq<Bytes>): nat {
    if parts == [] then 0 else |parts[0]| + BytesOf(parts[1..])
  }

  lemma {:induction false} BytesBetweenCuts(page: Bytes, size: nat, parts: seq<Bytes>, cuts: seq<nat>, n: nat)
    requires Page(page) && CutFrom(page, size, parts, cuts) && n <= |parts|
    ensures BytesOf(parts[n..]) + cuts[n] == cuts[|parts|]
    decreases |parts| - n
  {
    if n < |parts| {
      BytesBetweenCuts(page, size, parts, cuts, n + 1);
      assert parts[n..][1..] == parts[n + 1..];
      assert parts[n..][0] == parts[n];
    }
  }

  function Flat(parts: seq<Bytes>, n: nat): Bytes
    requires n <= |parts|
  {
    if n == 0 then [] else Flat(parts, n - 1) + parts[n - 1]
  }

  /** All parts in order, with the dropped tail, are the page byte for byte. */
  lemma {:induction false} PartsJoinToPage(page: Bytes, size: nat, parts: seq<Bytes>, cuts: seq<nat>, n: nat)
    requires Page(page) && CutFrom(page, size, parts, cuts) && n <= |parts|
    ensures Flat(parts, n) + page[cuts[n]..] == page
  {
    hide CutFrom, Full, PartOk;
    CutsOfParts(page, size, parts, cuts);
    if n == 0 {
      assert page[0..] == page;
    } else {
      PartsJoinToPage(page, size, parts, cuts, n - 1);
      PartMayBe(page, size, parts, cuts, n - 1);
      NextStretch(page, Flat(parts, n - 1), cuts[n - 1], cuts[n]);
    }
  }

  lemma EveryPartIsValid(page: Bytes, size: nat, parts: seq<Bytes>, cuts: seq<nat>, i: nat)
    requires Page(page) && Valid(page) && CutFrom(page, size, parts, cuts) && i < |parts|
    ensures Valid(parts[i])
  {
    var part := parts[i];
    assert cuts[i] <= cuts[i + 1] <= |page|;
    SliceIsValid(page, cuts[i], cuts[i + 1]);
  }

  lemma NextStretch(page: Bytes, before: Bytes, a: nat, b: nat)
    requires a <= b <= |page| && before + page[a..] == page
    ensures before + page[a..b] + page[b..] == page
  {
    assert page[a..] == page[a..b] + page[b..];
  }

  // ----- The specification leaves no choice

  /** A stretch of the page that may be a part. */
  ghost predicate MayBePart(page: Bytes, size: nat, a: nat, b: nat)
    requires Page(page)
  {
    a <= b <= |page| && PartOk(page[a..b], size) && (b < |page| ==> Full(page, size, a, b))
  }

  lemma NoSecondCut(page: Bytes, size: nat, a: nat, b: nat, c: nat)
    requires Page(page) && MayBePart(page, size, a, b) && MayBePart(page, size, a, c)
    ensures b >= c
  {
  }

  lemma CutsOfParts(page: Bytes, size: nat, parts: seq<Bytes>, cuts: seq<nat>)
    requires Page(page) && CutFrom(page, size, parts, cuts)
    ensures |cuts| == |parts| + 1 && cuts[0] == 0 && forall i | 0 <= i < |cuts| :: cuts[i] <= |page|
  {
  }

  lemma PartMayBe(page: Bytes, size: nat, parts: seq<Bytes>, cuts: seq<nat>, i: nat)
    requires Page(page) && CutFrom(page, size, parts, cuts) && i < |parts|
    ensures |cuts| == |parts| + 1 && MayBePart(page, size, cuts[i], cuts[i + 1]) && parts[i] == page[cuts[i]..cuts[i + 1]]
  {
    var part := parts[i];
    assert cuts[i] <= cuts[i + 1] <= |page|;
  }

  /** Any two ways to cut a page as specified agree, as far as both go. */
  lemma {:induction false} PartsAreDetermined(
    page: Bytes, size: nat, xs: seq<Bytes>, xcuts: seq<nat>, ys: seq<Bytes>, ycuts: seq<nat>, n: nat)
    requires Page(page) && CutFrom(page, size, xs, xcuts) && CutFrom(page, size, ys, ycuts)
    requires n <= |xs| && n <= |ys|
    ensures xcuts[n] == ycuts[n] && xs[..n] == ys[..n]
  {
    hide CutFrom, MayBePart;
    CutsOfParts(page, size, xs, xcuts);
    CutsOfParts(page, size, ys, ycuts);
    if n > 0 {
      PartMayBe(page, size, xs, xcuts, n - 1);
      PartMayBe(page, size, ys, ycuts, n - 1);
      PartsAreDetermined(page, size, xs, xcuts, ys, ycuts, n - 1);
      NoSecondCut(page, size, xcuts[n - 1], xcuts[n], ycuts[n]);
      NoSecondCut(page, size, xcuts[n - 1], ycuts[n], xcuts[n]);
      assert xs[..n] == xs[..n - 1] + [xs[n - 1]] && ys[..n] == ys[..n - 1] + [ys[n - 1]];
    }
  }

  lemma BlankNothing()
    ensures Blank([])
  {
  }

  lemma AllPartsAreDetermined(page: Bytes, size: nat, xs: seq<Bytes>, xcuts: seq<nat>, ys: seq<Bytes>, ycuts: seq<nat>)
    requires Page(page) && AllParts(page, size, xs, xcuts) && AllParts(page, size, ys, ycuts)
    ensures |xs| >= |ys|
  {
    hide CutFrom, Full, TrimSpace;
    assert Blank([]) by { BlankNothing(); }
    if |xs| < |ys| {
      var n := |xs|;
      CutsOfParts(page, size, xs, xcuts);
      var end := xcuts[n];
      PartsAreDetermined(page, size, xs, xcuts, ys, ycuts, n);
      PartMayBe(page, size, ys, ycuts, n);
      if end < |page| {
        assert page[end..] == page[end..|page|];
        NoSecondCut(page, size, end, ycuts[n + 1], |page|);
      }
      AfterTheEnd(page, size, ys, ycuts, n + 1);
    }
  }

  /** Once a part reaches the end of the page, only empty parts could follow, and the last part is not blank. */
  lemma {:induction false} AfterTheEnd(page: Bytes, size: nat, ys: seq<Bytes>, cuts: seq<nat>, n: nat)
    requires Page(page) && CutFrom(page, size, ys, cuts) && 1 <= n <= |ys| && cuts[n] == |page|
    ensures cuts[|ys|] == |page| && (n < |ys| ==> ys[|ys| - 1] == [])
    decreases |ys| - n
  {
    if n < |ys| {
      PartMayBe(page, size, ys, cuts, n);
      AfterTheEnd(page, size, ys, cuts, n + 1);
    }
  }

  /** What split returns is determined by its specification, to the last byte. */
  lemma SplitIsDetermined(page: Bytes, size: nat, max: nat, p: seq<Bytes>, u: nat, q: seq<Bytes>, v: nat)
    requires Page(page) && Splits(page, size, max, p, u) && Splits(page, size, max, q, v)
    ensures p == q && u == v
  {
    hide CutFrom, PartOk, Blank;
    var xs, xcuts :| AllParts(page, size, xs, xcuts) && FirstOf(xs, xcuts, max, p, u);
    var ys, ycuts :| AllParts(page, size, ys, ycuts) && FirstOf(ys, ycuts, max, q, v);
    AllPartsAreDetermined(page, size, xs, xcuts, ys, ycuts);
    AllPartsAreDetermined(page, size, ys, ycuts, xs, xcuts);
    PartsAreDetermined(page, size, xs, xcuts, ys, ycuts, |xs|);
    PartsAreDetermined(page, size, xs, xcuts, ys, ycuts, |p|);
    assert xs[..|xs|] == xs && ys[..|ys|] == ys;
  }
}
