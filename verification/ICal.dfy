/**
  Reading iCalendar text (ParseICal and icalText in internal/extract/ical.go), after RFC 5545.

  A file is written as tokens: the octets of its content lines, the breaks between the lines,
  and the folds that were put into them. Breaks may be CRLF, as the standard says, or a bare
  line feed, which the code accepts too.
*/
module ICal {
  import Utf8Encoding

  // ----- Go's string functions

  /** strings.ReplaceAll(s, what, with) */
  function ReplaceAll(s: string, what: string, with: string): string
    requires what != ""
  {
    if |s| < |what| then s
    else if what <= s then with + ReplaceAll(s[|what|..], what, with)
    else [s[0]] + ReplaceAll(s[1..], what, with)
  }

  /** strings.Split(s, "\n") */
  function Lines(s: string): (ls: seq<string>)
    ensures |ls| >= 1
  {
    if s == "" then [""]
    else
      var rest := Lines(s[1..]);
      if s[0] == '\n' then [""] + rest else [[s[0]] + rest[0]] + rest[1..]
  }

  /** The three replacements at the top of ParseICal. */
  function Unfold(body: string): string {
    ReplaceAll(ReplaceAll(ReplaceAll(body, "\r\n", "\n"), "\n ", ""), "\n\t", "")
  }

  // ----- Files

  datatype Token =
    | Octet(c: char)
    | Break(crlf: bool)
    | Fold(crlf: bool, tab: bool)

  function LineBreak(crlf: bool): string {
    if crlf then "\r\n" else "\n"
  }

  function FoldSpace(tab: bool): string {
    if tab then "\t" else " "
  }

  /** A token as it is written in front of the rest of the file. */
  function Written(t: Token, rest: string): string {
    match t
    case Octet(c) => [c] + rest
    case Break(crlf) => LineBreak(crlf) + rest
    case Fold(crlf, tab) => LineBreak(crlf) + (FoldSpace(tab) + rest)
  }

  /** The file as it is written. */
  function Text(ts: seq<Token>): string {
    if ts == [] then "" else Written(ts[0], Text(ts[1..]))
  }

  /** The content lines that were folded into the file. */
  function Content(ts: seq<Token>): (ls: seq<string>)
    ensures |ls| >= 1
  {
    if ts == [] then [""]
    else
      var rest := Content(ts[1..]);
      match ts[0]
      case Octet(c) => [[c] + rest[0]] + rest[1..]
      case Break(_) => [""] + rest
      case Fold(_, _) => rest
  }

  /** The next line does not start with white space, however often it is folded before its first octet. */
  predicate StartsPlainly(ts: seq<Token>) {
    ts == [] || ts[0].Break? || (ts[0].Octet? && ts[0].c != ' ' && ts[0].c != '\t') || (ts[0].Fold? && StartsPlainly(ts[1..]))
  }

  /** Section 3.1 of RFC 5545: content has no line breaks of its own, and a content line starts with a name. */
  predicate WellFormed(ts: seq<Token>) {
    ts == [] ||
    (&& WellFormed(ts[1..])
     && (ts[0].Octet? ==> ts[0].c != '\r' && ts[0].c != '\n')
     && (ts[0].Break? ==> StartsPlainly(ts[1..])))
  }

  // ----- Unfolding, replacement by replacement

  /** After the first replacement every break is a line feed. */
  function Written1(t: Token, rest: string): string {
    match t
    case Octet(c) => [c] + rest
    case Break(_) => "\n" + rest
    case Fold(_, tab) => if tab then "\n" + ("\t" + rest) else "\n " + rest
  }

  function Text1(ts: seq<Token>): string {
    if ts == [] then "" else Written1(ts[0], Text1(ts[1..]))
  }

  /** After the second the folds with a space are gone. */
  function Text2(ts: seq<Token>): string {
    if ts == [] then ""
    else
      var rest := Text2(ts[1..]);
      match ts[0]
      case Octet(c) => [c] + rest
      case Break(_) => "\n" + rest
      case Fold(_, tab) => if tab then "\n" + ("\t" + rest) else rest
  }

  /** After the third only content and breaks are left. */
  function Text3(ts: seq<Token>): string {
    if ts == [] then ""
    else
      var rest := Text3(ts[1..]);
      match ts[0]
      case Octet(c) => [c] + rest
      case Break(_) => "\n" + rest
      case Fold(_, _) => rest
  }

  /** One octet that starts no match is copied. */
  lemma Copies(c: char, s: string, what: string, with: string)
    requires |what| == 2 && (c != what[0] || s == "" || s[0] != what[1])
    ensures ReplaceAll([c] + s, what, with) == [c] + ReplaceAll(s, what, with)
  {
  }

  lemma Replaces(s: string, what: string, with: string)
    requires |what| == 2
    ensures ReplaceAll(what + s, what, with) == with + ReplaceAll(s, what, with)
  {
  }

  lemma Removes(s: string, what: string)
    requires |what| == 2
    ensures ReplaceAll(what + s, what, "") == ReplaceAll(s, what, "")
  {
  }

  lemma NothingToReplace(what: string, with: string)
    requires what != ""
    ensures ReplaceAll("", what, with) == ""
  {
  }

  lemma TokenLosesReturn(t: Token, rest: string)
    requires t.Octet? ==> t.c != '\r' && t.c != '\n'
    ensures ReplaceAll(Written(t, rest), "\r\n", "\n") == Written1(t, ReplaceAll(rest, "\r\n", "\n"))
  {
    hide ReplaceAll;
    match t
    case Octet(c) => Copies(c, rest, "\r\n", "\n");
    case Break(crlf) => if crlf { Replaces(rest, "\r\n", "\n"); } else { Copies('\n', rest, "\r\n", "\n"); }
    case Fold(crlf, tab) =>
      FoldLosesReturn(rest, crlf, tab);
      var after := ReplaceAll(rest, "\r\n", "\n");
      assert "\n" + (" " + after) == "\n " + after;
  }

  lemma {:induction false} FirstReplacement(ts: seq<Token>)
    requires WellFormed(ts)
    ensures ReplaceAll(Text(ts), "\r\n", "\n") == Text1(ts)
  {
    hide ReplaceAll, Written, Written1;
    if ts == [] {
      NothingToReplace("\r\n", "\n");
    } else {
      FirstReplacement(ts[1..]);
      TokenLosesReturn(ts[0], Text(ts[1..]));
    }
  }

  lemma FoldLosesReturn(rest: string, crlf: bool, tab: bool)
    ensures ReplaceAll(LineBreak(crlf) + (FoldSpace(tab) + rest), "\r\n", "\n")
      == "\n" + (FoldSpace(tab) + ReplaceAll(rest, "\r\n", "\n"))
  {
    hide ReplaceAll;
    var more := FoldSpace(tab) + rest;
    if crlf { Replaces(more, "\r\n", "\n"); } else { Copies('\n', more, "\r\n", "\n"); }
    Copies(FoldSpace(tab)[0], rest, "\r\n", "\n");
  }

  /** What follows a break is neither a space nor a tab, as long as space folds come off first. */
  lemma {:induction false} PlainStart(ts: seq<Token>)
    requires WellFormed(ts) && StartsPlainly(ts)
    ensures Text1(ts) == "" || Text1(ts)[0] != ' '
    ensures Text2(ts) == "" || Text2(ts)[0] != '\t'
  {
    if ts != [] && ts[0].Fold? { PlainStart(ts[1..]); }
  }

  lemma {:induction false} SecondReplacement(ts: seq<Token>)
    requires WellFormed(ts)
    ensures ReplaceAll(Text1(ts), "\n ", "") == Text2(ts)
  {
    if ts != [] {
      var rest := Text1(ts[1..]);
      SecondReplacement(ts[1..]);
      match ts[0]
      case Octet(c) => Copies(c, rest, "\n ", "");
      case Break(_) => PlainStart(ts[1..]); Copies('\n', rest, "\n ", "");
      case Fold(_, tab) =>
        if tab {
          Copies('\t', rest, "\n ", "");
          Copies('\n', "\t" + rest, "\n ", "");
        } else {
          Removes(rest, "\n ");
        }
    }
  }

  lemma {:induction false} ThirdReplacement(ts: seq<Token>)
    requires WellFormed(ts)
    ensures ReplaceAll(Text2(ts), "\n\t", "") == Text3(ts)
  {
    if ts != [] {
      var rest := Text2(ts[1..]);
      ThirdReplacement(ts[1..]);
      match ts[0]
      case Octet(c) => Copies(c, rest, "\n\t", "");
      case Break(_) => PlainStart(ts[1..]); Copies('\n', rest, "\n\t", "");
      case Fold(_, tab) =>
        if tab {
          assert "\n" + ("\t" + rest) == "\n\t" + rest;
          Removes(rest, "\n\t");
        }
    }
  }

  lemma {:induction false} LinesAreContent(ts: seq<Token>)
    requires WellFormed(ts)
    ensures Lines(Text3(ts)) == Content(ts)
  {
    if ts != [] {
      LinesAreContent(ts[1..]);
      if !ts[0].Fold? { assert Text3(ts)[1..] == Text3(ts[1..]); }
    }
  }

  /** However a file's lines were folded, the three replacements and the split give them back. */
  lemma UnfoldingGivesLinesBack(ts: seq<Token>)
    requires WellFormed(ts)
    ensures Lines(Unfold(Text(ts))) == Content(ts)
  {
    FirstReplacement(ts);
    SecondReplacement(ts);
    ThirdReplacement(ts);
    LinesAreContent(ts);
  }

  // ----- Text values

  predicate IsSpace(c: char) {
    || '\t' <= c <= '\r' || c == ' ' || c == '\U{85}' || c == '\U{A0}' || c == '\U{1680}' || '\U{2000}' <= c <= '\U{200A}'
    || c == '\U{2028}' || c == '\U{2029}' || c == '\U{202F}' || c == '\U{205F}' || c == '\U{3000}'
  }

  /** strings.TrimSpace */
  function TrimSpace(s: string): string {
    if s == "" then ""
    else if IsSpace(s[0]) then TrimSpace(s[1..])
    else if IsSpace(s[|s| - 1]) then TrimSpace(s[..|s| - 1])
    else s
  }

  /** The white space of Unicode. */
  lemma SpacesOfUnicode(c: char)
    ensures IsSpace(c) <==> Utf8Encoding.SpaceRune(c as nat)
  {
  }

  predicate AllSpaces(s: string) {
    forall i | 0 <= i < |s| :: IsSpace(s[i])
  }

  /** Trimming takes white space off both ends, all of it and nothing else. */
  lemma {:induction false} TrimMeans(s: string) returns (a: nat, b: nat)
    ensures a <= b <= |s| && TrimSpace(s) == s[a..b] && AllSpaces(s[..a]) && AllSpaces(s[b..])
    ensures a < b ==> !IsSpace(s[a]) && !IsSpace(s[b - 1])
    decreases |s|
  {
    hide IsSpace;
    a, b := 0, |s|;
    if s != "" {
      var n := |s| - 1;
      if IsSpace(s[0]) {
        a, b := TrimMeans(s[1..]);
        SpaceInFront(s, a, b);
        a, b := a + 1, b + 1;
      } else if IsSpace(s[n]) {
        a, b := TrimMeans(s[..n]);
        SpaceBehind(s, a, b);
      }
    }
  }

  lemma SpaceInFront(s: string, a: nat, b: nat)
    requires s != "" && IsSpace(s[0]) && a <= b <= |s| - 1 && AllSpaces(s[1..][..a])
    ensures s[1..][a..b] == s[a + 1..b + 1] && s[1..][b..] == s[b + 1..] && AllSpaces(s[..a + 1])
  {
    assert s[..a + 1] == [s[0]] + s[1..][..a];
  }

  lemma SpaceBehind(s: string, a: nat, b: nat)
    requires s != "" && IsSpace(s[|s| - 1]) && a <= b <= |s| - 1 && AllSpaces(s[..|s| - 1][b..])
    ensures s[..|s| - 1][a..b] == s[a..b] && s[..|s| - 1][..a] == s[..a] && AllSpaces(s[b..])
  {
    assert s[b..] == s[..|s| - 1][b..] + [s[|s| - 1]];
  }

  predicate StartsWithEscape(v: string) {
    |v| >= 2 && v[0] == '\\' && v[1] in {'n', 'N', ',', ';', '\\'}
  }

  function Meaning(c: char): char {
    if c == 'n' || c == 'N' then '\n' else c
  }

  /** The strings.NewReplacer of icalText. */
  function Unescape(v: string): string {
    if v == "" then ""
    else if StartsWithEscape(v) then [Meaning(v[1])] + Unescape(v[2..])
    else [v[0]] + Unescape(v[1..])
  }

  function ICalText(v: string): string {
    TrimSpace(Unescape(v))
  }

  /**
    Section 3.3.11 of RFC 5545: backslash, semicolon and comma are escaped with a backslash, and
    a line break is written as \n or \N, as the writer likes each time.
  */
  predicate IsEscaped(text: string, v: string) {
    if text == "" then v == ""
    else if text[0] == '\n' then |v| >= 2 && v[0] == '\\' && (v[1] == 'n' || v[1] == 'N') && IsEscaped(text[1..], v[2..])
    else if text[0] == '\\' || text[0] == ';' || text[0] == ',' then
      |v| >= 2 && v[0] == '\\' && v[1] == text[0] && IsEscaped(text[1..], v[2..])
    else v != "" && v[0] == text[0] && IsEscaped(text[1..], v[1..])
  }

  lemma {:induction false} EscapedTextComesBack(text: string, v: string)
    requires IsEscaped(text, v)
    ensures Unescape(v) == text
  {
    if text != "" {
      if text[0] == '\n' || text[0] == '\\' || text[0] == ';' || text[0] == ',' {
        EscapedTextComesBack(text[1..], v[2..]);
      } else {
        EscapedTextComesBack(text[1..], v[1..]);
      }
    }
  }

  /** The value of strings.Cut(line, ":"), if there is a colon. */
  function Value(line: string): string {
    if line == "" then "" else if line[0] == ':' then line[1..] else Value(line[1..])
  }

  /** The value is what follows the first colon of the line. */
  lemma {:induction false} ValueAfterName(name: string, v: string)
    requires ':' !in name
    ensures Value(name + ":" + v) == v
  {
    if name != "" {
      ValueAfterName(name[1..], v);
      assert (name + ":" + v)[1..] == name[1..] + ":" + v;
    } else {
      assert (name + ":" + v)[1..] == v;
    }
  }

  // ----- A colon in the name, as in a quoted parameter

  /** The octets that are no white space. */
  function Marks(s: string): nat {
    if s == "" then 0 else Marks(s[1..]) + (if IsSpace(s[0]) then 0 else 1)
  }

  lemma {:induction false} MarksOfBoth(s: string, t: string)
    ensures Marks(s + t) == Marks(s) + Marks(t)
  {
    if s == "" {
      assert s + t == t;
    } else {
      MarksOfBoth(s[1..], t);
      assert (s + t)[1..] == s[1..] + t;
    }
  }

  lemma {:induction false} TrimKeepsMarks(s: string)
    ensures Marks(TrimSpace(s)) == Marks(s)
    decreases |s|
  {
    if s != "" {
      var n := |s| - 1;
      if IsSpace(s[0]) {
        TrimKeepsMarks(s[1..]);
      } else if IsSpace(s[n]) {
        TrimKeepsMarks(s[..n]);
        MarksOfBoth(s[..n], [s[n]]);
        assert s == s[..n] + [s[n]];
      }
    }
  }

  /** No escape reaches into what starts with a colon, so that is read as it would be alone. */
  lemma {:induction false} ColonStandsAlone(p: string, t: string)
    requires t != "" && t[0] == ':'
    ensures Unescape(p + t) == Unescape(p) + Unescape(t)
    decreases |p|
  {
    hide StartsWithEscape, Meaning;
    if p == "" {
      assert p + t == t;
    } else if StartsWithEscape(p) {
      EscapeStays(p, t);
      ColonStandsAlone(p[2..], t);
    } else {
      OctetStays(p, t);
      ColonStandsAlone(p[1..], t);
    }
  }

  lemma EscapeStays(p: string, t: string)
    requires StartsWithEscape(p)
    ensures |p| >= 2 && (p + t)[2..] == p[2..] + t && (p + t)[1] == p[1] && StartsWithEscape(p + t)
  {
  }

  lemma OctetStays(p: string, t: string)
    requires p != "" && !StartsWithEscape(p) && t != "" && t[0] == ':'
    ensures (p + t)[1..] == p[1..] + t && (p + t)[0] == p[0] && !StartsWithEscape(p + t)
  {
  }

  /** The place of the first colon. */
  function FirstColon(name: string): (i: nat)
    requires ':' in name
    ensures i < |name| && name[i] == ':' && ':' !in name[..i]
  {
    if name[0] == ':' then 0 else
      var i := 1 + FirstColon(name[1..]);
      assert name[..i] == [name[0]] + name[1..][..i - 1];
      i
  }

  /** With a colon in the name the value keeps a piece of the name, and trimming never takes that away. */
  lemma ColonInNameShows(name: string, text: string, v: string)
    requires ':' in name && Unescape(v) == text
    ensures ICalText(Value(name + ":" + v)) != TrimSpace(text)
  {
    hide Unescape, TrimSpace, IsSpace;
    var i := FirstColon(name);
    var head, tail := name[..i], name[i + 1..];
    assert name + ":" + v == head + ":" + (tail + ":" + v);
    ValueAfterName(head, tail + ":" + v);
    ReadWithColon(tail, v);
    MoreMarks(Unescape(tail), text);
    TrimKeepsMarks(Unescape(tail) + ":" + text);
    TrimKeepsMarks(text);
  }

  lemma ReadWithColon(tail: string, v: string)
    ensures Unescape(tail + ":" + v) == Unescape(tail) + ":" + Unescape(v)
  {
    ColonStandsAlone(tail, ":" + v);
    assert tail + (":" + v) == tail + ":" + v && (":" + v)[1..] == v;
    assert Unescape(tail) + (":" + Unescape(v)) == Unescape(tail) + ":" + Unescape(v);
  }

  lemma MoreMarks(head: string, text: string)
    ensures Marks(head + ":" + text) > Marks(text)
  {
    MarksOfBoth(head + ":", text);
    MarksOfBoth(head, ":");
  }

  /**
    From the writer's text to the reader's and back: a text property that was escaped, put on a
    line of a file and folded in any way is read back as it was, up to outer white space, if and
    only if the line has no colon before the one that ends its name and parameters.
  */
  lemma PropertyRoundTrip(ts: seq<Token>, i: nat, name: string, text: string, v: string)
    requires WellFormed(ts) && i < |Content(ts)|
    requires IsEscaped(text, v) && Content(ts)[i] == name + ":" + v
    ensures i < |Lines(Unfold(Text(ts)))|
    ensures ICalText(Value(Lines(Unfold(Text(ts)))[i])) == TrimSpace(text) <==> ':' !in name
  {
    UnfoldingGivesLinesBack(ts);
    EscapedTextComesBack(text, v);
    if ':' in name { ColonInNameShows(name, text, v); } else { ValueAfterName(name, v); }
  }

  /** One line, not folded. */
  function OneLine(s: string): seq<Token> {
    seq(|s|, i requires 0 <= i < |s| => Octet(s[i]))
  }

  lemma {:induction false} OneLineIsContent(s: string)
    requires '\r' !in s && '\n' !in s
    ensures WellFormed(OneLine(s)) && Content(OneLine(s)) == [s]
  {
    if s != "" {
      OneLineIsContent(s[1..]);
      assert OneLine(s)[1..] == OneLine(s[1..]);
      assert s == [s[0]] + s[1..];
    }
  }

  lemma {:induction false} NothingEscaped(v: string)
    requires forall c | c in v :: c !in {'\\', ',', ';', '\n'}
    ensures IsEscaped(v, v)
  {
    if v != "" {
      assert v[0] in v && forall c | c in v[1..] :: c in v;
      NothingEscaped(v[1..]);
    }
  }

  /** A description with a quoted parameter that holds a colon: the end of the parameter is read as text. */
  lemma QuotedColonIsMisread() returns (ts: seq<Token>, name: string)
    ensures name == "DESCRIPTION;ALTREP=\"cid:a\"" && WellFormed(ts) && Content(ts) == [name + ":" + "x"] && IsEscaped("x", "x")
    ensures Lines(Unfold(Text(ts))) == [name + ":" + "x"]
    ensures Value(Lines(Unfold(Text(ts)))[0]) == "a\":x"
    ensures ICalText(Value(Lines(Unfold(Text(ts)))[0])) != TrimSpace("x")
  {
    hide Unfold, Text, Unescape, TrimSpace, IsEscaped;
    name := "DESCRIPTION;ALTREP=\"cid:a\"";
    ts := OneLine(name + ":" + "x");
    OneLineIsContent(name + ":" + "x");
    NothingEscaped("x");
    UnfoldingGivesLinesBack(ts);
    var head := "DESCRIPTION;ALTREP=\"cid";
    assert name + ":" + "x" == head + ":" + "a\":x";
    ValueAfterName(head, "a\":x");
    assert name[|head|] == ':';
    PropertyRoundTrip(ts, 0, name, "x", "x");
  }

  /** Text without an escape is read as it is, also when it has a backslash before something else. */
  lemma {:induction false} NoEscapeNoChange(v: string)
    requires forall i | 0 <= i < |v| :: !StartsWithEscape(v[i..])
    ensures Unescape(v) == v
  {
    if v != "" {
      assert v[0..] == v;
      forall i | 0 <= i < |v[1..]| ensures !StartsWithEscape(v[1..][i..]) { assert v[1..][i..] == v[i + 1..]; }
      NoEscapeNoChange(v[1..]);
    }
  }
}
