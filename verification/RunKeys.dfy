/**
  The keys of a run's jobs and the SQL that finds them again (internal/pipeline/schedule.go).

  Keys are text. EnqueueDue and its helpers build them with Sprintf, StopRun and RunNow find
  them with LIKE, and EndInterrupted reads the run's number back out of them.
*/
module RunKeys {
  import opened Prelude

  // ----- Numbers as text

  function Digit(d: nat): char
    requires d < 10
  {
    "0123456789"[d]
  }

  /** fmt.Sprint of a number that is not negative. */
  function Dec(n: nat): string {
    if n < 10 then [Digit(n)] else Dec(n / 10) + [Digit(n % 10)]
  }

  function DigitValue(c: char): Option<nat> {
    if '0' <= c <= '9' then Some((c - '0') as nat) else None
  }

  /** The cast to bigint, for text without a sign. */
  function Parse(s: string): Option<nat> {
    if s == "" then None
    else
      var d := DigitValue(s[|s| - 1]);
      if |s| == 1 then d
      else
        var rest := Parse(s[..|s| - 1]);
        if d.Some? && rest.Some? then Some(10 * rest.value + d.value) else None
  }

  lemma DigitComesBack(d: nat)
    requires d < 10
    ensures DigitValue(Digit(d)) == Some(d) && '0' <= Digit(d) <= '9'
  {
  }

  lemma {:induction false} ParseDec(n: nat)
    ensures Parse(Dec(n)) == Some(n)
    ensures forall i | 0 <= i < |Dec(n)| :: '0' <= Dec(n)[i] <= '9'
  {
    hide Digit, DigitValue;
    DigitComesBack(n % 10);
    if n >= 10 {
      ParseDec(n / 10);
      var s := Dec(n);
      assert s[..|s| - 1] == Dec(n / 10);
    }
  }

  // ----- Keys

  /** fmt.Sprintf("run:%d:<what>:%d", run, item) */
  function RunKey(run: nat, what: string, item: nat): string {
    "run:" + Dec(run) + ":" + what + ":" + Dec(item)
  }

  ghost predicate Built(key: string) {
    exists run, what, item :: key == RunKey(run, what, item)
  }

  /** split_part(s, ':', n) */
  function SplitPart(s: string, n: nat): string
    requires n >= 1
    decreases n, |s|
  {
    if s == "" then ""
    else if s[0] == ':' then (if n == 1 then "" else SplitPart(s[1..], n - 1))
    else if n == 1 then [s[0]] + SplitPart(s[1..], n)
    else SplitPart(s[1..], n)
  }

  predicate IsRunKey(key: string) {
    "run:" <= key
  }

  /** The run a key belongs to, read as EndInterrupted reads it. */
  function RunOf(key: string): Option<nat> {
    if IsRunKey(key) then Parse(SplitPart(key, 2)) else None
  }

  // ----- LIKE

  /** SQL LIKE for patterns without the escape character. */
  predicate Like(pattern: string, s: string)
    decreases |pattern|, |s|
  {
    if pattern == "" then s == ""
    else if pattern[0] == '%' then Like(pattern[1..], s) || (s != "" && Like(pattern, s[1..]))
    else s != "" && (pattern[0] == '_' || pattern[0] == s[0]) && Like(pattern[1..], s[1..])
  }

  /** 'run:' || r || ':%' */
  function Pattern(run: nat): string {
    "run:" + Dec(run) + ":" + "%"
  }

  predicate Plain(p: string) {
    '%' !in p && '_' !in p
  }

  lemma {:induction false} AnythingMatchesPercent(s: string)
    ensures Like("%", s)
  {
    if s != "" { AnythingMatchesPercent(s[1..]); }
  }

  lemma {:induction false} LikeIsPrefix(p: string, s: string)
    requires Plain(p)
    ensures Like(p + "%", s) <==> p <= s
  {
    if p == "" {
      assert p + "%" == "%";
      AnythingMatchesPercent(s);
    } else {
      assert (p + "%")[1..] == p[1..] + "%";
      if s != "" {
        LikeIsPrefix(p[1..], s[1..]);
        assert p <= s <==> p[0] == s[0] && p[1..] <= s[1..];
      }
    }
  }

  lemma {:induction false} FirstPart(head: string, tail: string)
    requires ':' !in head
    ensures SplitPart(head + ":" + tail, 1) == head
  {
    var s := head + ":" + tail;
    if head != "" {
      assert s[1..] == head[1..] + ":" + tail;
      FirstPart(head[1..], tail);
    }
  }

  lemma SecondPart(head: string, tail: string)
    requires ':' !in head
    ensures SplitPart("run:" + head + ":" + tail, 2) == head
  {
    var s := "run:" + head + ":" + tail;
    assert s[1..][1..][1..][1..] == head + ":" + tail;
    FirstPart(head, tail);
    assert SplitPart(s, 2) == SplitPart(s[1..], 2) == SplitPart(s[1..][1..], 2) == SplitPart(s[1..][1..][1..], 2);
  }

  /** Whatever follows, text that starts with a run's prefix belongs to that run and to no other. */
  lemma PrefixDecidesRun(run: nat, rest: string)
    ensures RunOf("run:" + Dec(run) + ":" + rest) == Some(run)
  {
    ParseDec(run);
    SecondPart(Dec(run), rest);
    var key := "run:" + Dec(run) + ":" + rest;
    assert key[..4] == "run:";
  }

  /**
    The pattern of run r matches a built key exactly when the key was built for r, so run 1
    never touches run 12, and the key's second field gives the run back.
  */
  lemma PatternPicksRun(r: nat, run: nat, what: string, item: nat)
    ensures Like(Pattern(r), RunKey(run, what, item)) <==> r == run
    ensures RunOf(RunKey(run, what, item)) == Some(run)
  {
    var key := RunKey(run, what, item);
    var rest := what + ":" + Dec(item);
    assert key == "run:" + Dec(run) + ":" + rest;
    PrefixDecidesRun(run, rest);
    PatternMatch(r, key);
    if r == run {
      assert key[..|"run:" + Dec(r) + ":"|] == "run:" + Dec(r) + ":";
    }
  }

  /** For any key at all, a match of the pattern of run r means that the key belongs to r. */
  lemma PatternMatch(r: nat, key: string)
    ensures Like(Pattern(r), key) <==> "run:" + Dec(r) + ":" <= key
    ensures Like(Pattern(r), key) ==> RunOf(key) == Some(r)
  {
    var p := "run:" + Dec(r) + ":";
    ParseDec(r);
    assert Plain(p);
    LikeIsPrefix(p, key);
    if p <= key {
      assert key == p + key[|p|..];
      PrefixDecidesRun(r, key[|p|..]);
    }
  }

  /** On built keys and on keys that are no run's at all, LIKE and the second field pick out the same run. */
  lemma PatternAgreesWithField(r: nat, key: string)
    requires IsRunKey(key) ==> Built(key)
    ensures Like(Pattern(r), key) <==> RunOf(key) == Some(r)
  {
    if IsRunKey(key) {
      var run, what, item :| key == RunKey(run, what, item);
      PatternPicksRun(r, run, what, item);
    } else {
      PatternMatch(r, key);
    }
  }

  /** Different items of a run have different keys. */
  lemma KeysDiffer(run: nat, what: string, i: nat, j: nat)
    requires RunKey(run, what, i) == RunKey(run, what, j)
    ensures i == j
  {
    var p := "run:" + Dec(run) + ":" + what + ":";
    assert RunKey(run, what, i)[|p|..] == Dec(i) && RunKey(run, what, j)[|p|..] == Dec(j);
    ParseDec(i);
    ParseDec(j);
  }
}
