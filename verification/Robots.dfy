/**
  The robots.txt verdict (internal/fetch/robots.go), after RFC 9309.

  Patterns and paths are octets.
*/
module Robots {

  datatype Rule = Rule(allow: bool, pattern: string)

  // ----- Matching a pattern

  /** strings.Split(s, "*") */
  function SplitAtStars(s: string): (parts: seq<string>)
    ensures |parts| >= 1
  {
    if s == "" then [""]
    else
      var rest := SplitAtStars(s[1..]);
      if s[0] == '*' then [""] + rest else [[s[0]] + rest[0]] + rest[1..]
  }

  /** What the expression ^p1.*p2.*p3, with $ at the end when anchored, matches. */
  predicate ExprMatches(parts: seq<string>, anchored: bool, path: string)
    requires |parts| >= 1
    decreases |parts|
  {
    if |parts| == 1 then (if anchored then path == parts[0] else parts[0] <= path)
    else parts[0] <= path && exists k :: |parts[0]| <= k <= |path| && ExprMatches(parts[1..], anchored, path[k..])
  }

  predicate Anchored(pattern: string) {
    pattern != "" && pattern[|pattern| - 1] == '$'
  }

  function Body(pattern: string): string {
    if Anchored(pattern) then pattern[..|pattern| - 1] else pattern
  }

  /** robotsMatch */
  predicate RobotsMatch(pattern: string, path: string) {
    ExprMatches(SplitAtStars(Body(pattern)), Anchored(pattern), path)
  }

  /**
    Section 2.2.3 of RFC 9309, octet by octet: a pattern matches the start of a path, * stands
    for any octets, and a $ at the end of the pattern for the end of the path.
  */
  ghost predicate Matches(pattern: string, path: string)
    decreases |pattern|
  {
    if pattern == "" then true
    else if pattern == "$" then path == ""
    else if pattern[0] == '*' then exists k :: 0 <= k <= |path| && Matches(pattern[1..], path[k..])
    else path != "" && pattern[0] == path[0] && Matches(pattern[1..], path[1..])
  }

  ghost function Closing(anchored: bool): string {
    if anchored then "$" else ""
  }

  lemma {:induction false} ExpressionFollowsStandard(body: string, anchored: bool, path: string)
    requires anchored || !Anchored(body)
    ensures ExprMatches(SplitAtStars(body), anchored, path) <==> Matches(body + Closing(anchored), path)
    decreases |body|
  {
    hide ExprMatches, Matches;
    if body == "" {
      NothingButTheEnd(anchored, path);
    } else {
      var pattern, rest := body + Closing(anchored), SplitAtStars(body[1..]);
      assert pattern[1..] == body[1..] + Closing(anchored) && pattern[0] == body[0] && pattern != "$";
      if body[0] == '*' {
        forall k | 0 <= k <= |path|
          ensures ExprMatches(rest, anchored, path[k..]) <==> Matches(pattern[1..], path[k..])
        {
          ExpressionFollowsStandard(body[1..], anchored, path[k..]);
        }
        StarFirst(pattern, rest, anchored, path);
      } else {
        LiteralFirst(body[0], rest, anchored, path);
        LiteralInPattern(pattern, path);
        if path != "" { ExpressionFollowsStandard(body[1..], anchored, path[1..]); }
      }
    }
  }

  lemma NothingButTheEnd(anchored: bool, path: string)
    ensures ExprMatches([""], anchored, path) <==> Matches("" + Closing(anchored), path)
  {
  }

  /** A star in front lets the rest match at any place. */
  lemma StarFirst(pattern: string, rest: seq<string>, anchored: bool, path: string)
    requires |rest| >= 1 && pattern != "" && pattern[0] == '*'
    requires forall k | 0 <= k <= |path| :: ExprMatches(rest, anchored, path[k..]) <==> Matches(pattern[1..], path[k..])
    ensures ExprMatches([""] + rest, anchored, path) <==> Matches(pattern, path)
  {
    hide ExprMatches, Matches;
    StarInExpression(rest, anchored, path);
    StarInPattern(pattern, path);
  }

  lemma StarInExpression(rest: seq<string>, anchored: bool, path: string)
    requires |rest| >= 1
    ensures ExprMatches([""] + rest, anchored, path) <==> exists k :: 0 <= k <= |path| && ExprMatches(rest, anchored, path[k..])
  {
    assert ([""] + rest)[1..] == rest && ([""] + rest)[0] == "";
  }

  lemma StarInPattern(pattern: string, path: string)
    requires pattern != "" && pattern[0] == '*'
    ensures Matches(pattern, path) <==> exists k :: 0 <= k <= |path| && Matches(pattern[1..], path[k..])
  {
  }

  lemma LiteralInPattern(pattern: string, path: string)
    requires pattern != "" && pattern != "$" && pattern[0] != '*'
    ensures Matches(pattern, path) <==> path != "" && pattern[0] == path[0] && Matches(pattern[1..], path[1..])
  {
  }

  /** A literal octet in front of the first part must be the path's first octet. */
  lemma LiteralFirst(c: char, rest: seq<string>, anchored: bool, path: string)
    requires |rest| >= 1
    ensures ExprMatches([[c] + rest[0]] + rest[1..], anchored, path) <==>
      path != "" && path[0] == c && ExprMatches(rest, anchored, path[1..])
  {
    var parts := [[c] + rest[0]] + rest[1..];
    if path != "" && path[0] == c {
      assert path == [c] + path[1..];
      assert parts[0] <= path <==> rest[0] <= path[1..];
      if |rest| > 1 {
        assert parts[1..] == rest[1..];
        forall k | 1 <= k <= |path| ensures path[k..] == path[1..][k - 1..] {}
        if ExprMatches(rest, anchored, path[1..]) {
          var k :| |rest[0]| <= k <= |path[1..]| && ExprMatches(rest[1..], anchored, path[1..][k..]);
          assert path[k + 1..] == path[1..][k..];
        }
      }
    } else {
      assert !(parts[0] <= path) by { assert parts[0][0] == c; }
    }
  }

  /** The compiled expression matches exactly what the standard says the pattern matches. */
  lemma RobotsMatchFollowsStandard(pattern: string, path: string)
    ensures RobotsMatch(pattern, path) <==> Matches(pattern, path)
  {
    var anchored := Anchored(pattern);
    assert pattern == Body(pattern) + Closing(anchored);
    ExpressionFollowsStandard(Body(pattern), anchored, path);
  }

  // ----- The verdict

  predicate Applies(r: Rule, path: string) {
    r.pattern != "" && RobotsMatch(r.pattern, path)
  }

  /** A matching rule with the most octets. */
  ghost predicate MostSpecific(rules: seq<Rule>, path: string, r: Rule) {
    r in rules && Applies(r, path) && forall q | q in rules && Applies(q, path) :: |q.pattern| <= |r.pattern|
  }

  /** Section 2.2.2 of RFC 9309: the most octets decide, allow wins a tie, and no match allows. */
  ghost predicate Verdict(rules: seq<Rule>, path: string) {
    (forall r | r in rules :: !Applies(r, path)) || exists r :: MostSpecific(rules, path, r) && r.allow
  }

  method Allowed(disallowAll: bool, rules: seq<Rule>, path: string) returns (ok: bool)
    ensures ok == (!disallowAll && Verdict(rules, path))
  {
    if disallowAll {
      return false;
    }
    var best, bestLen, found := true, -1, false;
    ghost var top := Rule(true, "");
    var i := 0;
    while i < |rules|
      invariant 0 <= i <= |rules|
      invariant !found ==> best && bestLen == -1 && forall q | q in rules[..i] :: !Applies(q, path)
      invariant found ==> MostSpecific(rules[..i], path, top) && top.allow == best && |top.pattern| == bestLen
      invariant found && !best ==> forall q | q in rules[..i] && Applies(q, path) && |q.pattern| == bestLen :: !q.allow
    {
      var rule := rules[i];
      assert rules[..i + 1] == rules[..i] + [rule];
      if Applies(rule, path) {
        var l := |rule.pattern|;
        if l > bestLen || (l == bestLen && rule.allow && !best) {
          best, bestLen, found, top := rule.allow, l, true, rule;
        }
      }
      i := i + 1;
    }
    assert rules[..i] == rules;
    if !found {
      return true;
    }
    if best {
      assert MostSpecific(rules, path, top) && top.allow;
    }
    return best;
  }

  /** The verdict depends on which rules there are, not on their order or how often they are repeated. */
  lemma OrderAndRepetitionDoNotMatter(a: seq<Rule>, b: seq<Rule>, path: string)
    requires forall r :: r in a <==> r in b
    ensures Verdict(a, path) <==> Verdict(b, path)
  {
  }

  /** The standard's words: a rule with a pattern applies where the pattern matches, one without applies nowhere. */
  lemma AppliesMeans(r: Rule, path: string)
    ensures Applies(r, path) <==> r.pattern != "" && Matches(r.pattern, path)
  {
    RobotsMatchFollowsStandard(r.pattern, path);
  }

  /** Rules without a pattern, like a bare "Disallow:", change no verdict. */
  lemma EmptyPatternsDoNotCount(a: seq<Rule>, b: seq<Rule>, path: string)
    requires forall r: Rule | r.pattern != "" :: r in a <==> r in b
    ensures Verdict(a, path) <==> Verdict(b, path)
  {
    forall r ensures MostSpecific(a, path, r) <==> MostSpecific(b, path, r) {}
  }

  /** The one rule that matches decides. */
  lemma SingleRuleDecides(allow: bool, pattern: string, path: string)
    requires pattern != ""
    ensures Verdict([Rule(allow, pattern)], path) <==> allow || !Matches(pattern, path)
  {
    var r := Rule(allow, pattern);
    AppliesMeans(r, path);
    assert r in [r];
    if Applies(r, path) { assert MostSpecific([r], path, r); }
  }
}
