/**
  Reading robots.txt (parseRobots in internal/fetch/robots.go), after RFC 9309.

  A line of the file is given as what parseRobots makes of it: a directive, some other line with a
  colon, or a line without one.
*/
module RobotsFile {
  import opened Robots

  // ----- Groups

  datatype Line = Agent(name: string) | RuleLine(rule: Rule) | OtherKey | NoColon

  datatype Group = Group(agents: seq<string>, rules: seq<Rule>)

  /** The groups so far, the last of which is the current one, and whether the last directive was an agent. */
  datatype Reader = Reader(groups: seq<Group>, lastWasAgent: bool)

  function Current(groups: seq<Group>): Group
    requires groups != []
  {
    groups[|groups| - 1]
  }

  function WithCurrent(groups: seq<Group>, g: Group): seq<Group>
    requires groups != []
  {
    groups[..|groups| - 1] + [g]
  }

  function ReadLine(p: Reader, line: Line): Reader {
    match line
    case Agent(name) =>
      if p.groups == [] || !p.lastWasAgent then Reader(p.groups + [Group([name], [])], true)
      else
        var g := Current(p.groups);
        Reader(WithCurrent(p.groups, g.(agents := g.agents + [name])), true)
    case RuleLine(rule) =>
      if p.groups == [] then Reader([], false)
      else
        var g := Current(p.groups);
        Reader(WithCurrent(p.groups, g.(rules := g.rules + [rule])), false)
    case OtherKey => p.(lastWasAgent := false)
    case NoColon => p
  }

  function Read(p: Reader, lines: seq<Line>, n: nat): Reader
    requires n <= |lines|
  {
    if n == 0 then p else ReadLine(Read(p, lines, n - 1), lines[n - 1])
  }

  const START := Reader([], false)

  function Parsed(lines: seq<Line>): Reader {
    Read(START, lines, |lines|)
  }

  predicate Names(agent: string, token: string) {
    token != "" && token != "*" && exists i :: 0 <= i <= |agent| && token <= agent[i..]
  }

  method ParseRobots(lines: seq<Line>, agent: string) returns (rules: seq<Rule>)
    ensures forall r :: r in rules <==> RuleFor(lines, agent, r)
  {
    var groups := ReadGroups(lines);
    rules := RulesFor(groups, agent);
    forall r ensures ForBot(groups, agent, r) <==> RuleFor(lines, agent, r) {
      RulesOfTheFile(lines, agent, r);
    }
  }

  /** The loop over the lines. */
  method ReadGroups(lines: seq<Line>) returns (groups: seq<Group>)
    ensures groups == Parsed(lines).groups
  {
    var p := START;
    var i := 0;
    while i < |lines|
      invariant 0 <= i <= |lines| && p == Read(START, lines, i)
    {
      p := ReadLine(p, lines[i]);
      i := i + 1;
    }
    groups := p.groups;
  }

  /** The loop over the groups. */
  method RulesFor(groups: seq<Group>, agent: string) returns (rules: seq<Rule>)
    ensures forall r :: r in rules <==> ForBot(groups, agent, r)
  {
    var mine, star, matched := [], [], false;
    var i := 0;
    while i < |groups|
      invariant 0 <= i <= |groups|
      invariant forall r :: r in mine <==> InMine(groups[..i], agent, r)
      invariant forall r :: r in star <==> InStar(groups[..i], r)
      invariant matched <==> exists g :: g in groups[..i] && NamesBot(g, agent)
    {
      var g := groups[i];
      var m, st, hit := Collect(g, agent);
      assert groups[..i + 1] == groups[..i] + [g];
      mine, star, matched := mine + m, star + st, matched || hit;
      i := i + 1;
    }
    assert groups[..i] == groups;
    rules := if matched then mine else star;
  }

  /** The inner loop over a group's agents. A group may be named more than once. */
  method Collect(g: Group, agent: string) returns (mine: seq<Rule>, star: seq<Rule>, matched: bool)
    ensures forall r :: r in mine <==> NamesBot(g, agent) && r in g.rules
    ensures forall r :: r in star <==> "*" in g.agents && r in g.rules
    ensures matched <==> NamesBot(g, agent)
  {
    mine, star, matched := [], [], false;
    var k := 0;
    while k < |g.agents|
      invariant 0 <= k <= |g.agents|
      invariant matched <==> exists a :: a in g.agents[..k] && Names(agent, a)
      invariant forall r :: r in mine <==> matched && r in g.rules
      invariant forall r :: r in star <==> "*" in g.agents[..k] && r in g.rules
    {
      var a := g.agents[k];
      assert g.agents[..k + 1] == g.agents[..k] + [a];
      if a == "*" {
        star := star + g.rules;
      } else if Names(agent, a) {
        mine, matched := mine + g.rules, true;
      }
      k := k + 1;
    }
    assert g.agents[..k] == g.agents;
  }

  ghost predicate NamesBot(g: Group, agent: string) {
    exists a :: a in g.agents && Names(agent, a)
  }

  ghost predicate InMine(groups: seq<Group>, agent: string, r: Rule) {
    exists g :: g in groups && NamesBot(g, agent) && r in g.rules
  }

  ghost predicate InStar(groups: seq<Group>, r: Rule) {
    exists g :: g in groups && "*" in g.agents && r in g.rules
  }

  /** Section 2.2.1 of RFC 9309: all groups that name the bot together, or the groups for everyone. */
  ghost predicate ForBot(groups: seq<Group>, agent: string, r: Rule) {
    if exists g :: g in groups && NamesBot(g, agent) then InMine(groups, agent, r) else InStar(groups, r)
  }

  // ----- What that means for the lines of the file

  /** A line that ends the list of agents of a group. Lines without a colon end nothing. */
  predicate EndsAgents(line: Line) {
    line.RuleLine? || line.OtherKey?
  }

  /** Between i and m, without them, some line ends the list of agents. */
  ghost predicate Ended(lines: seq<Line>, i: nat, m: nat)
    requires m <= |lines|
  {
    exists k :: i < k < m && EndsAgents(lines[k])
  }

  /**
    Section 2.2.1 of RFC 9309: the agent line at i and the place j are in the same group, because no
    agent line between them starts a new group.
  */
  ghost predicate SameGroup(lines: seq<Line>, i: nat, j: nat)
    requires j <= |lines|
  {
    forall m | i < m < j && lines[m].Agent? :: !Ended(lines, i, m)
  }

  ghost predicate AgentAt(lines: seq<Line>, i: nat, a: string) {
    i < |lines| && lines[i] == Agent(a)
  }

  /** The agent a and the rule r are in one group of the file. */
  ghost predicate Together(lines: seq<Line>, n: nat, a: string, r: Rule)
    requires n <= |lines|
  {
    exists i: nat, j: nat {:trigger AgentAt(lines, i, a), SameGroup(lines, i, j)} ::
      i < j < n && AgentAt(lines, i, a) && lines[j] == RuleLine(r) && SameGroup(lines, i, j)
  }

  /** The rules for a bot: those together with an agent that names it, or with a star if none does. */
  ghost predicate RuleFor(lines: seq<Line>, agent: string, r: Rule) {
    if exists i: nat, a :: AgentAt(lines, i, a) && Names(agent, a)
    then exists a :: Names(agent, a) && Together(lines, |lines|, a, r)
    else Together(lines, |lines|, "*", r)
  }

  /** Agent a is in the group that the place n is in. */
  ghost predicate InCurrent(lines: seq<Line>, n: nat, a: string)
    requires n <= |lines|
  {
    exists i: nat :: i < n && AgentAt(lines, i, a) && SameGroup(lines, i, n)
  }

  ghost predicate GroupHas(groups: seq<Group>, a: string, r: Rule) {
    exists g :: g in groups && a in g.agents && r in g.rules
  }

  ghost predicate IsAgent(groups: seq<Group>, a: string) {
    exists g :: g in groups && a in g.agents
  }

  /** What the reader knows after n lines, said of the lines. */
  ghost predicate ReaderOk(lines: seq<Line>, n: nat)
    requires n <= |lines|
  {
    var p := Read(START, lines, n);
    && (p.groups == [] <==> forall i: nat, a | i < n :: !AgentAt(lines, i, a))
    && (p.lastWasAgent ==> p.groups != [] && Current(p.groups).rules == [])
    && (forall i: nat, a | i < n && AgentAt(lines, i, a) && SameGroup(lines, i, n) :: p.lastWasAgent <==> !Ended(lines, i, n))
    && (p.groups != [] ==> forall a :: a in Current(p.groups).agents <==> InCurrent(lines, n, a))
  }

  /** One line more: agents and places stay in the same group unless the line is an agent line after an end. */
  lemma OneLineMore(lines: seq<Line>, i: nat, n: nat)
    requires i < n < |lines|
    ensures SameGroup(lines, i, n + 1) <==> SameGroup(lines, i, n) && (lines[n].Agent? ==> !Ended(lines, i, n))
    ensures Ended(lines, i, n + 1) <==> Ended(lines, i, n) || EndsAgents(lines[n])
  {
  }

  /** An agent line joins the group of the agent lines right before it, or is alone in a new one. */
  lemma AgentJoins(lines: seq<Line>, n: nat, a: string)
    requires n < |lines| && ReaderOk(lines, n) && lines[n].Agent?
    ensures InCurrent(lines, n + 1, a) <==>
      a == lines[n].name || (Read(START, lines, n).lastWasAgent && InCurrent(lines, n, a))
  {
    hide Read;
    if a == lines[n].name { assert AgentAt(lines, n, a) && SameGroup(lines, n, n + 1); }
    forall i: nat | i < n && AgentAt(lines, i, a)
      ensures SameGroup(lines, i, n + 1) <==> SameGroup(lines, i, n) && Read(START, lines, n).lastWasAgent
    {
      OneLineMore(lines, i, n);
    }
  }

  lemma AgentKeepsReader(lines: seq<Line>, n: nat)
    requires n < |lines| && ReaderOk(lines, n) && lines[n].Agent?
    ensures ReaderOk(lines, n + 1)
  {
    var p, q := Read(START, lines, n), Read(START, lines, n + 1);
    assert AgentAt(lines, n, lines[n].name);
    forall i: nat, a | i < n + 1 && AgentAt(lines, i, a) && SameGroup(lines, i, n + 1) ensures !Ended(lines, i, n + 1) {
      if i < n { OneLineMore(lines, i, n); }
    }
    forall a ensures a in Current(q.groups).agents <==> InCurrent(lines, n + 1, a) { AgentJoins(lines, n, a); }
  }

  lemma OtherLineKeepsReader(lines: seq<Line>, n: nat)
    requires n < |lines| && ReaderOk(lines, n) && !lines[n].Agent?
    ensures ReaderOk(lines, n + 1)
  {
    var p, q := Read(START, lines, n), Read(START, lines, n + 1);
    forall i: nat | i < n
      ensures SameGroup(lines, i, n + 1) <==> SameGroup(lines, i, n)
      ensures Ended(lines, i, n + 1) <==> Ended(lines, i, n) || EndsAgents(lines[n])
    {
      OneLineMore(lines, i, n);
    }
    assert p.groups != [] ==> q.groups != [] && Current(q.groups).agents == Current(p.groups).agents;
    forall a ensures InCurrent(lines, n + 1, a) <==> InCurrent(lines, n, a) {
      if InCurrent(lines, n, a) {
        var i: nat :| i < n && AgentAt(lines, i, a) && SameGroup(lines, i, n);
        assert SameGroup(lines, i, n + 1);
      }
    }
  }

  lemma ReaderStartsOk(lines: seq<Line>)
    ensures ReaderOk(lines, 0)
  {
  }

  lemma {:induction false} ReaderStaysOk(lines: seq<Line>, n: nat)
    requires n <= |lines|
    ensures ReaderOk(lines, n)
  {
    hide ReaderOk;
    if n == 0 {
      ReaderStartsOk(lines);
    } else {
      ReaderStaysOk(lines, n - 1);
      if lines[n - 1].Agent? { AgentKeepsReader(lines, n - 1); } else { OtherLineKeepsReader(lines, n - 1); }
    }
  }

  lemma GroupHasCurrent(groups: seq<Group>, g: Group, a: string, r: Rule)
    requires groups != []
    ensures GroupHas(WithCurrent(groups, g), a, r) <==>
      GroupHas(groups[..|groups| - 1], a, r) || (a in g.agents && r in g.rules)
    ensures GroupHas(groups, a, r) <==>
      GroupHas(groups[..|groups| - 1], a, r) || (a in Current(groups).agents && r in Current(groups).rules)
  {
    var init, with := groups[..|groups| - 1], WithCurrent(groups, g);
    assert groups == init + [Current(groups)];
    forall h ensures h in with <==> h in init || h == g {}
    forall h ensures h in groups <==> h in init || h == Current(groups) {}
  }

  lemma GroupHasNew(groups: seq<Group>, name: string, a: string, r: Rule)
    ensures GroupHas(groups + [Group([name], [])], a, r) <==> GroupHas(groups, a, r)
  {
    forall h ensures h in groups + [Group([name], [])] <==> h in groups || h == Group([name], []) {}
  }

  lemma OneLineMoreTogether(lines: seq<Line>, n: nat, a: string, r: Rule)
    requires n < |lines|
    ensures Together(lines, n + 1, a, r) <==>
      Together(lines, n, a, r)
      || (lines[n] == RuleLine(r) && InCurrent(lines, n, a))
  {
  }

  lemma NothingTogether(lines: seq<Line>, a: string, r: Rule)
    ensures !GroupHas([], a, r) && !Together(lines, 0, a, r)
  {
  }

  lemma CurrentAgents(lines: seq<Line>, n: nat, a: string)
    requires n <= |lines|
    ensures var p := Read(START, lines, n);
      && (p.lastWasAgent ==> p.groups != [] && Current(p.groups).rules == [])
      && (p.groups != [] && a in Current(p.groups).agents <==> InCurrent(lines, n, a))
  {
    hide Read;
    ReaderStaysOk(lines, n);
  }

  /** After every line: a group has an agent and a rule exactly when the lines put them together. */
  lemma {:induction false} GroupsAreTogether(lines: seq<Line>, n: nat, a: string, r: Rule)
    requires n <= |lines|
    ensures GroupHas(Read(START, lines, n).groups, a, r) <==> Together(lines, n, a, r)
  {
    hide ReadLine, GroupHas, Together, InCurrent;
    if n == 0 {
      NothingTogether(lines, a, r);
    } else {
      GroupsAreTogether(lines, n - 1, a, r);
      CurrentAgents(lines, n - 1, a);
      OneLineMoreTogether(lines, n - 1, a, r);
      ReadLineTogether(Read(START, lines, n - 1), lines[n - 1], a, r);
    }
  }

  /** A line adds pairs of agent and rule only when it is a rule line, and then those of the current agents. */
  lemma ReadLineTogether(p: Reader, line: Line, a: string, r: Rule)
    requires p.lastWasAgent ==> p.groups != [] && Current(p.groups).rules == []
    ensures GroupHas(ReadLine(p, line).groups, a, r) <==>
      GroupHas(p.groups, a, r) || (line == RuleLine(r) && p.groups != [] && a in Current(p.groups).agents)
  {
    if p.groups != [] {
      var g := Current(p.groups);
      match line
      case Agent(name) =>
        if p.lastWasAgent {
          GroupHasCurrent(p.groups, g.(agents := g.agents + [name]), a, r);
        } else {
          GroupHasNew(p.groups, name, a, r);
        }
      case RuleLine(rule) => GroupHasCurrent(p.groups, g.(rules := g.rules + [rule]), a, r);
      case _ =>
    } else if line.Agent? {
      GroupHasNew(p.groups, line.name, a, r);
    }
  }

  /** Every agent of the file is an agent of a group, and every agent of a group is in the file. */
  lemma {:induction false} AgentsAreInGroups(lines: seq<Line>, n: nat, a: string)
    requires n <= |lines|
    ensures IsAgent(Read(START, lines, n).groups, a) <==> exists i: nat :: i < n && AgentAt(lines, i, a)
  {
    if n > 0 {
      AgentsAreInGroups(lines, n - 1, a);
      ReadLineAgents(Read(START, lines, n - 1), lines[n - 1], a);
      if lines[n - 1] == Agent(a) { assert AgentAt(lines, n - 1, a); }
    }
  }

  lemma ReadLineAgents(p: Reader, line: Line, a: string)
    ensures IsAgent(ReadLine(p, line).groups, a) <==> IsAgent(p.groups, a) || line == Agent(a)
  {
    hide IsAgent;
    NoAgents(a);
    if p.groups != [] {
      var g, init := Current(p.groups), p.groups[..|p.groups| - 1];
      assert p.groups == init + [g];
      OneMoreGroup(init, g, a);
      match line
      case Agent(name) =>
        OneMoreGroup(p.groups, Group([name], []), a);
        OneMoreGroup(init, g.(agents := g.agents + [name]), a);
      case RuleLine(rule) => OneMoreGroup(init, g.(rules := g.rules + [rule]), a);
      case _ =>
    } else if line.Agent? {
      OneMoreGroup([], Group([line.name], []), a);
    }
  }

  lemma OneMoreGroup(groups: seq<Group>, g: Group, a: string)
    ensures IsAgent(groups + [g], a) <==> IsAgent(groups, a) || a in g.agents
  {
    forall h ensures h in groups + [g] <==> h in groups || h == g {}
  }

  lemma NoAgents(a: string)
    ensures !IsAgent([], a)
  {
  }

  /** For every file and bot, the rules that are read are those that the lines of the file give the bot. */
  lemma RulesOfTheFile(lines: seq<Line>, agent: string, r: Rule)
    ensures ForBot(Parsed(lines).groups, agent, r) <==> RuleFor(lines, agent, r)
  {
    var groups := Parsed(lines).groups;
    forall a ensures GroupHas(groups, a, r) <==> Together(lines, |lines|, a, r) { GroupsAreTogether(lines, |lines|, a, r); }
    forall a ensures IsAgent(groups, a) <==> exists i: nat :: i < |lines| && AgentAt(lines, i, a) {
      AgentsAreInGroups(lines, |lines|, a);
    }
    assert (exists g :: g in groups && NamesBot(g, agent)) <==> exists a :: IsAgent(groups, a) && Names(agent, a);
    assert (exists a :: IsAgent(groups, a) && Names(agent, a)) <==> exists i: nat, a :: AgentAt(lines, i, a) && Names(agent, a);
    assert InMine(groups, agent, r) <==> exists a :: Names(agent, a) && GroupHas(groups, a, r);
  }

  predicate StandsAt(agent: string, token: string, i: int) {
    0 <= i <= |agent| - |token| && forall k | 0 <= k < |token| :: agent[i + k] == token[k]
  }

  /** A token names the bot when it stands somewhere in the bot's name. */
  lemma NamesMeans(agent: string, token: string)
    ensures Names(agent, token) <==> token != "" && token != "*" && exists i :: StandsAt(agent, token, i)
  {
    forall i | 0 <= i <= |agent| ensures token <= agent[i..] <==> StandsAt(agent, token, i) {
      if StandsAt(agent, token, i) { assert forall k | 0 <= k < |token| :: agent[i..][k] == agent[i + k]; }
    }
  }

  // ----- The order of groups in the file

  /** Lines that make whole groups of their own: an agent first, and a rule or other key after the last agent. */
  ghost predicate Block(lines: seq<Line>) {
    lines != [] && lines[0].Agent? && !Parsed(lines).lastWasAgent
  }

  function Concat(blocks: seq<seq<Line>>): seq<Line> {
    if blocks == [] then [] else Concat(blocks[..|blocks| - 1]) + blocks[|blocks| - 1]
  }

  function AllGroups(blocks: seq<seq<Line>>): seq<Group> {
    if blocks == [] then [] else AllGroups(blocks[..|blocks| - 1]) + Parsed(blocks[|blocks| - 1]).groups
  }

  lemma {:induction false} ReadTwo(p: Reader, f: seq<Line>, g: seq<Line>, n: nat)
    requires n <= |g|
    ensures Read(p, f + g, |f| + n) == Read(Read(p, f, |f|), g, n)
  {
    if n == 0 {
      ReadPrefix(p, f, g, |f|);
    } else {
      ReadTwo(p, f, g, n - 1);
      var both, q := f + g, Read(p, f, |f|);
      assert both[|f| + n - 1] == g[n - 1];
      assert Read(p, both, |f| + n) == ReadLine(Read(p, both, |f| + n - 1), g[n - 1]);
      assert Read(q, g, n) == ReadLine(Read(q, g, n - 1), g[n - 1]);
    }
  }

  lemma {:induction false} ReadPrefix(p: Reader, f: seq<Line>, g: seq<Line>, n: nat)
    requires n <= |f|
    ensures Read(p, f + g, n) == Read(p, f, n)
  {
    if n > 0 { ReadPrefix(p, f, g, n - 1); }
  }

  /** After complete groups a block reads as it would alone. */
  lemma {:induction false} BlockReadsAlone(before: seq<Group>, g: seq<Line>, n: nat)
    requires g != [] && g[0].Agent? && 1 <= n <= |g|
    ensures Read(START, g, n).groups != []
    ensures Read(Reader(before, false), g, n) == Reader(before + Read(START, g, n).groups, Read(START, g, n).lastWasAgent)
  {
    if n > 1 {
      BlockReadsAlone(before, g, n - 1);
      var p := Read(START, g, n - 1);
      LineReadsAlone(before, p, g[n - 1]);
    } else {
      assert Read(START, g, 0) == START && Read(Reader(before, false), g, 0) == Reader(before, false);
      assert Read(START, g, 1) == Reader([Group([g[0].name], [])], true);
    }
  }

  lemma LineReadsAlone(before: seq<Group>, p: Reader, line: Line)
    requires p.groups != []
    ensures ReadLine(p, line).groups != []
    ensures ReadLine(Reader(before + p.groups, p.lastWasAgent), line)
      == Reader(before + ReadLine(p, line).groups, ReadLine(p, line).lastWasAgent)
  {
  }

  lemma {:induction false} FileIsItsBlocks(blocks: seq<seq<Line>>)
    requires forall b | b in blocks :: Block(b)
    ensures Parsed(Concat(blocks)) == Reader(AllGroups(blocks), false)
  {
    if blocks != [] {
      var init, last := blocks[..|blocks| - 1], blocks[|blocks| - 1];
      assert last in blocks && forall b | b in init :: b in blocks;
      FileIsItsBlocks(init);
      ReadTwo(START, Concat(init), last, |last|);
      BlockReadsAlone(AllGroups(init), last, |last|);
    }
  }

  lemma {:induction false} GroupsOfBlocks(blocks: seq<seq<Line>>, g: Group)
    ensures g in AllGroups(blocks) <==> exists b :: b in blocks && g in Parsed(b).groups
  {
    if blocks != [] {
      var init, last := blocks[..|blocks| - 1], blocks[|blocks| - 1];
      assert blocks == init + [last];
      GroupsOfBlocks(init, g);
    }
  }

  /** Rearranging or repeating whole groups of a file changes no verdict for any bot and any path. */
  lemma GroupOrderDoesNotMatter(xs: seq<seq<Line>>, ys: seq<seq<Line>>, agent: string,
                                a: seq<Rule>, b: seq<Rule>, path: string)
    requires (forall x | x in xs :: Block(x)) && (forall l :: l in xs <==> l in ys)
    requires forall r :: r in a <==> ForBot(Parsed(Concat(xs)).groups, agent, r)
    requires forall r :: r in b <==> ForBot(Parsed(Concat(ys)).groups, agent, r)
    ensures Verdict(a, path) <==> Verdict(b, path)
  {
    FileIsItsBlocks(xs);
    FileIsItsBlocks(ys);
    var gs, hs := AllGroups(xs), AllGroups(ys);
    forall g ensures g in gs <==> g in hs {
      GroupsOfBlocks(xs, g);
      GroupsOfBlocks(ys, g);
    }
    forall r ensures r in a <==> r in b {
      SameGroupsSameRules(gs, hs, agent, r);
    }
    OrderAndRepetitionDoNotMatter(a, b, path);
  }

  lemma SameGroupsSameRules(gs: seq<Group>, hs: seq<Group>, agent: string, r: Rule)
    requires forall g :: g in gs <==> g in hs
    ensures ForBot(gs, agent, r) <==> ForBot(hs, agent, r)
  {
  }
}
