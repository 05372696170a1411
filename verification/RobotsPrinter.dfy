/**
  A printer for parsed robots.txt files, and what parsing its output gives back. A group without rules is printed with
  an empty `disallow:`, which ends its run of user-agent lines without adding a rule.
*/
module RobotsPrinter {
  import opened Common
  import opened RobotsRules
  import opened RobotsParser
  import opened Text
  import PercentEncoding

  // ----- what can stand in a file

  /** A value that one line can carry: no comment or line end inside, no white space around. */
  predicate IsCarried(s: string) {
    s != "" && IsTrimmed(s) && '#' !in s && '\n' !in s && '\r' !in s
  }

  predicate IsAgent(s: string) {
    IsCarried(s) && Lower(s) == s
  }

  predicate IsPattern(s: string) {
    IsCarried(s) && (s[0] == '/' || s[0] == '*')
  }

  /** An empty `allow:` is kept as a rule, an empty `disallow:` is not. */
  predicate IsPrintableRule(rule: Rule) {
    IsPattern(rule.pattern) || (rule.directive == Allow && rule.pattern == "")
  }

  ghost predicate IsPrintableGroup(g: Group) {
    && g.userAgents != []
    && (forall i :: 0 <= i < |g.userAgents| ==> IsAgent(g.userAgents[i]))
    && (forall i :: 0 <= i < |g.rules| ==> IsPrintableRule(g.rules[i]))
  }

  ghost predicate IsPrintable(rules: Rules) {
    && (forall i :: 0 <= i < |rules.groups| ==> IsPrintableGroup(rules.groups[i]))
    && (forall i :: 0 <= i < |rules.sitemaps| ==> IsCarried(rules.sitemaps[i]))
  }

  // ----- printing

  function Record(field: string, value: string): string {
    field + ":" + (if value == "" then "" else " " + value)
  }

  function AgentLines(agents: seq<string>): seq<string> {
    if agents == [] then [] else [Record("user-agent", agents[0])] + AgentLines(agents[1..])
  }

  function RuleLines(rules: seq<Rule>): seq<string> {
    if rules == [] then []
    else [Record(if rules[0].directive == Allow then "allow" else "disallow", rules[0].pattern)] + RuleLines(rules[1..])
  }

  function GroupLines(g: Group): seq<string> {
    AgentLines(g.userAgents) + (if g.rules == [] then [Record("disallow", "")] else RuleLines(g.rules))
  }

  function AllGroupLines(groups: seq<Group>): seq<string> {
    if groups == [] then [] else GroupLines(groups[0]) + AllGroupLines(groups[1..])
  }

  function SitemapLines(sitemaps: seq<string>): seq<string> {
    if sitemaps == [] then [] else [Record("sitemap", sitemaps[0])] + SitemapLines(sitemaps[1..])
  }

  function PrintedLines(rules: Rules): seq<string> {
    AllGroupLines(rules.groups) + SitemapLines(rules.sitemaps)
  }

  function Joined(lines: seq<string>): string {
    if lines == [] then "" else lines[0] + "\n" + Joined(lines[1..])
  }

  function Print(rules: Rules): string {
    Joined(PrintedLines(rules))
  }

  // ----- reading one printed line

  predicate IsKnownField(field: string) {
    field == "user-agent" || field == "allow" || field == "disallow" || field == "sitemap"
  }

  lemma TrimKeeps(s: string)
    requires IsTrimmed(s)
    ensures Trim(s) == s
  {
  }

  lemma TrimAfterSpace(s: string)
    requires IsTrimmed(s)
    ensures Trim(" " + s) == s
  {
    SpaceBefore(' ', s);
    assert TrimStart(s) == s;
  }

  lemma KnownFieldIsPlain(field: string)
    requires IsKnownField(field)
    ensures field != "" && IsTrimmed(field) && Lower(field) == field
    ensures forall i :: 0 <= i < |field| ==> field[i] != ':' && field[i] != '#' && field[i] != '\n' && field[i] != '\r'
    ensures field[0] != BOM
  {
    assert Lower("user-agent") == "user-agent";
    assert Lower("allow") == "allow";
    assert Lower("disallow") == "disallow";
    assert Lower("sitemap") == "sitemap";
  }

  lemma RecordIsCarried(field: string, value: string)
    requires IsKnownField(field) && (value == "" || IsCarried(value))
    ensures IsCarried(Record(field, value)) && IsPrintedLine(Record(field, value))
  {
    hide Lower, IsKnownField, IsSpace;
    KnownFieldIsPlain(field);
    var line := Record(field, value);
    assert line[0] == field[0];
    assert line[|line| - 1] == if value == "" then ':' else value[|value| - 1];
    ColonIsNoSpace();
  }

  lemma RecordSplits(field: string, value: string)
    requires IsKnownField(field)
    ensures var line := Record(field, value);
      && IndexOf(line, ':') == |field| && line[..|field|] == field
      && line[|field| + 1..] == if value == "" then "" else " " + value
  {
    hide Lower, IsKnownField, IsSpace;
    KnownFieldIsPlain(field);
    var line := Record(field, value);
    assert line[|field|] == ':' && line[..|field|] == field;
  }

  lemma ReadRecord(field: string, value: string)
    requires IsKnownField(field) && (value == "" || IsCarried(value))
    ensures ParseLine(Record(field, value)) == Some(RawDirective(field, value))
    ensures IsPrintedLine(Record(field, value))
  {
    hide Lower, IsKnownField, Trim, IsSpace, Record, IsPrintedLine;
    KnownFieldIsPlain(field);
    RecordIsCarried(field, value);
    RecordSplits(field, value);
    TrimKeeps(Record(field, value));
    TrimKeeps(field);
    TrimKeeps("");
    TrimAfterSpace(value);
  }

  lemma ColonIsNoSpace()
    ensures !IsSpace(':')
  {
  }

  ghost predicate IsPrintedLine(line: string) {
    line != "" && line[0] != BOM && '\n' !in line && '\r' !in line
  }

  // ----- reading the printed groups

  lemma {:induction false} ReadAgents(s: State, agents: seq<string>)
    requires s.collectingAgents && forall i :: 0 <= i < |agents| ==> IsAgent(agents[i])
    ensures RunLines(s, AgentLines(agents)) == s.(currentAgents := s.currentAgents + agents)
    ensures forall l :: l in AgentLines(agents) ==> IsPrintedLine(l)
    decreases agents
  {
    hide ParseLine, Lower, IsPrintedLine;
    if agents == [] {
      assert s.currentAgents + agents == s.currentAgents;
    } else {
      ReadRecord("user-agent", agents[0]);
      var t := s.(currentAgents := s.currentAgents + [agents[0]]);
      assert Step(s, ParseLine(Record("user-agent", agents[0]))) == t;
      ReadAgents(t, agents[1..]);
      assert s.currentAgents + agents == s.currentAgents + [agents[0]] + agents[1..];
      assert AgentLines(agents)[1..] == AgentLines(agents[1..]);
    }
  }

  function NormalRules(rules: seq<Rule>): (r: seq<Rule>)
    ensures |r| == |rules|
    ensures forall i :: 0 <= i < |rules| ==>
      r[i] == Rule(rules[i].directive, PercentEncoding.Normalized(rules[i].pattern))
  {
    if rules == [] then []
    else [Rule(rules[0].directive, PercentEncoding.Normalized(rules[0].pattern))] + NormalRules(rules[1..])
  }

  lemma ReadRule(s: State, rule: Rule)
    requires !s.collectingAgents && s.currentAgents != [] && IsPrintableRule(rule)
    ensures var line := Record(if rule.directive == Allow then "allow" else "disallow", rule.pattern);
      && Step(s, ParseLine(line))
         == s.(currentRules := s.currentRules + [Rule(rule.directive, PercentEncoding.Normalized(rule.pattern))])
      && IsPrintedLine(line)
  {
    hide ParseLine, PercentEncoding.Normalized, IsPrintedLine, Record;
    ReadRecord(if rule.directive == Allow then "allow" else "disallow", rule.pattern);
  }

  lemma {:induction false} ReadRules(s: State, rules: seq<Rule>)
    requires !s.collectingAgents && s.currentAgents != []
    requires forall i :: 0 <= i < |rules| ==> IsPrintableRule(rules[i])
    ensures RunLines(s, RuleLines(rules)) == s.(currentRules := s.currentRules + NormalRules(rules))
    ensures forall l :: l in RuleLines(rules) ==> IsPrintedLine(l)
    decreases rules
  {
    hide ParseLine, PercentEncoding.Normalized, IsPrintedLine, Step, Record, IsPrintableRule;
    if rules == [] {
      assert s.currentRules + NormalRules(rules) == s.currentRules;
    } else {
      var rule := Rule(rules[0].directive, PercentEncoding.Normalized(rules[0].pattern));
      ReadRule(s, rules[0]);
      ReadRules(s.(currentRules := s.currentRules + [rule]), rules[1..]);
      Associative(s.currentRules, [rule], NormalRules(rules[1..]));
      assert RuleLines(rules)[1..] == RuleLines(rules[1..]);
    }
  }

  /** The group as parsing reads it back: its patterns in percent-encoding normal form. */
  function NormalGroup(g: Group): Group {
    Group(g.userAgents, NormalRules(g.rules))
  }

  function NormalGroups(groups: seq<Group>): (r: seq<Group>)
    ensures |r| == |groups|
    ensures forall i :: 0 <= i < |groups| ==> r[i] == NormalGroup(groups[i])
  {
    if groups == [] then [] else [NormalGroup(groups[0])] + NormalGroups(groups[1..])
  }

  function NormalForm(rules: Rules): Rules {
    Rules(NormalGroups(rules.groups), rules.sitemaps)
  }

  lemma ReadFirstAgents(s: State, agents: seq<string>)
    requires !s.collectingAgents && agents != [] && forall i :: 0 <= i < |agents| ==> IsAgent(agents[i])
    ensures RunLines(s, AgentLines(agents)) == State(Flushed(s), s.sitemaps, agents, [], true)
    ensures forall l :: l in AgentLines(agents) ==> IsPrintedLine(l)
  {
    hide ParseLine, Lower, IsPrintedLine, Flushed, Record, Step, RunLines, IsAgent;
    FirstAgent(s, agents[0]);
    ReadAgents(State(Flushed(s), s.sitemaps, [agents[0]], [], true), agents[1..]);
    assert [agents[0]] + agents[1..] == agents;
    RunFirst(s, Record("user-agent", agents[0]), AgentLines(agents[1..]));
  }

  lemma RunFirst(s: State, line: string, rest: seq<string>)
    ensures RunLines(s, [line] + rest) == RunLines(Step(s, ParseLine(line)), rest)
  {
    hide ParseLine, Step;
    assert ([line] + rest)[1..] == rest;
  }

  lemma FirstAgent(s: State, agent: string)
    requires !s.collectingAgents && IsAgent(agent)
    ensures Step(s, ParseLine(Record("user-agent", agent))) == State(Flushed(s), s.sitemaps, [agent], [], true)
    ensures IsPrintedLine(Record("user-agent", agent))
  {
    hide ParseLine, Lower, IsPrintedLine, Flushed;
    ReadRecord("user-agent", agent);
    assert [] + [Lower(agent)] == [agent];
  }

  lemma ReadBody(s: State, rules: seq<Rule>)
    requires s.collectingAgents && s.currentAgents != [] && s.currentRules == []
    requires forall i :: 0 <= i < |rules| ==> IsPrintableRule(rules[i])
    ensures var lines := if rules == [] then [Record("disallow", "")] else RuleLines(rules);
      && RunLines(s, lines) == s.(currentRules := NormalRules(rules), collectingAgents := false)
      && forall l :: l in lines ==> IsPrintedLine(l)
  {
    hide ParseLine, PercentEncoding.Normalized, IsPrintedLine;
    var t := s.(collectingAgents := false);
    if rules == [] {
      ReadRecord("disallow", "");
      var line := Record("disallow", "");
      assert Step(s, ParseLine(line)) == t;
      assert [line][1..] == [];
      assert RunLines(s, [line]) == RunLines(t, []);
    } else {
      ReadRules(t, rules);
      var line := RuleLines(rules)[0];
      ReadRecord(if rules[0].directive == Allow then "allow" else "disallow", rules[0].pattern);
      assert Step(s, ParseLine(line)) == Step(t, ParseLine(line));
      assert t.currentRules + NormalRules(rules) == NormalRules(rules);
    }
  }

  lemma ReadGroup(s: State, g: Group)
    requires !s.collectingAgents && IsPrintableGroup(g)
    ensures var t := RunLines(s, GroupLines(g));
      !t.collectingAgents && Flushed(t) == Flushed(s) + [NormalGroup(g)] && t.sitemaps == s.sitemaps
    ensures forall l :: l in GroupLines(g) ==> IsPrintedLine(l)
  {
    hide RunLines, IsPrintedLine, AgentLines, RuleLines, NormalRules, Record, IsAgent, IsPrintableRule;
    var mid := State(Flushed(s), s.sitemaps, g.userAgents, [], true);
    ReadFirstAgents(s, g.userAgents);
    ReadBody(mid, g.rules);
    RunConcat(s, AgentLines(g.userAgents), if g.rules == [] then [Record("disallow", "")] else RuleLines(g.rules));
  }

  lemma FirstGroup(groups: seq<Group>)
    requires groups != []
    ensures AllGroupLines(groups) == GroupLines(groups[0]) + AllGroupLines(groups[1..])
    ensures NormalGroups(groups) == [NormalGroup(groups[0])] + NormalGroups(groups[1..])
  {
  }

  lemma {:induction false} ReadGroups(s: State, groups: seq<Group>)
    requires !s.collectingAgents && forall i :: 0 <= i < |groups| ==> IsPrintableGroup(groups[i])
    ensures var t := RunLines(s, AllGroupLines(groups));
      !t.collectingAgents && Flushed(t) == Flushed(s) + NormalGroups(groups) && t.sitemaps == s.sitemaps
    ensures forall l :: l in AllGroupLines(groups) ==> IsPrintedLine(l)
    decreases groups
  {
    if groups == [] {
      assert Flushed(s) + NormalGroups(groups) == Flushed(s);
    } else {
      hide *;
      ReadGroup(s, groups[0]);
      ReadGroups(RunLines(s, GroupLines(groups[0])), groups[1..]);
      RunConcat(s, GroupLines(groups[0]), AllGroupLines(groups[1..]));
      FirstGroup(groups);
      Associative(Flushed(s), [NormalGroup(groups[0])], NormalGroups(groups[1..]));
    }
  }

  lemma {:induction false} ReadSitemaps(s: State, sitemaps: seq<string>)
    requires !s.collectingAgents && forall i :: 0 <= i < |sitemaps| ==> IsCarried(sitemaps[i])
    ensures RunLines(s, SitemapLines(sitemaps)) == s.(sitemaps := s.sitemaps + sitemaps)
    ensures forall l :: l in SitemapLines(sitemaps) ==> IsPrintedLine(l)
    decreases sitemaps
  {
    hide ParseLine, IsPrintedLine;
    if sitemaps == [] {
      assert s.sitemaps + sitemaps == s.sitemaps;
    } else {
      ReadRecord("sitemap", sitemaps[0]);
      var t := s.(sitemaps := s.sitemaps + [sitemaps[0]]);
      assert Step(s, ParseLine(Record("sitemap", sitemaps[0]))) == t;
      ReadSitemaps(t, sitemaps[1..]);
      assert s.sitemaps + sitemaps == s.sitemaps + [sitemaps[0]] + sitemaps[1..];
      assert SitemapLines(sitemaps)[1..] == SitemapLines(sitemaps[1..]);
    }
  }

  // ----- the round trip

  lemma {:induction false} LinesOfJoined(lines: seq<string>)
    requires forall l :: l in lines ==> IsPrintedLine(l)
    ensures Lines(Joined(lines)) == lines + [""]
    ensures lines != [] ==> Joined(lines) != "" && Joined(lines)[0] != BOM
  {
    if lines == [] {
      assert lines + [""] == [""];
    } else {
      var line, rest := lines[0], Joined(lines[1..]);
      LinesOfJoined(lines[1..]);
      assert line in lines && Joined(lines)[0] == line[0];
      var front := LinesConcat(line + "\n", rest);
      OneLine(line, "\n");
      assert [line, ""] == [line] + [""];
      SameFront(front, [line], [""]);
      assert lines == [line] + lines[1..];
    }
  }

  /** Parsing what was printed gives the rules back with every pattern in normal form. */
  lemma PrintThenParse(rules: Rules)
    requires IsPrintable(rules)
    ensures Parsed(Print(rules)) == NormalForm(rules)
  {
    hide RunLines, IsPrintedLine, AllGroupLines, SitemapLines, NormalGroups, Lines, Joined, IsPrintableGroup, IsCarried;
    var groupLines, sitemapLines := AllGroupLines(rules.groups), SitemapLines(rules.sitemaps);
    ReadGroups(START, rules.groups);
    var mid := RunLines(START, groupLines);
    assert Flushed(START) + NormalGroups(rules.groups) == NormalGroups(rules.groups);
    ReadSitemaps(mid, rules.sitemaps);
    assert mid.sitemaps + rules.sitemaps == rules.sitemaps;
    RunConcat(START, groupLines, sitemapLines);
    var lines := PrintedLines(rules);
    LinesOfJoined(lines);
    BomDoesNotMatter(Print(rules));
    RunConcat(START, lines, [""]);
    EmptyLineIsOther();
    OtherStep(RunLines(START, lines), ParseLine(""));
    OneStep(RunLines(START, lines), "");
  }

  lemma EmptyLineIsOther()
    ensures !IsRecord(ParseLine(""))
  {
  }

  ghost predicate HasNormalPatterns(rules: Rules) {
    forall i, j :: 0 <= i < |rules.groups| && 0 <= j < |rules.groups[i].rules| ==>
      PercentEncoding.IsNormal(rules.groups[i].rules[j].pattern)
  }

  lemma NormalFormFixed(rules: Rules)
    ensures NormalForm(rules) == rules <==> HasNormalPatterns(rules)
  {
    forall i, j | 0 <= i < |rules.groups| && 0 <= j < |rules.groups[i].rules|
      ensures PercentEncoding.IsNormal(rules.groups[i].rules[j].pattern)
         <==> NormalGroups(rules.groups)[i].rules[j] == rules.groups[i].rules[j]
    {
      PercentEncoding.FixedPoints(rules.groups[i].rules[j].pattern);
    }
    if HasNormalPatterns(rules) {
      forall i | 0 <= i < |rules.groups| ensures NormalGroup(rules.groups[i]) == rules.groups[i] {
        assert NormalRules(rules.groups[i].rules) == rules.groups[i].rules;
      }
      assert NormalGroups(rules.groups) == rules.groups;
    }
  }

  /** Printing and parsing again loses nothing exactly when the patterns are in percent-encoding normal form. */
  lemma RoundTrip(rules: Rules)
    requires IsPrintable(rules)
    ensures Parsed(Print(rules)) == rules <==> HasNormalPatterns(rules)
  {
    PrintThenParse(rules);
    NormalFormFixed(rules);
  }

  // ----- what parsing yields can always be printed

  lemma {:induction false} UnifiedHasNoReturn(text: string)
    ensures '\r' !in UnifyNewlines(text)
    decreases |text|
  {
    if text != "" {
      UnifiedHasNoReturn(text[FirstLength(text)..]);
      UnifyFirst(text);
    }
  }

  lemma ReadValue(line: string)
    requires IsOneLine(line) && ParseLine(line).Some?
    ensures ParseLine(line).value.value == "" || IsCarried(ParseLine(line).value.value)
  {
    hide IsSpace, Lower;
    var bare := Trim(StripComment(line));
    assert '#' !in StripComment(line);
    assert forall c :: c in bare ==> c in line;
    var sep := IndexOf(bare, ':');
    assert forall c :: c in bare[sep + 1..] ==> c in bare;
  }

  lemma LowerIsCarried(s: string)
    requires IsCarried(s)
    ensures IsAgent(Lower(s))
  {
    var r := Lower(s);
    forall i | 0 <= i < |s| ensures IsSpace(r[i]) == IsSpace(s[i]) && LowerChar(r[i]) == r[i] {
    }
    assert Lower(r) == r;
  }

  lemma {:induction false} NormalizedChars(s: string)
    ensures forall i :: 0 <= i < |PercentEncoding.Normalized(s)| ==> '!' <= PercentEncoding.Normalized(s)[i] <= '~'
    ensures '#' in PercentEncoding.Normalized(s) ==> '#' in s
  {
    if s != "" {
      var n := if PercentEncoding.IsTriplet(s) then 3 else 1;
      NormalizedChars(s[n..]);
      if !PercentEncoding.IsTriplet(s) && PercentEncoding.NeedsEncoding(s[0]) {
        EncodedChars(PercentEncoding.Utf8(s[0]));
      }
    }
  }

  lemma {:induction false} EncodedChars(bytes: seq<PercentEncoding.Byte>)
    ensures forall i :: 0 <= i < |PercentEncoding.EncodedAll(bytes)| ==>
      '%' <= PercentEncoding.EncodedAll(bytes)[i] <= 'F'
  {
    if bytes != [] {
      EncodedChars(bytes[1..]);
    }
  }

  lemma NormalizedIsPattern(s: string)
    requires IsPattern(s)
    ensures IsPattern(PercentEncoding.Normalized(s))
  {
    NormalizedChars(s);
    assert PercentEncoding.Normalized(s) == [s[0]] + PercentEncoding.Normalized(s[1..]);
  }

  ghost predicate HoldsPrintable(s: State) {
    && (forall i :: 0 <= i < |s.groups| ==> IsPrintableGroup(s.groups[i]))
    && (forall i :: 0 <= i < |s.sitemaps| ==> IsCarried(s.sitemaps[i]))
    && (forall i :: 0 <= i < |s.currentAgents| ==> IsAgent(s.currentAgents[i]))
    && (forall i :: 0 <= i < |s.currentRules| ==> IsPrintableRule(s.currentRules[i]))
  }

  lemma StepHoldsPrintable(s: State, line: string)
    requires HoldsPrintable(s) && IsOneLine(line)
    ensures HoldsPrintable(Step(s, ParseLine(line)))
  {
    hide ParseLine, IsCarried, IsAgent, IsPattern, PercentEncoding.Normalized, Lower;
    assert PercentEncoding.Normalized("") == "" by { NormalizedEmpty(); }
    var d := ParseLine(line);
    if d.Some? {
      ReadValue(line);
      var value := d.value.value;
      if value != "" {
        LowerIsCarried(value);
        if value[0] == '/' || value[0] == '*' {
          CarriedPattern(value);
          NormalizedIsPattern(value);
        }
      }
    }
  }

  lemma NormalizedEmpty()
    ensures PercentEncoding.Normalized("") == ""
  {
  }

  lemma CarriedPattern(value: string)
    requires IsCarried(value) && value != "" && (value[0] == '/' || value[0] == '*')
    ensures IsPattern(value)
  {
  }

  lemma {:induction false} RunHoldsPrintable(s: State, lines: seq<string>)
    requires HoldsPrintable(s) && forall i :: 0 <= i < |lines| ==> IsOneLine(lines[i])
    ensures HoldsPrintable(RunLines(s, lines))
    decreases lines
  {
    hide HoldsPrintable, IsOneLine, Step, ParseLine;
    if lines != [] {
      StepHoldsPrintable(s, lines[0]);
      RunHoldsPrintable(Step(s, ParseLine(lines[0])), lines[1..]);
    }
  }

  lemma ParsedIsPrintable(text: string)
    ensures IsPrintable(Parsed(text))
  {
    hide RunLines, StripBom, SplitOn, UnifyNewlines;
    var unified := UnifyNewlines(StripBom(text));
    UnifiedHasNoReturn(StripBom(text));
    SplitParts(unified, '\n');
    assert HoldsPrintable(START);
    RunHoldsPrintable(START, SplitOn(unified, '\n'));
  }

  /** For any text at all: what was parsed survives printing and parsing iff its patterns are normal. */
  lemma ParsePrintParse(text: string)
    ensures Parsed(Print(Parsed(text))) == Parsed(text) <==> HasNormalPatterns(Parsed(text))
  {
    ParsedIsPrintable(text);
    RoundTrip(Parsed(text));
  }
}
