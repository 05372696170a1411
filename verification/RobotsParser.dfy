/**
  The line parser for robots.txt (src/robots/parser.ts). `Parsed` is the parse as a fold over lines; a printer is its
  partner, and lines that are no record of the grammar turn out not to matter.
*/
module RobotsParser {
  import opened Common
  import opened RobotsRules
  import opened Text
  import PercentEncoding

  const BOM: char := '\U{FEFF}'

  // ----- text to lines

  function StripBom(text: string): string {
    if text != "" && text[0] == BOM then text[1..] else text
  }

  /** A carriage return ends a line, together with a line feed right after it. */
  function UnifyNewlines(text: string): string {
    if text == "" then ""
    else if text[0] == '\r' then
      ['\n'] + UnifyNewlines(if |text| > 1 && text[1] == '\n' then text[2..] else text[1..])
    else [text[0]] + UnifyNewlines(text[1..])
  }

  function Lines(text: string): (lines: seq<string>) {
    SplitOn(UnifyNewlines(text), '\n')
  }

  // ----- one line

  /** What String.prototype.trim removes. */
  predicate IsSpace(c: char) {
    || '\t' <= c <= '\r' || c == ' ' || c == '\U{00A0}' || c == '\U{1680}' || '\U{2000}' <= c <= '\U{200A}'
    || c == '\U{2028}' || c == '\U{2029}' || c == '\U{202F}' || c == '\U{205F}' || c == '\U{3000}' || c == BOM
  }

  predicate IsTrimmed(s: string) {
    s != "" ==> !IsSpace(s[0]) && !IsSpace(s[|s| - 1])
  }

  function TrimStart(s: string): (r: string)
    ensures r != "" ==> !IsSpace(r[0])
    ensures forall c :: c in r ==> c in s
  {
    if s != "" && IsSpace(s[0]) then TrimStart(s[1..]) else s
  }

  function TrimEnd(s: string): (r: string)
    ensures r <= s
    ensures r != "" ==> !IsSpace(r[|r| - 1])
  {
    if s != "" && IsSpace(s[|s| - 1]) then TrimEnd(s[..|s| - 1]) else s
  }

  function Trim(s: string): (r: string)
    ensures IsTrimmed(r)
    ensures forall c :: c in r ==> c in s
  {
    TrimEnd(TrimStart(s))
  }

  function IndexOf(s: string, c: char): (i: int)
    ensures -1 <= i < |s|
    ensures i == -1 ==> c !in s
    ensures i >= 0 ==> s[i] == c && c !in s[..i]
  {
    if s == "" then -1
    else if s[0] == c then 0
    else
      var i := IndexOf(s[1..], c);
      assert s == [s[0]] + s[1..];
      if i == -1 then -1 else
        assert s[..i + 1] == [s[0]] + s[1..][..i];
        i + 1
  }

  function StripComment(line: string): string {
    var idx := IndexOf(line, '#');
    if idx == -1 then line else line[..idx]
  }

  datatype RawDirective = RawDirective(field: string, value: string)

  function ParseLine(line: string): Option<RawDirective> {
    var withoutComment := Trim(StripComment(line));
    if withoutComment == "" then None
    else
      var sep := IndexOf(withoutComment, ':');
      if sep == -1 then None
      else Some(RawDirective(Lower(Trim(withoutComment[..sep])), Trim(withoutComment[sep + 1..])))
  }

  predicate IsValidPathValue(value: string) {
    value == "" || value[0] == '/' || value[0] == '*'
  }

  // ----- the parse as a fold

  datatype State = State(groups: seq<Group>, sitemaps: seq<string>,
                         currentAgents: seq<string>, currentRules: seq<Rule>, collectingAgents: bool)

  const START := State([], [], [], [], false)

  function Flushed(s: State): seq<Group> {
    if s.currentAgents == [] then s.groups else s.groups + [Group(s.currentAgents, s.currentRules)]
  }

  function StepAgent(s: State, value: string): State {
    var t := if s.collectingAgents then s else s.(groups := Flushed(s), currentAgents := [], currentRules := []);
    t.(currentAgents := if value == "" then t.currentAgents else t.currentAgents + [Lower(value)],
       collectingAgents := true)
  }

  function StepRule(s: State, directive: Directive, value: string): State {
    var t := s.(collectingAgents := false);
    if s.currentAgents == [] || !IsValidPathValue(value) || (directive == Disallow && value == "") then t
    else t.(currentRules := s.currentRules + [Rule(directive, PercentEncoding.Normalized(value))])
  }

  function StepSitemap(s: State, value: string): State {
    s.(collectingAgents := false, sitemaps := if value == "" then s.sitemaps else s.sitemaps + [value])
  }

  function Step(s: State, line: Option<RawDirective>): State {
    if line == None then s
    else if line.value.field == "user-agent" then StepAgent(s, line.value.value)
    else if line.value.field == "allow" then StepRule(s, Allow, line.value.value)
    else if line.value.field == "disallow" then StepRule(s, Disallow, line.value.value)
    else if line.value.field == "sitemap" then StepSitemap(s, line.value.value)
    else s
  }

  function RunLines(s: State, lines: seq<string>): State
    decreases lines
  {
    if lines == [] then s else RunLines(Step(s, ParseLine(lines[0])), lines[1..])
  }

  function Finish(s: State): Rules {
    Rules(Flushed(s), s.sitemaps)
  }

  function Parsed(text: string): Rules {
    Finish(RunLines(START, Lines(StripBom(text))))
  }

  lemma RunStep(s: State, lines: seq<string>, i: nat)
    requires i < |lines|
    ensures RunLines(s, lines[i..]) == RunLines(Step(s, ParseLine(lines[i])), lines[i + 1..])
  {
    assert lines[i..][1..] == lines[i + 1..];
  }

  method ParseRobotsTxt(text: string) returns (rules: Rules)
    ensures rules == Parsed(text)
  {
    var lines := Lines(StripBom(text));
    var groups: seq<Group>, sitemaps: seq<string> := [], [];
    var currentAgents: seq<string>, currentRules: seq<Rule>, collectingAgents := [], [], false;
    for i := 0 to |lines|
      invariant RunLines(State(groups, sitemaps, currentAgents, currentRules, collectingAgents), lines[i..])
             == RunLines(START, lines)
    {
      hide PercentEncoding.Normalized, Lower, Lines, StripBom, RunLines, ParseLine, IsValidPathValue;
      RunStep(State(groups, sitemaps, currentAgents, currentRules, collectingAgents), lines, i);
      var directive := ParseLine(lines[i]);
      if directive == None { continue; }
      var RawDirective(field, value) := directive.value;
      if field == "user-agent" {
        if !collectingAgents {
          if |currentAgents| > 0 {
            groups := groups + [Group(currentAgents, currentRules)];
          }
          currentAgents, currentRules := [], [];
        }
        if value != "" { currentAgents := currentAgents + [Lower(value)]; }
        collectingAgents := true;
      } else if field == "allow" || field == "disallow" {
        collectingAgents := false;
        if |currentAgents| == 0 { continue; }
        if !IsValidPathValue(value) { continue; }
        if field == "disallow" && value == "" { continue; }
        var pattern := PercentEncoding.NormalizePercentEncoding(value);
        currentRules := currentRules + [Rule(if field == "allow" then Allow else Disallow, pattern)];
      } else if field == "sitemap" {
        collectingAgents := false;
        if value != "" { sitemaps := sitemaps + [value]; }
      }
    }
    assert RunLines(State(groups, sitemaps, currentAgents, currentRules, collectingAgents), lines[|lines|..])
        == State(groups, sitemaps, currentAgents, currentRules, collectingAgents);
    if |currentAgents| > 0 {
      groups := groups + [Group(currentAgents, currentRules)];
    }
    rules := Rules(groups, sitemaps);
  }

  // ----- lines that do not matter

  lemma {:induction false} RunConcat(s: State, a: seq<string>, b: seq<string>)
    ensures RunLines(s, a + b) == RunLines(RunLines(s, a), b)
    decreases a
  {
    hide Step, ParseLine;
    if a == [] {
      assert a + b == b;
    } else {
      assert (a + b)[0] == a[0] && (a + b)[1..] == a[1..] + b;
      RunConcat(Step(s, ParseLine(a[0])), a[1..], b);
    }
  }

  /** Blank lines, comments, lines without a colon and records of other kinds (section 2.2.4 of RFC 9309). */
  predicate IsOther(line: string) {
    !IsRecord(ParseLine(line))
  }

  predicate IsRecord(d: Option<RawDirective>) {
    d.Some? && (d.value.field == "user-agent" || d.value.field == "allow" || d.value.field == "disallow"
                || d.value.field == "sitemap")
  }

  /** The first line end or character of the text, in the unified form, and how long it is in the text. */
  function FirstLength(text: string): (n: nat)
    requires text != ""
    ensures 1 <= n <= |text|
  {
    if text[0] == '\r' && |text| > 1 && text[1] == '\n' then 2 else 1
  }

  lemma UnifyFirst(text: string)
    requires text != ""
    ensures UnifyNewlines(text)
         == [if text[0] == '\r' then '\n' else text[0]] + UnifyNewlines(text[FirstLength(text)..])
  {
  }

  /** A text cut between the two characters of a line end, and not elsewhere, is unified otherwise than its parts. */
  predicate CutsLineEnd(a: string, b: string) {
    a != "" && a[|a| - 1] == '\r' && b != "" && b[0] == '\n'
  }

  lemma UnifyMore(a: string, b: string)
    requires a != "" && !CutsLineEnd(a, b)
    requires UnifyNewlines(a[FirstLength(a)..] + b) == UnifyNewlines(a[FirstLength(a)..]) + UnifyNewlines(b)
    ensures UnifyNewlines(a + b) == UnifyNewlines(a) + UnifyNewlines(b)
  {
    hide UnifyNewlines;
    var n := FirstLength(a);
    UnifyFirst(a);
    UnifyFirst(a + b);
    assert n == FirstLength(a + b);
    assert (a + b)[n..] == a[n..] + b;
  }

  lemma {:induction false} UnifyConcat(a: string, b: string)
    requires !CutsLineEnd(a, b)
    ensures UnifyNewlines(a + b) == UnifyNewlines(a) + UnifyNewlines(b)
    decreases |a|
  {
    if a == "" {
      assert a + b == b;
    } else {
      hide UnifyNewlines;
      UnifyConcat(a[FirstLength(a)..], b);
      UnifyMore(a, b);
    }
  }

  predicate EndsLine(a: string) {
    a != "" && (a[|a| - 1] == '\n' || a[|a| - 1] == '\r')
  }

  lemma {:induction false} UnifyEndsLine(a: string) returns (body: string)
    requires EndsLine(a)
    ensures UnifyNewlines(a) == body + "\n"
    decreases |a|
  {
    var n := FirstLength(a);
    UnifyFirst(a);
    if n == |a| {
      body := "";
      assert a[n..] == "";
    } else {
      var rest := UnifyEndsLine(a[n..]);
      body := [UnifyNewlines(a)[0]] + rest;
    }
  }

  /** A line feed after a carriage return adds nothing. */
  lemma {:induction false} LineFeedAfterReturn(a: string)
    requires a != "" && a[|a| - 1] == '\r'
    ensures UnifyNewlines(a + "\n") == UnifyNewlines(a)
    decreases |a|
  {
    var n := FirstLength(a);
    UnifyFirst(a);
    UnifyFirst(a + "\n");
    if n == |a| {
      assert a == "\r" && (a + "\n")[2..] == "" && a[1..] == "";
    } else {
      assert (a + "\n")[n..] == a[n..] + "\n";
      LineFeedAfterReturn(a[n..]);
    }
  }

  /** Text that ends a line contributes its own lines, unless the next character belongs to that line end. */
  lemma LinesConcat(a: string, b: string) returns (front: seq<string>)
    requires EndsLine(a) && !CutsLineEnd(a, b)
    ensures Lines(a + b) == front + Lines(b)
    ensures Lines(a) == front + [""]
  {
    UnifyConcat(a, b);
    var body := UnifyEndsLine(a);
    front := SplitOn(body, '\n');
    SplitConcat(body, UnifyNewlines(b), '\n');
    SplitConcat(body, "", '\n');
    assert body + "\n" + "" == body + "\n";
  }

  /** The lines that are records. */
  function Records(lines: seq<string>): seq<string> {
    if lines == [] then []
    else (if IsOther(lines[0]) then [] else [lines[0]]) + Records(lines[1..])
  }

  lemma {:induction false} RecordsConcat(a: seq<string>, b: seq<string>)
    ensures Records(a + b) == Records(a) + Records(b)
  {
    hide IsOther;
    if a == [] {
      assert a + b == b;
    } else {
      assert (a + b)[0] == a[0] && (a + b)[1..] == a[1..] + b;
      RecordsConcat(a[1..], b);
    }
  }

  lemma BlankIsOther()
    ensures Records([""]) == []
  {
    assert [""][1..] == [];
  }

  lemma {:induction false} OnlyRecordsRun(s: State, lines: seq<string>)
    ensures RunLines(s, lines) == RunLines(s, Records(lines))
    decreases lines
  {
    hide ParseLine, PercentEncoding.Normalized, Lower;
    if lines != [] {
      var rest := Records(lines[1..]);
      if IsOther(lines[0]) {
        OnlyRecordsRun(s, lines[1..]);
        assert [] + rest == rest;
      } else {
        OnlyRecordsRun(Step(s, ParseLine(lines[0])), lines[1..]);
        assert ([lines[0]] + rest)[1..] == rest;
      }
    }
  }

  function RecordsOf(text: string): seq<string> {
    Records(Lines(text))
  }

  /** The records of a text that ends a line come before those of what follows, whatever the line ends are. */
  lemma RecordsOfConcat(a: string, b: string)
    requires a == "" || EndsLine(a)
    ensures RecordsOf(a + b) == RecordsOf(a) + RecordsOf(b)
  {
    hide Lines, Records;
    BlankIsOther();
    if a == "" {
      assert a + b == b;
      NoLine();
      assert [] + RecordsOf(b) == RecordsOf(b);
    } else if CutsLineEnd(a, b) {
      var rest := b[1..];
      assert a + b == (a + "\n") + rest && b == "\n" + rest;
      SameLines(a);
      var front := LinesConcat(a + "\n", rest);
      var none := LinesConcat("\n", rest);
      RecordsConcat(front, Lines(rest));
      RecordsConcat(front, [""]);
      RecordsConcat(none, Lines(rest));
      RecordsConcat(none, [""]);
      LineFeedOnly();
      assert Records(none) + [] == Records(none) && Records(front) + [] == Records(front);
    } else {
      var front := LinesConcat(a, b);
      RecordsConcat(front, Lines(b));
      RecordsConcat(front, [""]);
      assert Records(front) + [] == Records(front);
    }
  }

  lemma NoLine()
    ensures RecordsOf("") == []
  {
    BlankIsOther();
    assert Lines("") == [""];
  }

  lemma LineFeedOnly()
    ensures RecordsOf("\n") == []
  {
    BlankIsOther();
    RecordsConcat([""], [""]);
    assert "\n"[1..] == "" && UnifyNewlines("\n") == ['\n'] + "";
    assert Lines("\n") == [""] + [""];
  }

  lemma SameLines(a: string)
    requires a != "" && a[|a| - 1] == '\r'
    ensures Lines(a + "\n") == Lines(a)
  {
    LineFeedAfterReturn(a);
  }

  predicate IsOneLine(line: string) {
    '\n' !in line && '\r' !in line
  }

  lemma {:induction false} PlainLine(line: string)
    requires '\n' !in line && '\r' !in line
    ensures Lines(line) == [line]
  {
    if line != "" {
      assert line == [line[0]] + line[1..];
      PlainLine(line[1..]);
    }
  }

  predicate IsLineEnd(end: string) {
    end == "\n" || end == "\r" || end == "\r\n"
  }

  lemma OneLine(line: string, end: string)
    requires '\n' !in line && '\r' !in line && IsLineEnd(end)
    ensures Lines(line + end) == [line, ""]
  {
    PlainLine(line);
    UnifyConcat(line, end);
    assert UnifyNewlines(end) == "\n" && SplitOn("", '\n') == [""];
    SplitConcat(UnifyNewlines(line), "", '\n');
    assert UnifyNewlines(line) + "\n" + "" == UnifyNewlines(line) + "\n";
  }

  /** The byte order mark counts as white space, so stripping it first changes nothing. */
  lemma BomDoesNotMatter(text: string)
    ensures Parsed(text) == Finish(RunLines(START, Lines(text)))
  {
    if text != "" && text[0] == BOM {
      var rest := Lines(text[1..]);
      assert Lines(text) == [[BOM] + rest[0]] + rest[1..];
      BomOnLine(rest[0]);
    }
  }

  lemma SpaceBefore(c: char, s: string)
    requires IsSpace(c)
    ensures TrimStart([c] + s) == TrimStart(s)
  {
    assert ([c] + s)[1..] == s;
  }

  lemma BomOnLine(line: string)
    ensures ParseLine([BOM] + line) == ParseLine(line)
  {
    hide TrimStart;
    var marked := [BOM] + line;
    assert marked[1..] == line;
    var idx := IndexOf(line, '#');
    assert IndexOf(marked, '#') == if idx == -1 then -1 else idx + 1;
    assert StripComment(marked) == [BOM] + StripComment(line);
    SpaceBefore(BOM, StripComment(line));
  }

  lemma ParsedIsRecords(text: string)
    ensures Parsed(text) == Finish(RunLines(START, RecordsOf(text)))
  {
    hide *;
    BomDoesNotMatter(text);
    OnlyRecordsRun(START, Lines(text));
    RecordsOfLines(text);
  }

  lemma RecordsOfLines(text: string)
    ensures RecordsOf(text) == Records(Lines(text))
  {
  }

  lemma NoRecord(line: string, end: string)
    requires '\n' !in line && '\r' !in line && IsOther(line) && IsLineEnd(end)
    ensures RecordsOf(line + end) == []
  {
    hide IsOther, Lines;
    OneLine(line, end);
    assert [line, ""][1..] == [""];
    BlankIsOther();
  }

  /**
    Inserting such a line, with any line end, between any two lines or before the first one changes neither groups nor
    sitemaps.
  */
  lemma OtherLinesDoNotMatter(before: string, line: string, end: string, after: string)
    requires before == "" || EndsLine(before)
    requires '\n' !in line && '\r' !in line && IsOther(line) && IsLineEnd(end)
    ensures Parsed(before + (line + end) + after) == Parsed(before + after)
  {
    hide RecordsOf, Parsed, RunLines, IsOther;
    ParsedIsRecords(before + (line + end) + after);
    ParsedIsRecords(before + after);
    EndsWithEnd(before, line, end);
    RecordsOfConcat(before + (line + end), after);
    RecordsOfConcat(before, line + end);
    RecordsOfConcat(before, after);
    NoRecord(line, end);
    assert RecordsOf(before) + [] == RecordsOf(before);
  }

  lemma EndsWithEnd(before: string, line: string, end: string)
    requires IsLineEnd(end)
    ensures EndsLine(before + (line + end))
  {
    var text := before + (line + end);
    assert text[|text| - 1] == end[|end| - 1];
  }

  lemma OtherStep(s: State, d: Option<RawDirective>)
    ensures !IsRecord(d) ==> Step(s, d) == s
  {
    hide PercentEncoding.Normalized, Lower;
  }

  lemma SameFront<T>(a: seq<T>, b: seq<T>, tail: seq<T>)
    requires a + tail == b + tail
    ensures a == b
  {
    assert a == (a + tail)[..|a|] && b == (b + tail)[..|b|];
  }

  // ----- where sitemap lines do matter

  predicate NextIsAgent(lines: seq<string>)
    decreases lines
  {
    lines != [] &&
    if IsOther(lines[0]) then NextIsAgent(lines[1..]) else ParseLine(lines[0]).value.field == "user-agent"
  }

  /** Before these lines start another group they name an agent, or give a rule, for the one being read. */
  predicate AddsToGroup(lines: seq<string>, collectingAgents: bool)
    decreases lines
  {
    lines != [] &&
    if IsOther(lines[0]) then AddsToGroup(lines[1..], collectingAgents)
    else
      var RawDirective(field, value) := ParseLine(lines[0]).value;
      if field == "user-agent" then collectingAgents && (value != "" || AddsToGroup(lines[1..], true))
      else
        || (field == "allow" && IsValidPathValue(value))
        || (field == "disallow" && IsValidPathValue(value) && value != "")
        || AddsToGroup(lines[1..], false)
  }

  /** Whatever follows, groups that are complete stay in front, and the one being built comes next. */
  lemma {:induction false} GroupsOnlyGrow(s: State, lines: seq<string>)
    ensures var groups := Flushed(RunLines(s, lines));
      && s.groups <= groups
      && (s.currentAgents != [] ==>
            && |groups| > |s.groups|
            && s.currentAgents <= groups[|s.groups|].userAgents
            && s.currentRules <= groups[|s.groups|].rules)
    decreases lines
  {
    hide ParseLine, PercentEncoding.Normalized, Lower;
    if lines != [] {
      GroupsOnlyGrow(Step(s, ParseLine(lines[0])), lines[1..]);
    }
  }

  /** The same state but for the flag that the last record was a user-agent line, and for sitemaps. */
  predicate SameButCollecting(s: State, t: State) {
    s.groups == t.groups && s.currentAgents == t.currentAgents && s.currentRules == t.currentRules
  }

  lemma {:induction false} SitemapsDoNotMatter(s: State, t: State, lines: seq<string>)
    requires SameButCollecting(s, t) && s.collectingAgents == t.collectingAgents
    ensures Flushed(RunLines(s, lines)) == Flushed(RunLines(t, lines))
    decreases lines
  {
    hide ParseLine, PercentEncoding.Normalized, Lower;
    if lines != [] {
      SitemapsDoNotMatter(Step(s, ParseLine(lines[0])), Step(t, ParseLine(lines[0])), lines[1..]);
    }
  }

  /** A group that was closed early, without rules, stays apart from the one still being read once that one grows. */
  lemma {:induction false} ClosedEarly(s: State, t: State, lines: seq<string>)
    requires s.currentAgents != [] && s.currentRules == [] && s.collectingAgents == t.collectingAgents
    requires t.groups == Flushed(s) && t.currentAgents == [] && t.currentRules == []
    ensures Flushed(RunLines(s, lines)) == Flushed(RunLines(t, lines)) <==> !AddsToGroup(lines, s.collectingAgents)
    decreases lines
  {
    hide ParseLine, PercentEncoding.Normalized, Lower;
    if lines != [] {
      var s', t' := Step(s, ParseLine(lines[0])), Step(t, ParseLine(lines[0]));
      GroupsOnlyGrow(s', lines[1..]);
      GroupsOnlyGrow(t', lines[1..]);
      if s'.groups == s.groups && s'.currentAgents == s.currentAgents && s'.currentRules == [] {
        ClosedEarly(s', t', lines[1..]);
      } else if s'.groups == s.groups {
        assert t'.groups[|s.groups|] == Group(s.currentAgents, []);
      } else {
        SitemapsDoNotMatter(s', t', lines[1..]);
      }
    }
  }

  /** Collecting agents or not makes a difference only between two user-agent lines. */
  lemma {:induction false} FlagMatters(s: State, t: State, lines: seq<string>)
    requires SameButCollecting(s, t) && s.collectingAgents && !t.collectingAgents && s.currentRules == []
    ensures Flushed(RunLines(s, lines)) == Flushed(RunLines(t, lines))
       <==> s.currentAgents == [] || !NextIsAgent(lines) || !AddsToGroup(lines, true)
    decreases lines
  {
    hide ParseLine, PercentEncoding.Normalized, Lower;
    if lines != [] {
      var line := ParseLine(lines[0]);
      var s', t' := Step(s, line), Step(t, line);
      if IsOther(lines[0]) {
        FlagMatters(s, t, lines[1..]);
      } else if line.value.field == "user-agent" && s.currentAgents != [] {
        if line.value.value == "" {
          ClosedEarly(s', t', lines[1..]);
        } else {
          GroupsOnlyGrow(s', lines[1..]);
          GroupsOnlyGrow(t', lines[1..]);
          assert t'.groups[|s.groups|] == Group(s.currentAgents, []);
        }
      } else {
        assert s'.groups == t'.groups;
        SitemapsDoNotMatter(s', t', lines[1..]);
      }
    }
  }

  /**
    Section 2.2.4 of RFC 9309 wants a sitemap line between records to leave them as they are. Here it does so exactly
    when it does not stand between two user-agent lines of one group that goes on to get an agent or a rule.
  */
  lemma SitemapLineBetween(before: seq<string>, line: string, after: seq<string>)
    requires ParseLine(line).Some? && ParseLine(line).value.field == "sitemap"
    ensures var s := RunLines(START, before);
      Flushed(RunLines(START, before + [line] + after)) == Flushed(RunLines(START, before + after))
      <==> !s.collectingAgents || s.currentAgents == [] || !NextIsAgent(after) || !AddsToGroup(after, true)
  {
    hide ParseLine, NextIsAgent, AddsToGroup, Lower;
    var s := RunLines(START, before);
    var t := Step(s, ParseLine(line));
    RunConcat(START, before, after);
    RunConcat(START, before + [line], after);
    RunConcat(START, before, [line]);
    assert RunLines(s, [line]) == t by { OneStep(s, line); }
    CollectingMeansNoRules(START, before);
    if s.collectingAgents {
      FlagMatters(s, t, after);
    } else {
      SitemapsDoNotMatter(s, t, after);
    }
  }

  lemma OneStep(s: State, line: string)
    ensures RunLines(s, [line]) == Step(s, ParseLine(line))
  {
    assert [line][1..] == [];
  }

  lemma {:induction false} CollectingMeansNoRules(s: State, lines: seq<string>)
    requires s.collectingAgents ==> s.currentRules == []
    ensures RunLines(s, lines).collectingAgents ==> RunLines(s, lines).currentRules == []
    decreases lines
  {
    hide ParseLine, Lower, PercentEncoding.Normalized;
    if lines != [] {
      CollectingMeansNoRules(Step(s, ParseLine(lines[0])), lines[1..]);
    }
  }
}
