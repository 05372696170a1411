/**
  How a line of robots.txt may be written. White space around a field and its value, the case of the field and a comment
  at the end of the line make no difference to what the text is parsed to.
*/
module RobotsLines {
  import opened Common
  import opened RobotsRules
  import opened RobotsParser
  import opened Text

  // ----- trimming

  /** The white space and line ends of ECMAScript, which String.prototype.trim takes away. */
  const WHITE_SPACE: string :=
    "\t\n\U{000B}\U{000C}\r \U{00A0}\U{1680}\U{2000}\U{2001}\U{2002}\U{2003}\U{2004}\U{2005}\U{2006}\U{2007}"
    + "\U{2008}\U{2009}\U{200A}\U{2028}\U{2029}\U{202F}\U{205F}\U{3000}\U{FEFF}"

  lemma SpaceExactly(c: char)
    ensures IsSpace(c) <==> c in WHITE_SPACE
  {
    if '\U{2000}' <= c <= '\U{2007}' {
      assert WHITE_SPACE[8 + (c as int - 0x2000)] == c;
    } else if '\t' <= c <= '\r' {
      assert WHITE_SPACE[c as int - 9] == c;
    } else if '\U{2008}' <= c <= '\U{200A}' {
      assert WHITE_SPACE[16 + (c as int - 0x2008)] == c;
    } else if IsSpace(c) {
      assert WHITE_SPACE[5] == ' ' && WHITE_SPACE[6] == '\U{00A0}' && WHITE_SPACE[7] == '\U{1680}';
      assert WHITE_SPACE[19] == '\U{2028}' && WHITE_SPACE[20] == '\U{2029}' && WHITE_SPACE[21] == '\U{202F}';
      assert WHITE_SPACE[22] == '\U{205F}' && WHITE_SPACE[23] == '\U{3000}' && WHITE_SPACE[24] == BOM;
    }
  }

  predicate IsBlank(s: string) {
    forall i :: 0 <= i < |s| ==> IsSpace(s[i])
  }

  lemma {:induction false} TrimStartOf(before: string, s: string)
    requires IsBlank(before) && (s != "" ==> !IsSpace(s[0]))
    ensures TrimStart(before + s) == s
  {
    hide IsSpace;
    if before == "" {
      assert before + s == s;
    } else {
      assert (before + s)[0] == before[0] && (before + s)[1..] == before[1..] + s;
      TrimStartOf(before[1..], s);
    }
  }

  lemma {:induction false} TrimEndOf(s: string, behind: string)
    requires IsBlank(behind) && (s != "" ==> !IsSpace(s[|s| - 1]))
    ensures TrimEnd(s + behind) == s
  {
    hide IsSpace;
    if behind == "" {
      assert s + behind == s;
    } else {
      var n := |behind| - 1;
      var all := s + behind;
      assert all[|all| - 1] == behind[n] && all[..|all| - 1] == s + behind[..n];
      TrimEndOf(s, behind[..n]);
    }
  }

  /** White space around a text without any at its ends is what trimming takes away. */
  lemma TrimOf(before: string, s: string, behind: string)
    requires IsBlank(before) && IsBlank(behind) && IsTrimmed(s)
    ensures Trim(before + s + behind) == s
  {
    hide TrimStart, TrimEnd, IsSpace;
    if s == "" {
      assert before + s + behind == (before + behind) + "" && IsBlank(before + behind);
      TrimStartOf(before + behind, "");
      TrimEndOf("", "");
      assert "" + "" == "";
    } else {
      assert before + s + behind == before + (s + behind) && (s + behind)[0] == s[0];
      TrimStartOf(before, s + behind);
      TrimEndOf(s, behind);
    }
  }

  // ----- one line

  lemma {:induction false} IndexOfFirst(a: string, c: char, b: string)
    requires c !in a
    ensures IndexOf(a + [c] + b, c) == |a|
  {
    if a == "" {
      assert (a + [c] + b)[0] == c;
    } else {
      assert (a + [c] + b)[0] == a[0] && (a + [c] + b)[1..] == a[1..] + [c] + b;
      IndexOfFirst(a[1..], c, b);
    }
  }

  /** What follows the first number sign is not read. */
  lemma CommentIsNotRead(line: string, comment: string)
    requires '#' !in line
    ensures ParseLine(line + "#" + comment) == ParseLine(line)
  {
    hide Trim, Lower;
    var all := line + "#" + comment;
    IndexOfFirst(line, '#', comment);
    assert all == line + ['#'] + comment && all[..|line|] == line;
    hide IndexOf;
    assert StripComment(all) == line;
    assert StripComment(line) == line;
  }

  /** What is left of the white space behind the colon once the line is trimmed. */
  function ValuePart(c: string, value: string): string {
    if value == "" then "" else c + value
  }

  lemma TrimmedRecord(a: string, front: string, c: string, value: string, d: string)
    requires IsBlank(a) && IsBlank(c) && IsBlank(d) && front != "" && !IsSpace(front[0]) && IsTrimmed(value)
    ensures Trim(a + front + ":" + c + value + d) == front + ":" + ValuePart(c, value)
  {
    hide Trim, IsSpace;
    var inner := front + ":" + ValuePart(c, value);
    ColonIsNoSpace();
    assert inner[0] == front[0] && inner[|inner| - 1] == if value == "" then ':' else value[|value| - 1];
    TrimOf(a, inner, if value == "" then c + d else d);
    if value == "" {
      assert a + front + ":" + c + value + d == a + inner + (c + d);
    } else {
      assert a + front + ":" + c + value + d == a + inner + d;
    }
  }

  lemma SplitRecord(front: string, tail: string)
    requires ':' !in front
    ensures var inner := front + ":" + tail; var sep := IndexOf(inner, ':');
      sep == |front| && inner[..sep] == front && inner[sep + 1..] == tail
  {
    IndexOfFirst(front, ':', tail);
    assert front + ":" + tail == front + [':'] + tail;
  }

  lemma TrimmedField(field: string, b: string)
    requires IsTrimmed(field) && IsBlank(b)
    ensures Trim(field + b) == field
  {
    TrimOf("", field, b);
    assert "" + field + b == field + b;
  }

  lemma TrimmedValue(c: string, value: string)
    requires IsBlank(c) && IsTrimmed(value)
    ensures Trim(ValuePart(c, value)) == value
  {
    hide Trim, IsSpace;
    var before := if value == "" then "" else c;
    TrimOf(before, value, "");
    assert before + value + "" == ValuePart(c, value);
  }

  lemma NoComment(line: string)
    requires '#' !in line
    ensures StripComment(line) == line
  {
  }

  /** A field and its value as a record: what stands around the colon, with whatever white space beside it. */
  lemma RecordIsRead(a: string, field: string, b: string, c: string, value: string, d: string)
    requires IsBlank(a) && IsBlank(b) && IsBlank(c) && IsBlank(d)
    requires field != "" && IsTrimmed(field) && ':' !in field && '#' !in field
    requires IsTrimmed(value) && '#' !in value
    ensures ParseLine(a + field + b + ":" + c + value + d) == Some(RawDirective(Lower(field), value))
  {
    BlankIsPlain(a);
    BlankIsPlain(b);
    BlankIsPlain(c);
    BlankIsPlain(d);
    var line := a + field + b + ":" + c + value + d;
    NoComment(line);
    assert line == a + (field + b) + ":" + c + value + d && (field + b)[0] == field[0];
    hide Trim, Lower, IndexOf, IsSpace, StripComment, ValuePart, IsBlank;
    TrimmedRecord(a, field + b, c, value, d);
    SplitRecord(field + b, ValuePart(c, value));
    TrimmedField(field, b);
    TrimmedValue(c, value);
  }

  lemma BlankIsPlain(s: string)
    requires IsBlank(s)
    ensures '#' !in s && ':' !in s
  {
  }

  lemma ColonIsNoSpace()
    ensures !IsSpace(':')
  {
  }

  // ----- a line within a text

  lemma RecordsRunLine(s: State, line: string, end: string)
    requires IsOneLine(line) && IsLineEnd(end)
    ensures RunLines(s, RecordsOf(line + end)) == Step(s, ParseLine(line))
  {
    hide ParseLine, Step, Records, Lines;
    OneLine(line, end);
    OnlyRecordsRun(s, [line, ""]);
    assert [line, ""][1..] == [""] && [""][1..] == [];
    NothingOnEmptyLine();
    NoneIsSkipped(Step(s, ParseLine(line)));
  }

  lemma NothingOnEmptyLine()
    ensures ParseLine("") == None
  {
  }

  lemma NoneIsSkipped(s: State)
    ensures Step(s, None) == s
  {
  }

  /** Two lines that are read alike may stand for each other anywhere in a text. */
  lemma LinesReadAlike(a: string, line: string, other: string, end: string, b: string)
    requires (a == "" || EndsLine(a)) && IsOneLine(line) && IsOneLine(other) && IsLineEnd(end)
    requires ParseLine(line) == ParseLine(other)
    ensures Parsed(a + line + end + b) == Parsed(a + other + end + b)
  {
    hide ParseLine, Step, RecordsOf, RunLines, Finish;
    LineInText(a, line, end, b);
    LineInText(a, other, end, b);
  }

  lemma LineInText(a: string, line: string, end: string, b: string)
    requires (a == "" || EndsLine(a)) && IsOneLine(line) && IsLineEnd(end)
    ensures Parsed(a + line + end + b)
         == Finish(RunLines(Step(RunLines(START, RecordsOf(a)), ParseLine(line)), RecordsOf(b)))
  {
    hide ParseLine, Step, RecordsOf, RunLines, Finish, Parsed;
    var text := a + line + end + b;
    ParsedIsRecords(text);
    assert text == a + (line + end + b) && line + end + b == (line + end) + b && EndsLine(line + end);
    RecordsOfConcat(a, line + end + b);
    RecordsOfConcat(line + end, b);
    RunConcat(START, RecordsOf(a), RecordsOf(line + end) + RecordsOf(b));
    RunConcat(RunLines(START, RecordsOf(a)), RecordsOf(line + end), RecordsOf(b));
    RecordsRunLine(RunLines(START, RecordsOf(a)), line, end);
  }

  /** A comment behind any line that has none changes nothing. */
  lemma CommentsDoNotMatter(a: string, line: string, comment: string, end: string, b: string)
    requires (a == "" || EndsLine(a)) && IsOneLine(line) && '#' !in line && IsOneLine(comment) && IsLineEnd(end)
    ensures Parsed(a + (line + "#" + comment) + end + b) == Parsed(a + line + end + b)
  {
    hide Parsed, ParseLine;
    CommentIsNotRead(line, comment);
    LinesReadAlike(a, line + "#" + comment, line, end, b);
  }

  /** Nor does white space around a field and its value, nor the case of the field. */
  lemma SpacingDoesNotMatter(a: string, s: seq<string>, field: string, other: string, value: string, end: string,
                             b: string)
    requires (a == "" || EndsLine(a)) && IsLineEnd(end)
    requires |s| == 4 && forall i :: 0 <= i < 4 ==> IsBlank(s[i]) && IsOneLine(s[i])
    requires field != "" && IsTrimmed(field) && ':' !in field && '#' !in field && IsOneLine(field)
    requires other != "" && IsTrimmed(other) && ':' !in other && '#' !in other && IsOneLine(other)
    requires Lower(field) == Lower(other)
    requires IsTrimmed(value) && '#' !in value && IsOneLine(value)
    ensures Parsed(a + (s[0] + field + s[1] + ":" + s[2] + value + s[3]) + end + b)
         == Parsed(a + (other + ":" + value) + end + b)
  {
    hide Parsed, ParseLine, Lower, IsSpace;
    RecordIsRead(s[0], field, s[1], s[2], value, s[3]);
    RecordIsRead("", other, "", "", value, "");
    assert "" + other + "" + ":" + "" + value + "" == other + ":" + value;
    LinesReadAlike(a, s[0] + field + s[1] + ":" + s[2] + value + s[3], other + ":" + value, end, b);
  }
}
