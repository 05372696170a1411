/**
  Path patterns of robots.txt. A glob matches a text when the text is the pattern with every '*' replaced by some
  string; the two-pointer matcher decides exactly that, in polynomially many steps.
*/
module RobotsGlob {

  // ----- what a pattern means

  /** The pattern with its i-th character replaced by `fills[i]` if it is a '*', and left alone otherwise. */
  function Fill(pattern: string, fills: seq<string>): string
    requires |fills| == |pattern|
  {
    if pattern == "" then ""
    else (if pattern[0] == '*' then fills[0] else [pattern[0]]) + Fill(pattern[1..], fills[1..])
  }

  ghost predicate IsInstance(pattern: string, text: string) {
    exists fills: seq<string> :: |fills| == |pattern| && text == Fill(pattern, fills)
  }

  /** The same relation, read off the pattern from left to right. */
  ghost predicate Matches(pattern: string, text: string) {
    if pattern == "" then text == ""
    else if pattern[0] == '*' then exists k :: 0 <= k <= |text| && Matches(pattern[1..], text[k..])
    else text != "" && text[0] == pattern[0] && Matches(pattern[1..], text[1..])
  }

  lemma {:induction false} FilledMatches(pattern: string, fills: seq<string>)
    requires |fills| == |pattern|
    ensures Matches(pattern, Fill(pattern, fills))
  {
    if pattern != "" {
      FilledMatches(pattern[1..], fills[1..]);
      var head := if pattern[0] == '*' then fills[0] else [pattern[0]];
      assert Fill(pattern, fills)[|head|..] == Fill(pattern[1..], fills[1..]);
    }
  }

  lemma {:induction false} MatchHasFills(pattern: string, text: string) returns (fills: seq<string>)
    requires Matches(pattern, text)
    ensures |fills| == |pattern| && Fill(pattern, fills) == text
  {
    if pattern == "" {
      fills := [];
    } else if pattern[0] == '*' {
      var k :| 0 <= k <= |text| && Matches(pattern[1..], text[k..]);
      var rest := MatchHasFills(pattern[1..], text[k..]);
      fills := [text[..k]] + rest;
      assert fills[1..] == rest;
    } else {
      var rest := MatchHasFills(pattern[1..], text[1..]);
      fills := [""] + rest;
      assert fills[1..] == rest;
    }
  }

  lemma MatchesIsInstance(pattern: string, text: string)
    ensures Matches(pattern, text) <==> IsInstance(pattern, text)
  {
    if Matches(pattern, text) {
      var fills := MatchHasFills(pattern, text);
    }
    if IsInstance(pattern, text) {
      var fills: seq<string> :| |fills| == |pattern| && text == Fill(pattern, fills);
      FilledMatches(pattern, fills);
    }
  }

  // ----- facts the matcher relies on

  predicate NoStar(s: string) {
    '*' !in s
  }

  lemma {:induction false} LiteralPrefix(literal: string, rest: string, text: string)
    requires NoStar(literal)
    ensures Matches(literal + rest, text) <==> literal <= text && Matches(rest, text[|literal|..])
  {
    if literal == "" {
      assert literal + rest == rest;
    } else {
      assert (literal + rest)[1..] == literal[1..] + rest;
      if text != "" && text[0] == literal[0] {
        LiteralPrefix(literal[1..], rest, text[1..]);
        assert literal <= text <==> literal[1..] <= text[1..];
        if literal <= text {
          assert text[1..][|literal[1..]|..] == text[|literal|..];
        }
      }
    }
  }

  /** Some suffix of the text starting at `from` or later matches. */
  ghost predicate MatchesLater(pattern: string, text: string, from: nat) {
    exists k :: from <= k <= |text| && Matches(pattern, text[k..])
  }

  /** A second star takes over from the first once the literal between them has been seen. */
  lemma StarTakesOver(literal: string, rest: string, text: string, from: nat)
    requires NoStar(literal) && from <= |text| && literal <= text[from..]
    ensures MatchesLater(literal + "*" + rest, text, from) <==> MatchesLater(rest, text, from + |literal|)
  {
    var whole := literal + "*" + rest;
    assert whole == literal + ("*" + rest);
    assert ("*" + rest)[1..] == rest;
    if MatchesLater(whole, text, from) {
      var k :| from <= k <= |text| && Matches(whole, text[k..]);
      LiteralPrefix(literal, "*" + rest, text[k..]);
      var tail := text[k..][|literal|..];
      var j :| 0 <= j <= |tail| && Matches(rest, tail[j..]);
      assert tail[j..] == text[k + |literal| + j..];
    }
    if MatchesLater(rest, text, from + |literal|) {
      var k :| from + |literal| <= k <= |text| && Matches(rest, text[k..]);
      var tail := text[from..][|literal|..];
      assert tail[k - from - |literal|..] == text[k..];
      assert Matches("*" + rest, tail);
      LiteralPrefix(literal, "*" + rest, text[from..]);
    }
  }

  /** After a mismatch behind the literal, the star has to swallow one more character. */
  lemma StarSwallows(literal: string, rest: string, text: string, from: nat)
    requires NoStar(literal) && from <= |text| && literal <= text[from..] && from + |literal| < |text|
    requires rest == "" || (rest[0] != '*' && rest[0] != text[from + |literal|])
    ensures MatchesLater(literal + rest, text, from) <==> MatchesLater(literal + rest, text, from + 1)
  {
    LiteralPrefix(literal, rest, text[from..]);
    assert text[from..][|literal|..] == text[from + |literal|..];
    assert !Matches(literal + rest, text[from..]);
  }

  /** With the text used up behind the literal, only the shortest choice of the star is left. */
  lemma StarIsDone(literal: string, rest: string, text: string, from: nat)
    requires NoStar(literal) && from + |literal| == |text| && literal == text[from..]
    ensures MatchesLater(literal + rest, text, from) <==> Matches(rest, "")
  {
    LiteralPrefix(literal, rest, text[from..]);
    assert text[from..][|literal|..] == "";
    forall k | from < k <= |text| ensures !Matches(literal + rest, text[k..]) {
      LiteralPrefix(literal, rest, text[k..]);
    }
  }

  lemma FirstStar(pattern: string, text: string, from: nat)
    requires pattern != "" && pattern[0] == '*' && from <= |text|
    ensures Matches(pattern, text[from..]) <==> MatchesLater(pattern[1..], text, from)
  {
    if Matches(pattern, text[from..]) {
      var k :| 0 <= k <= |text[from..]| && Matches(pattern[1..], text[from..][k..]);
      assert text[from..][k..] == text[from + k..];
    }
    if MatchesLater(pattern[1..], text, from) {
      var k :| from <= k <= |text| && Matches(pattern[1..], text[k..]);
      assert text[from..][k - from..] == text[k..];
    }
  }

  // ----- the matcher

  /**
    What the four indices mean. Before the first star the pattern was read in step with the text; behind a star, the
    literal read since then stands right behind what the star swallowed.
  */
  ghost predicate Progress(pattern: string, text: string, pIdx: int, tIdx: int, starIdx: int, matchIdx: int) {
    && 0 <= matchIdx <= tIdx <= |text| && -1 <= starIdx < pIdx <= |pattern|
    && (starIdx == -1 ==> matchIdx == 0 && (Matches(pattern, text) <==> Matches(pattern[pIdx..], text[tIdx..])))
    && (starIdx >= 0 ==>
          && tIdx - matchIdx == pIdx - starIdx - 1
          && NoStar(pattern[starIdx + 1..pIdx]) && pattern[starIdx + 1..pIdx] == text[matchIdx..tIdx]
          && (Matches(pattern, text) <==> MatchesLater(pattern[starIdx + 1..], text, matchIdx)))
  }

  lemma ProgressByStar(pattern: string, text: string, pIdx: int, tIdx: int, starIdx: int, matchIdx: int)
    requires Progress(pattern, text, pIdx, tIdx, starIdx, matchIdx) && pIdx < |pattern| && pattern[pIdx] == '*'
    ensures Progress(pattern, text, pIdx + 1, tIdx, pIdx, tIdx)
  {
    if starIdx >= 0 {
      var literal := pattern[starIdx + 1..pIdx];
      assert pattern[starIdx + 1..] == literal + "*" + pattern[pIdx + 1..];
      StarTakesOver(literal, pattern[pIdx + 1..], text, matchIdx);
    } else {
      FirstStar(pattern[pIdx..], text, tIdx);
      assert pattern[pIdx..][1..] == pattern[pIdx + 1..];
    }
    hide Matches, MatchesLater;
  }

  lemma ProgressByCharacter(pattern: string, text: string, pIdx: int, tIdx: int, starIdx: int, matchIdx: int)
    requires Progress(pattern, text, pIdx, tIdx, starIdx, matchIdx) && pIdx < |pattern| && tIdx < |text|
    requires pattern[pIdx] != '*' && pattern[pIdx] == text[tIdx]
    ensures Progress(pattern, text, pIdx + 1, tIdx + 1, starIdx, matchIdx)
  {
    if starIdx >= 0 {
      assert pattern[starIdx + 1..pIdx + 1] == pattern[starIdx + 1..pIdx] + [pattern[pIdx]];
      assert text[matchIdx..tIdx + 1] == text[matchIdx..tIdx] + [text[tIdx]];
      hide Matches, MatchesLater;
    } else {
      assert pattern[pIdx..][1..] == pattern[pIdx + 1..] && text[tIdx..][1..] == text[tIdx + 1..];
    }
  }

  lemma ProgressByRetry(pattern: string, text: string, pIdx: int, tIdx: int, starIdx: int, matchIdx: int)
    requires Progress(pattern, text, pIdx, tIdx, starIdx, matchIdx) && tIdx < |text| && starIdx >= 0
    requires pIdx == |pattern| || (pattern[pIdx] != '*' && pattern[pIdx] != text[tIdx])
    ensures Progress(pattern, text, starIdx + 1, matchIdx + 1, starIdx, matchIdx + 1)
  {
    var literal := pattern[starIdx + 1..pIdx];
    assert pattern[starIdx + 1..] == literal + pattern[pIdx..];
    StarSwallows(literal, pattern[pIdx..], text, matchIdx);
  }

  lemma ProgressToEnd(pattern: string, text: string, pIdx: int, starIdx: int, matchIdx: int)
    requires Progress(pattern, text, pIdx, |text|, starIdx, matchIdx)
    ensures Matches(pattern, text) <==> Matches(pattern[pIdx..], "")
  {
    if starIdx >= 0 {
      var literal := pattern[starIdx + 1..pIdx];
      assert pattern[starIdx + 1..] == literal + pattern[pIdx..];
      StarIsDone(literal, pattern[pIdx..], text, matchIdx);
    } else {
      assert text[|text|..] == "";
    }
  }

  lemma SkipStar(pattern: string)
    requires pattern != "" && pattern[0] == '*'
    ensures Matches(pattern, "") <==> Matches(pattern[1..], "")
  {
    assert ""[0..] == "";
  }

  /** `n` times `row`, by addition. */
  ghost function Rows(n: nat, row: nat): nat {
    if n == 0 then 0 else Rows(n - 1, row) + row
  }

  lemma {:induction false} MoreRows(a: nat, b: nat, row: nat)
    requires a <= b
    ensures Rows(a, row) <= Rows(b, row)
    decreases b
  {
    if a < b {
      MoreRows(a, b - 1, row);
    }
  }

  lemma {:induction false} RowsIsProduct(n: nat, row: nat)
    ensures Rows(n, row) == row * n
  {
    if n > 0 {
      RowsIsProduct(n - 1, row);
      assert row * n == row * (n - 1) + row;
    }
  }

  lemma NextRow(n: nat, row: nat)
    ensures Rows(n + 1, row) == Rows(n, row) + row
  {
  }

  lemma ProgressAtStart(pattern: string, text: string)
    ensures Progress(pattern, text, 0, 0, -1, 0) && Rows(0, |pattern| + 1) == 0
  {
    assert pattern[0..] == pattern && text[0..] == text;
  }

  /** Nothing but a star or the character itself lets the matcher go on, so before the first star it has failed. */
  lemma ProgressIsStuck(pattern: string, text: string, pIdx: int, tIdx: int, matchIdx: int)
    requires Progress(pattern, text, pIdx, tIdx, -1, matchIdx) && tIdx < |text|
    requires pIdx == |pattern| || (pattern[pIdx] != '*' && pattern[pIdx] != text[tIdx])
    ensures matchIdx == 0 && !Matches(pattern, text)
  {
  }

  /** `steps` counts the iterations of both loops. */
  method GlobFullMatch(pattern: string, text: string) returns (matched: bool, steps: nat)
    ensures matched <==> Matches(pattern, text)
    ensures steps < (|pattern| + 1) * (|text| + 1)
  {
    hide Matches, Progress, Rows;
    RowsIsProduct(|text| + 1, |pattern| + 1);
    NextRow(|text|, |pattern| + 1);
    ProgressAtStart(pattern, text);
    var pIdx, tIdx, starIdx, matchIdx := 0, 0, -1, 0;
    steps := 0;
    ghost var row := |pattern| + 1;
    while tIdx < |text|
      invariant 0 <= matchIdx <= tIdx <= |text| && -1 <= starIdx < pIdx <= |pattern|
      invariant Progress(pattern, text, pIdx, tIdx, starIdx, matchIdx)
      invariant steps <= Rows(matchIdx, row) + pIdx
      decreases |pattern| - starIdx, |text| - matchIdx, |pattern| - pIdx
    {
      steps := steps + 1;
      if pIdx < |pattern| && (pattern[pIdx] == '*' || pattern[pIdx] == text[tIdx]) {
        if pattern[pIdx] == '*' {
          ProgressByStar(pattern, text, pIdx, tIdx, starIdx, matchIdx);
          MoreRows(matchIdx, tIdx, row);
          starIdx := pIdx;
          matchIdx := tIdx;
          pIdx := pIdx + 1;
        } else {
          ProgressByCharacter(pattern, text, pIdx, tIdx, starIdx, matchIdx);
          pIdx := pIdx + 1;
          tIdx := tIdx + 1;
        }
      } else if starIdx != -1 {
        ProgressByRetry(pattern, text, pIdx, tIdx, starIdx, matchIdx);
        NextRow(matchIdx, row);
        pIdx := starIdx + 1;
        matchIdx := matchIdx + 1;
        tIdx := matchIdx;
      } else {
        ProgressIsStuck(pattern, text, pIdx, tIdx, matchIdx);
        NextRow(0, row);
        MoreRows(1, |text|, row);
        return false, steps;
      }
    }
    ProgressToEnd(pattern, text, pIdx, starIdx, matchIdx);
    MoreRows(matchIdx, |text|, row);
    while pIdx < |pattern| && pattern[pIdx] == '*'
      decreases |pattern| - pIdx
      invariant 0 <= pIdx <= |pattern|
      invariant Matches(pattern, text) <==> Matches(pattern[pIdx..], "")
      invariant steps <= Rows(|text|, row) + pIdx
    {
      SkipStar(pattern[pIdx..]);
      assert pattern[pIdx..][1..] == pattern[pIdx + 1..];
      steps := steps + 1;
      pIdx := pIdx + 1;
    }
    RestMatchesNothing(pattern[pIdx..]);
    return pIdx == |pattern|, steps;
  }

  lemma RestMatchesNothing(rest: string)
    requires rest == "" || rest[0] != '*'
    ensures Matches(rest, "") <==> rest == ""
  {
  }

  // ----- robots.txt patterns

  predicate EndsWithDollar(pattern: string) {
    pattern != "" && pattern[|pattern| - 1] == '$'
  }

  /**
    Section 2.2.3 of RFC 9309: '*' is any string, a final '$' ties the match to the end, otherwise a prefix is enough.
  */
  ghost predicate PatternMatches(pattern: string, path: string) {
    if EndsWithDollar(pattern) then IsInstance(pattern[..|pattern| - 1], path)
    else exists k :: 0 <= k <= |path| && IsInstance(pattern, path[..k])
  }

  ghost predicate MatchesPrefix(pattern: string, text: string) {
    exists k :: 0 <= k <= |text| && Matches(pattern, text[..k])
  }

  lemma PrefixBehindStar(pattern: string, text: string)
    requires pattern != "" && pattern[0] == '*'
    ensures MatchesPrefix(pattern, text) <==> exists j :: 0 <= j <= |text| && MatchesPrefix(pattern[1..], text[j..])
  {
    if MatchesPrefix(pattern, text) {
      var k :| 0 <= k <= |text| && Matches(pattern, text[..k]);
      var j :| 0 <= j <= |text[..k]| && Matches(pattern[1..], text[..k][j..]);
      assert text[..k][j..] == text[j..][..k - j];
      assert MatchesPrefix(pattern[1..], text[j..]);
    }
    if j :| 0 <= j <= |text| && MatchesPrefix(pattern[1..], text[j..]) {
      var k :| 0 <= k <= |text[j..]| && Matches(pattern[1..], text[j..][..k]);
      assert text[..j + k][j..] == text[j..][..k];
      assert Matches(pattern, text[..j + k]);
    }
  }

  lemma PrefixBehindCharacter(pattern: string, text: string)
    requires pattern != "" && pattern[0] != '*'
    ensures MatchesPrefix(pattern, text) <==>
      text != "" && text[0] == pattern[0] && MatchesPrefix(pattern[1..], text[1..])
  {
    if k :| 0 <= k <= |text| && Matches(pattern, text[..k]) {
      assert text[..k][1..] == text[1..][..k - 1];
    }
    if text != "" && text[0] == pattern[0] {
      if k :| 0 <= k <= |text[1..]| && Matches(pattern[1..], text[1..][..k]) {
        assert text[..k + 1][1..] == text[1..][..k];
        assert Matches(pattern, text[..k + 1]);
      }
    }
  }

  lemma NothingAndStar(text: string)
    ensures Matches("" + "*", text) && MatchesPrefix("", text)
  {
    assert "" + "*" == "*" && "*"[1..] == "";
    assert text[|text|..] == "" && text[..0] == "";
  }

  lemma MatchesHead(pattern: string, text: string)
    requires pattern != ""
    ensures Matches(pattern, text) <==>
      if pattern[0] == '*' then exists k :: 0 <= k <= |text| && Matches(pattern[1..], text[k..])
      else text != "" && text[0] == pattern[0] && Matches(pattern[1..], text[1..])
  {
  }

  lemma {:induction false} TrailingStar(pattern: string, text: string)
    ensures Matches(pattern + "*", text) <==> exists k :: 0 <= k <= |text| && Matches(pattern, text[..k])
    decreases pattern
  {
    hide Matches;
    if pattern == "" {
      NothingAndStar(text);
    } else {
      assert (pattern + "*")[0] == pattern[0] && (pattern + "*")[1..] == pattern[1..] + "*";
      MatchesHead(pattern + "*", text);
      if pattern[0] == '*' {
        forall j | 0 <= j <= |text|
          ensures Matches(pattern[1..] + "*", text[j..]) <==> MatchesPrefix(pattern[1..], text[j..])
        {
          TrailingStar(pattern[1..], text[j..]);
        }
        PrefixBehindStar(pattern, text);
      } else {
        if text != "" {
          TrailingStar(pattern[1..], text[1..]);
        }
        PrefixBehindCharacter(pattern, text);
      }
      assert Matches(pattern + "*", text) <==> MatchesPrefix(pattern, text);
    }
  }

  method MatchesPattern(pattern: string, path: string) returns (matched: bool)
    ensures matched <==> PatternMatches(pattern, path)
  {
    if pattern == "" {
      MatchesIsInstance("", path[..0]);
      return true;
    }
    var steps;
    if pattern[|pattern| - 1] == '$' {
      MatchesIsInstance(pattern[..|pattern| - 1], path);
      matched, steps := GlobFullMatch(pattern[..|pattern| - 1], path);
    } else {
      TrailingStar(pattern, path);
      forall k | 0 <= k <= |path| ensures Matches(pattern, path[..k]) <==> IsInstance(pattern, path[..k]) {
        MatchesIsInstance(pattern, path[..k]);
      }
      matched, steps := GlobFullMatch(pattern + "*", path);
    }
  }

  // ----- patterns with one wild card or none

  lemma StarMatchesAll(text: string)
    ensures Matches("*", text)
  {
    assert "*"[1..] == "" && text[|text|..] == "";
  }

  lemma NothingMatchesNothing(text: string)
    ensures Matches("", text) <==> text == ""
  {
  }

  lemma LiteralAlone(literal: string, text: string)
    requires NoStar(literal)
    ensures Matches(literal, text) <==> text == literal
    ensures Matches(literal + "*", text) <==> literal <= text
  {
    hide Matches;
    LiteralPrefix(literal, "", text);
    LiteralPrefix(literal, "*", text);
    assert literal + "" == literal;
    if literal <= text {
      NothingMatchesNothing(text[|literal|..]);
      StarMatchesAll(text[|literal|..]);
    }
  }

  /** Without a wild card a pattern is a prefix of the paths it matches, and with a '$' behind it the path itself. */
  lemma PlainPattern(pattern: string, path: string)
    requires '*' !in pattern && '$' !in pattern
    ensures PatternMatches(pattern, path) <==> pattern <= path
    ensures PatternMatches(pattern + "$", path) <==> path == pattern
  {
    hide Matches, IsInstance;
    LiteralAlone(pattern, path);
    MatchesIsInstance(pattern, path);
    assert (pattern + "$")[..|pattern|] == pattern;
    AnyPrefix(pattern, path);
  }

  lemma AnyPrefix(pattern: string, path: string)
    requires !EndsWithDollar(pattern)
    ensures PatternMatches(pattern, path) <==> Matches(pattern + "*", path)
  {
    hide Matches, IsInstance;
    TrailingStar(pattern, path);
    forall k | 0 <= k <= |path| ensures Matches(pattern, path[..k]) <==> IsInstance(pattern, path[..k]) {
      MatchesIsInstance(pattern, path[..k]);
    }
  }

  /** A wild card between two texts: the path begins with the first, and the second comes later, with '$' at the end. */
  lemma OneStar(a: string, b: string, path: string)
    requires '*' !in a && '*' !in b && '$' !in b
    ensures PatternMatches(a + "*" + b, path) <==> a <= path && exists k :: |a| <= k <= |path| && b <= path[k..]
    ensures PatternMatches(a + "*" + b + "$", path) <==>
      a <= path && exists k :: |a| <= k <= |path| && path[k..] == b
  {
    hide Matches, IsInstance;
    var whole := a + "*" + b;
    AnyPrefix(whole, path);
    assert whole + "*" == a + ("*" + (b + "*")) && whole == a + ("*" + b);
    LiteralPrefix(a, "*" + (b + "*"), path);
    LiteralPrefix(a, "*" + b, path);
    assert (whole + "$")[..|whole|] == whole;
    MatchesIsInstance(whole, path);
    if a <= path {
      StarThen(b + "*", path, |a|);
      StarThen(b, path, |a|);
      forall k | |a| <= k <= |path| ensures Matches(b + "*", path[k..]) <==> b <= path[k..] {
        LiteralAlone(b, path[k..]);
      }
      forall k | |a| <= k <= |path| ensures Matches(b, path[k..]) <==> path[k..] == b {
        LiteralAlone(b, path[k..]);
      }
    }
  }

  lemma StarThen(rest: string, path: string, from: nat)
    requires from <= |path|
    ensures Matches("*" + rest, path[from..]) <==> exists k :: from <= k <= |path| && Matches(rest, path[k..])
  {
    FirstStar("*" + rest, path, from);
    assert ("*" + rest)[1..] == rest;
  }
}
