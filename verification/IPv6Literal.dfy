/**
  IPv6 literals (src/net/ip.ts): eight groups in full, with '::' for a run of zeros, with the last two groups as an IPv4
  literal, in brackets or not. `IsSpelling` says which texts spell which groups here, and `IsRfcSpelling` which do by
  section 2.2 of RFC 4291; the parser takes all of these and two forms more.
*/
module IPv6Literal {
  import opened Common
  import opened Text
  import opened PercentEncoding
  import opened IPv4Literal

  // ----- what spells what

  predicate IsHextet(word: string) {
    1 <= |word| <= 4 && AllDigits(Hex, word)
  }

  ghost predicate SpellsGroups(words: seq<string>, values: seq<nat>) {
    |words| == |values| && forall i :: 0 <= i < |words| ==> IsHextet(words[i]) && Number(Hex, words[i]) == values[i]
  }

  ghost predicate IsFullSpelling(text: string, groups: seq<nat>) {
    |groups| == 8 && exists words :: SpellsGroups(words, groups) && text == Join(words, ':')
  }

  /** `head` and `tail` spell the groups at both ends of `size`, and those between them are zero. */
  ghost predicate SpellsEnds(head: seq<string>, tail: seq<string>, groups: seq<nat>, size: nat) {
    && |head| + |tail| <= size <= |groups|
    && SpellsGroups(head, groups[..|head|])
    && SpellsGroups(tail, groups[size - |tail|..size])
    && forall i :: |head| <= i < size - |tail| ==> groups[i] == 0
  }

  ghost predicate IsCompressedSpelling(text: string, groups: seq<nat>, head: seq<string>, tail: seq<string>) {
    |groups| == 8 && SpellsEnds(head, tail, groups, 8) && text == Join(head, ':') + "::" + Join(tail, ':')
  }

  ghost predicate IsPlainSpelling(text: string, groups: seq<nat>) {
    IsFullSpelling(text, groups) || exists head, tail :: IsCompressedSpelling(text, groups, head, tail)
  }

  function QuadBytes(quad: string): (bytes: seq<nat>)
    requires IPv4Value(quad).Some?
    ensures |bytes| == 4 && forall i :: 0 <= i < 4 ==> bytes[i] < 256
  {
    BytesAreSmall(IPv4Value(quad).value, 4);
    Bytes(IPv4Value(quad).value, 4)
  }

  lemma {:induction false} BytesAreSmall(n: nat, k: nat)
    ensures forall i :: 0 <= i < k ==> Bytes(n, k)[i] < 256
  {
    if k > 0 {
      BytesAreSmall(n / 256, k - 1);
    }
  }

  function TwoGroups(bytes: seq<nat>): (groups: seq<nat>)
    requires |bytes| == 4
    ensures |groups| == 2
  {
    [256 * bytes[0] + bytes[1], 256 * bytes[2] + bytes[3]]
  }

  /** An IPv4 literal with a dot in it, in any notation, for the last two groups. */
  ghost predicate IsQuadFor(quad: string, last: seq<nat>) {
    '.' in quad && IPv4Value(quad).Some? && last == TwoGroups(QuadBytes(quad))
  }

  ghost predicate IsFullWithQuad(text: string, groups: seq<nat>, words: seq<string>, quad: string) {
    && |groups| == 8 && |words| == 6 && SpellsGroups(words, groups[..6]) && IsQuadFor(quad, groups[6..])
    && text == Join(words + [quad], ':')
  }

  ghost predicate IsCompressedWithQuad(text: string, groups: seq<nat>, head: seq<string>, tail: seq<string>,
                                       quad: string) {
    && |groups| == 8 && SpellsEnds(head, tail, groups, 6) && IsQuadFor(quad, groups[6..])
    && text == Join(head, ':') + "::" + Join(tail + [quad], ':')
  }

  ghost predicate IsQuadSpelling(text: string, groups: seq<nat>) {
    || (exists words, quad :: IsFullWithQuad(text, groups, words, quad))
    || (exists head, tail, quad :: IsCompressedWithQuad(text, groups, head, tail, quad))
  }

  ghost predicate IsSpelling(text: string, groups: seq<nat>) {
    IsPlainSpelling(text, groups) || IsQuadSpelling(text, groups)
  }

  // ----- the parser

  function Hex2(b: nat): string
    requires b < 256
  {
    [UpperHexDigit(b / 16), UpperHexDigit(b % 16)]
  }

  /** Four bytes as two groups in hexadecimal, as they replace a dotted quad. */
  function HexGroups(bytes: seq<nat>): string
    requires |bytes| == 4 && forall i :: 0 <= i < 4 ==> bytes[i] < 256
  {
    Hex2(bytes[0]) + Hex2(bytes[1]) + ":" + (Hex2(bytes[2]) + Hex2(bytes[3]))
  }

  /** Splitting at "::" from the left. */
  function SplitDouble(s: string): (parts: seq<string>)
    ensures |parts| > 0
  {
    if s == "" then [""]
    else if |s| >= 2 && s[0] == ':' && s[1] == ':' then [""] + SplitDouble(s[2..])
    else
      var rest := SplitDouble(s[1..]);
      [[s[0]] + rest[0]] + rest[1..]
  }

  predicate AllHextets(words: seq<string>) {
    forall i :: 0 <= i < |words| ==> IsHextet(words[i])
  }

  function Numbers(words: seq<string>): (values: seq<nat>)
    requires AllHextets(words)
    ensures |values| == |words| && forall i :: 0 <= i < |words| ==> values[i] == Number(Hex, words[i])
  {
    seq(|words|, i requires 0 <= i < |words| => Number(Hex, words[i]))
  }

  function Groups(s: string): Option<seq<nat>> {
    if s == "" then Some([])
    else if AllHextets(SplitOn(s, ':')) then Some(Numbers(SplitOn(s, ':')))
    else None
  }

  method ParseGroups(s: string) returns (groups: Option<seq<nat>>)
    ensures groups == Groups(s)
  {
    if s == "" { return Some([]); }
    var groupStrs := SplitOn(s, ':');
    var parsed: seq<nat> := [];
    for k := 0 to |groupStrs|
      invariant |parsed| == k
      invariant forall j :: 0 <= j < k ==> IsHextet(groupStrs[j]) && parsed[j] == Number(Hex, groupStrs[j])
    {
      if !IsHextet(groupStrs[k]) { return None; }
      parsed := parsed + [Number(Hex, groupStrs[k])];
    }
    assert parsed == Numbers(groupStrs);
    return Some(parsed);
  }

  function LastIndexOf(s: string, c: char): (i: int)
    ensures -1 <= i < |s|
    ensures i == -1 ==> c !in s
    ensures i >= 0 ==> s[i] == c && c !in s[i + 1..]
  {
    if s == "" then -1
    else if s[|s| - 1] == c then |s| - 1
    else
      assert s == s[..|s| - 1] + [s[|s| - 1]];
      LastIndexOf(s[..|s| - 1], c)
  }

  function Zeros(n: nat): (zeros: seq<nat>)
    ensures |zeros| == n && forall i :: 0 <= i < n ==> zeros[i] == 0
  {
    seq(n, i => 0)
  }

  function PlainGroups(host: string): Option<seq<nat>> {
    var parts := SplitDouble(host);
    if |parts| > 2 then None
    else if |parts| == 1 then
      (match Groups(parts[0]) case Some(groups) => (if |groups| == 8 then Some(groups) else None) case None => None)
    else match (Groups(parts[0]), Groups(parts[1]))
      case (Some(head), Some(tail)) =>
        if |head| + |tail| > 8 then None else Some(head + Zeros(8 - |head| - |tail|) + tail)
      case _ => None
  }

  function Unbracketed(rawHost: string): string {
    if |rawHost| >= 2 && rawHost[0] == '[' && rawHost[|rawHost| - 1] == ']' then rawHost[1..|rawHost| - 1] else rawHost
  }

  function HostGroups(host: string): Option<seq<nat>> {
    var lastColon := LastIndexOf(host, ':');
    if '.' in host && lastColon != -1 then
      var quad := host[lastColon + 1..];
      if IPv4Value(quad) == None then None
      else PlainGroups(host[..lastColon + 1] + HexGroups(QuadBytes(quad)))
    else PlainGroups(host)
  }

  function IPv6Groups(rawHost: string): Option<seq<nat>> {
    HostGroups(Unbracketed(rawHost))
  }

  method ParseIPv6(rawHost: string) returns (address: Option<seq<nat>>)
    ensures address == IPv6Groups(rawHost)
  {
    hide PlainGroups, IPv4Value, HexGroups, Bytes;
    var host := rawHost;
    if |host| >= 2 && host[0] == '[' && host[|host| - 1] == ']' { host := host[1..|host| - 1]; }
    if host == "" {
      EmptyHost();
      return None;
    }
    var lastColon := LastIndexOf(host, ':');
    if '.' in host && lastColon != -1 {
      var embeddedV4 := ParseIPv4(host[lastColon + 1..]);
      if embeddedV4 == None { return None; }
      assert embeddedV4.value == QuadBytes(host[lastColon + 1..]);
      host := host[..lastColon + 1] + HexGroups(embeddedV4.value);
    }
    address := ParsePlain(host);
  }

  method ParsePlain(host: string) returns (address: Option<seq<nat>>)
    ensures address == PlainGroups(host)
  {
    hide SplitDouble, Groups;
    var parts := SplitDouble(host);
    if |parts| > 2 { return None; }
    if |parts| == 1 {
      var groups := ParseGroups(parts[0]);
      if groups == None || |groups.value| != 8 { return None; }
      return groups;
    }
    var head := ParseGroups(parts[0]);
    var tail := ParseGroups(parts[1]);
    if head == None || tail == None { return None; }
    var missing := 8 - |head.value| - |tail.value|;
    if missing < 0 { return None; }
    return Some(head.value + Zeros(missing) + tail.value);
  }

  lemma EmptyHost()
    ensures PlainGroups("") == None
  {
  }

  // ----- the parser accepts the spellings and nothing else

  lemma {:induction false} JoinOfDouble(s: string)
    ensures |SplitDouble(s)| == 1 ==> SplitDouble(s)[0] == s
    ensures |SplitDouble(s)| == 2 ==> SplitDouble(s)[0] + "::" + SplitDouble(s)[1] == s
  {
    if s == "" {
    } else if |s| >= 2 && s[0] == ':' && s[1] == ':' {
      JoinOfDouble(s[2..]);
      assert s == "" + "::" + s[2..];
    } else {
      JoinOfDouble(s[1..]);
      assert s == [s[0]] + s[1..];
      var rest := SplitDouble(s[1..]);
      if |rest| == 2 {
        assert [s[0]] + (rest[0] + "::" + rest[1]) == [s[0]] + rest[0] + "::" + rest[1];
      }
    }
  }

  /** What stands between two colons: something, and no colon. */
  predicate AllWords(words: seq<string>) {
    forall i :: 0 <= i < |words| ==> words[i] != "" && ':' !in words[i]
  }

  predicate HasDouble(s: string) {
    exists i :: 0 <= i < |s| - 1 && s[i] == ':' && s[i + 1] == ':'
  }

  lemma {:induction false} SplitAtDouble(a: string, b: string)
    requires !HasDouble(a) && (a == "" || a[|a| - 1] != ':')
    ensures SplitDouble(a + "::" + b) == [a] + SplitDouble(b)
  {
    var s := a + "::" + b;
    if a == "" {
      assert s[2..] == b;
    } else {
      assert s[0] == a[0] && s[1] == (if |a| == 1 then ':' else a[1]);
      assert s[1..] == a[1..] + "::" + b;
      forall i | 0 <= i < |a[1..]| - 1 ensures !(a[1..][i] == ':' && a[1..][i + 1] == ':') {
        var j := i + 1;
        assert a[1..][i] == a[j] && a[1..][i + 1] == a[j + 1];
      }
      SplitAtDouble(a[1..], b);
      assert a == [a[0]] + a[1..];
    }
  }

  lemma {:induction false} SplitWithoutDouble(s: string)
    requires !HasDouble(s)
    ensures SplitDouble(s) == [s]
  {
    if s != "" {
      forall i | 0 <= i < |s[1..]| - 1 ensures !(s[1..][i] == ':' && s[1..][i + 1] == ':') {
        var j := i + 1;
        assert s[1..][i] == s[j] && s[1..][i + 1] == s[j + 1];
      }
      SplitWithoutDouble(s[1..]);
      assert s == [s[0]] + s[1..];
    }
  }

  lemma HextetsAreWords(words: seq<string>)
    requires AllHextets(words)
    ensures AllWords(words)
  {
  }

  lemma {:induction false} JoinedWords(words: seq<string>)
    requires AllWords(words)
    ensures var s := Join(words, ':');
      && !HasDouble(s)
      && (s != "" ==> s[0] != ':' && s[|s| - 1] != ':')
      && (s == "" <==> words == [])
  {
    if |words| >= 1 {
      JoinedWords(words[1..]);
      if |words| > 1 {
        var rest := Join(words[1..], ':');
        var s := Join(words, ':');
        assert s == words[0] + [':'] + rest;
        var n := |words[0]|;
        forall i | 0 <= i < |s| - 1 ensures !(s[i] == ':' && s[i + 1] == ':') {
          if i > n {
            var j := i - n - 1;
            assert s[i] == rest[j] && s[i + 1] == rest[j + 1];
          }
        }
      }
    }
  }

  lemma GroupsOfJoin(words: seq<string>, values: seq<nat>)
    requires SpellsGroups(words, values)
    ensures AllHextets(words) && AllWords(words) && Groups(Join(words, ':')) == Some(values)
  {
    HextetsAreWords(words);
    JoinedWords(words);
    if words == [] {
      assert values == [];
    } else {
      SplitOfJoin(words, ':');
      assert Numbers(words) == values;
    }
  }

  lemma GroupsAreSpelled(s: string) returns (words: seq<string>)
    requires Groups(s).Some?
    ensures SpellsGroups(words, Groups(s).value) && s == Join(words, ':')
  {
    if s == "" {
      words := [];
    } else {
      words := SplitOn(s, ':');
      JoinOfSplit(s, ':');
    }
  }

  lemma FullIsParsed(text: string, groups: seq<nat>)
    requires IsFullSpelling(text, groups)
    ensures PlainGroups(text) == Some(groups)
  {
    hide Groups, SplitDouble, Join, HasDouble, AllHextets, AllWords;
    var words :| SpellsGroups(words, groups) && text == Join(words, ':');
    GroupsOfJoin(words, groups);
    JoinedWords(words);
    SplitWithoutDouble(text);
  }

  lemma CompressedIsParsed(text: string, groups: seq<nat>, head: seq<string>, tail: seq<string>)
    requires IsCompressedSpelling(text, groups, head, tail)
    ensures PlainGroups(text) == Some(groups)
  {
    hide Groups, SplitDouble, Join, HasDouble, AllHextets, AllWords, SpellsGroups;
    assert groups[8 - |tail|..8] == groups[8 - |tail|..];
    GroupsOfJoin(head, groups[..|head|]);
    GroupsOfJoin(tail, groups[8 - |tail|..]);
    JoinedWords(head);
    JoinedWords(tail);
    SplitAtDouble(Join(head, ':'), Join(tail, ':'));
    SplitWithoutDouble(Join(tail, ':'));
    assert groups == groups[..|head|] + Zeros(8 - |head| - |tail|) + groups[8 - |tail|..];
  }

  lemma ParsedIsSpelled(text: string)
    requires PlainGroups(text).Some?
    ensures IsPlainSpelling(text, PlainGroups(text).value)
  {
    hide Groups, SplitDouble, Join, SpellsGroups;
    var groups := PlainGroups(text).value;
    var parts := SplitDouble(text);
    JoinOfDouble(text);
    if |parts| == 1 {
      var words := GroupsAreSpelled(text);
    } else {
      var head := GroupsAreSpelled(parts[0]);
      var tail := GroupsAreSpelled(parts[1]);
      assert |head| == |Groups(parts[0]).value| && |tail| == |Groups(parts[1]).value| by {
        SameLength(head, Groups(parts[0]).value);
        SameLength(tail, Groups(parts[1]).value);
      }
      assert groups[..|head|] == Groups(parts[0]).value;
      assert groups[8 - |tail|..8] == Groups(parts[1]).value;
      assert IsCompressedSpelling(text, groups, head, tail);
    }
  }

  lemma SameLength(words: seq<string>, values: seq<nat>)
    requires SpellsGroups(words, values)
    ensures |words| == |values|
  {
  }

  lemma PlainExact(text: string, groups: seq<nat>)
    ensures PlainGroups(text) == Some(groups) <==> IsPlainSpelling(text, groups)
  {
    hide PlainGroups, IsFullSpelling, IsCompressedSpelling;
    if IsFullSpelling(text, groups) {
      FullIsParsed(text, groups);
    } else if head, tail :| IsCompressedSpelling(text, groups, head, tail) {
      CompressedIsParsed(text, groups, head, tail);
    }
    if PlainGroups(text) == Some(groups) {
      ParsedIsSpelled(text);
    }
  }


  // ----- an IPv4 literal for the last two groups

  lemma HexPair(a: nat, b: nat)
    requires a < 256 && b < 256
    ensures IsHextet(Hex2(a) + Hex2(b)) && Number(Hex, Hex2(a) + Hex2(b)) == 256 * a + b
  {
    var word := Hex2(a) + Hex2(b);
    assert word[..3] == [word[0], word[1], word[2]] && word[..3][..2] == [word[0], word[1]];
    assert word[..3][..2][..1] == [word[0]] && word[..3][..2][..1][..0] == "";
    assert Number(Hex, [word[0]]) == a / 16;
    assert Number(Hex, [word[0], word[1]]) == a;
  }

  /** The words the parser puts in place of the quad. */
  lemma QuadWords(quad: string) returns (words: seq<string>)
    requires IPv4Value(quad).Some?
    ensures |words| == 2 && SpellsGroups(words, TwoGroups(QuadBytes(quad)))
    ensures HexGroups(QuadBytes(quad)) == Join(words, ':')
  {
    hide Number, Hex2, AllDigits;
    var bytes := QuadBytes(quad);
    words := [Hex2(bytes[0]) + Hex2(bytes[1]), Hex2(bytes[2]) + Hex2(bytes[3])];
    HexPair(bytes[0], bytes[1]);
    HexPair(bytes[2], bytes[3]);
    assert words[1..] == [words[1]];
    assert Join(words, ':') == words[0] + [':'] + words[1];
    Associative(words[0], [':'], words[1]);
  }

  lemma {:induction false} JoinConcat(a: seq<string>, b: seq<string>, sep: char)
    requires a != [] && b != []
    ensures Join(a + b, sep) == Join(a, sep) + [sep] + Join(b, sep)
  {
    if |a| == 1 {
      assert (a + b)[1..] == b;
    } else {
      JoinConcat(a[1..], b, sep);
      assert (a + b)[1..] == a[1..] + b;
      var rest, last := Join(a[1..], sep), Join(b, sep);
      assert a[0] + [sep] + (rest + [sep] + last) == a[0] + [sep] + rest + [sep] + last;
    }
  }

  lemma JoinLast(words: seq<string>, last: seq<string>, quad: string)
    requires words != [] && last != []
    ensures Join(words + last, ':') == Join(words, ':') + ":" + Join(last, ':')
    ensures Join(words + [quad], ':') == Join(words, ':') + ":" + quad
  {
    JoinConcat(words, last, ':');
    JoinConcat(words, [quad], ':');
  }

  lemma SpellsConcat(a: seq<string>, x: seq<nat>, b: seq<string>, y: seq<nat>)
    requires SpellsGroups(a, x) && SpellsGroups(b, y)
    ensures SpellsGroups(a + b, x + y)
  {
  }

  lemma SpellsLast(words: seq<string>, values: seq<nat>, last: seq<string>, lastValues: seq<nat>, n: nat)
    requires SpellsGroups(words, values) && n + |last| == |words| && words[n..] == last
    requires SpellsGroups(last, lastValues)
    ensures SpellsGroups(words[..n], values[..n]) && values[n..] == lastValues
  {
    forall i | 0 <= i < |last| ensures values[n + i] == lastValues[i] {
      assert words[n + i] == words[n..][i];
    }
  }

  /** What the parser goes on with after it has replaced the quad. */
  ghost predicate IsRewritten(groups: seq<nat>, front: string, quad: string) {
    && front != "" && front[|front| - 1] == ':' && '.' in quad && IPv4Value(quad).Some?
    && IsPlainSpelling(front + HexGroups(QuadBytes(quad)), groups)
  }

  /** The quad at the end may as well be the two groups it stands for. */
  lemma FullRewrites(text: string, groups: seq<nat>, words: seq<string>, quad: string)
    requires IsFullWithQuad(text, groups, words, quad)
    ensures IsRewritten(groups, Join(words, ':') + ":", quad) && text == Join(words, ':') + ":" + quad
  {
    hide Join, IPv4Value, HexGroups, QuadBytes, SpellsGroups;
    var last := QuadWords(quad);
    JoinLast(words, last, quad);
    SpellsConcat(words, groups[..6], last, groups[6..]);
    assert groups == groups[..6] + groups[6..];
    assert IsFullSpelling(Join(words + last, ':'), groups);
  }

  lemma CompressedRewrites(text: string, groups: seq<nat>, head: seq<string>, tail: seq<string>, quad: string)
    requires IsCompressedWithQuad(text, groups, head, tail, quad)
    ensures var front := Join(head, ':') + "::" + (if tail == [] then "" else Join(tail, ':') + ":");
      IsRewritten(groups, front, quad) && text == front + quad
  {
    hide Join, IPv4Value, HexGroups, QuadBytes, SpellsGroups;
    var last := QuadWords(quad);
    var opening, words := Join(head, ':') + "::", Join(last, ':');
    SpellsConcat(tail, groups[6 - |tail|..6], last, groups[6..]);
    assert groups[8 - |tail + last|..8] == groups[6 - |tail|..6] + groups[6..];
    assert IsCompressedSpelling(opening + Join(tail + last, ':'), groups, head, tail + last);
    if tail == [] {
      assert tail + last == last && opening + "" == opening && tail + [quad] == [quad];
      OneWord(quad);
    } else {
      JoinLast(tail, last, quad);
      Associative(opening, Join(tail, ':') + ":", words);
      Associative(opening, Join(tail, ':') + ":", quad);
    }
  }

  lemma OneWord(word: string)
    ensures Join([word], ':') == word
  {
  }

  function WordsOf(words: seq<string>): seq<string> {
    if words == [] then [""] else words
  }

  lemma SplitCompressed(head: seq<string>, tail: seq<string>)
    requires AllWords(head) && AllWords(tail)
    ensures SplitOn(Join(head, ':') + "::" + Join(tail, ':'), ':') == WordsOf(head) + [""] + WordsOf(tail)
  {
    var a, b := Join(head, ':'), Join(tail, ':');
    SplitWords(head);
    SplitWords(tail);
    hide SplitOn, Join;
    SplitConcat(a + [':'], b, ':');
    assert a + [':'] + [':'] + b == a + "::" + b by {
      Associative(a, [':'], [':']);
      assert [':'] + [':'] == "::";
    }
    SplitConcat(a, "", ':');
    assert a + [':'] + "" == a + [':'];
    assert SplitOn("", ':') == [""] by { SplitEmpty(); }
  }

  lemma SplitEmpty()
    ensures SplitOn("", ':') == [""]
  {
  }

  lemma SplitWords(words: seq<string>)
    requires AllWords(words)
    ensures SplitOn(Join(words, ':'), ':') == WordsOf(words)
  {
    if words != [] {
      SplitOfJoin(words, ':');
    }
  }

  /** The words of the rewritten text end in those of the quad, and the others are the words of what was before it. */
  lemma SplitRewritten(front: string, quad: string) returns (before: seq<string>, last: seq<string>)
    requires front != "" && front[|front| - 1] == ':' && IPv4Value(quad).Some?
    ensures |last| == 2 && SpellsGroups(last, TwoGroups(QuadBytes(quad))) && AllWords(last) && before != []
    ensures SplitOn(front + HexGroups(QuadBytes(quad)), ':') == before + last
    ensures front == Join(before, ':') + ":"
  {
    hide IPv4Value, HexGroups, QuadBytes, SpellsGroups;
    var body := front[..|front| - 1];
    assert front == body + [':'];
    before := SplitOn(body, ':');
    last := QuadWords(quad);
    SpellsAreWords(last, TwoGroups(QuadBytes(quad)));
    SplitWords(last);
    hide SplitOn, Join, AllWords;
    JoinOfSplit(body, ':');
    SplitConcat(body, Join(last, ':'), ':');
  }

  lemma SpellsAreWords(words: seq<string>, values: seq<nat>)
    requires SpellsGroups(words, values)
    ensures AllWords(words)
  {
  }

  lemma SameEnd(a: seq<string>, b: seq<string>, before: seq<string>, last: seq<string>)
    requires a + b == before + last && |last| <= |b|
    ensures var n := |b| - |last|; b[n..] == last && before == a + b[..n]
  {
    var n := |b| - |last|;
    assert |before| == |a| + n;
    assert b == b[..n] + b[n..];
    Associative(a, b[..n], b[n..]);
    assert (a + b[..n] + b[n..])[..|a| + n] == a + b[..n] && (before + last)[..|a| + n] == before;
    assert (a + b[..n] + b[n..])[|a| + n..] == b[n..] && (before + last)[|a| + n..] == last;
  }

  lemma FullIsRewritten(groups: seq<nat>, front: string, quad: string)
    requires IsRewritten(groups, front, quad) && IsFullSpelling(front + HexGroups(QuadBytes(quad)), groups)
    ensures exists words :: IsFullWithQuad(front + quad, groups, words, quad)
  {
    hide IPv4Value, HexGroups, QuadBytes, SpellsGroups, Join, SplitOn, AllWords;
    var words :| SpellsGroups(words, groups) && front + HexGroups(QuadBytes(quad)) == Join(words, ':');
    var before, last := SplitRewritten(front, quad);
    SameLength(words, groups);
    SpellsAreWords(words, groups);
    SplitWords(words);
    assert [] + words == words;
    SameEnd([], words, before, last);
    SpellsLast(words, groups, last, TwoGroups(QuadBytes(quad)), 6);
    assert [] + words[..6] == words[..6];
    JoinLast(words[..6], last, quad);
    assert IsFullWithQuad(front + quad, groups, words[..6], quad);
  }

  lemma TailHasQuad(head: seq<string>, tail: seq<string>, before: seq<string>, last: seq<string>)
    requires |last| == 2 && AllWords(last) && WordsOf(head) + [""] + WordsOf(tail) == before + last
    ensures |tail| >= 2
    ensures tail[|tail| - 2..] == last && before == WordsOf(head) + [""] + tail[..|tail| - 2]
  {
    TailIsLong(WordsOf(head), tail, before, last);
    hide AllWords;
    SameEnd(WordsOf(head) + [""], tail, before, last);
  }

  lemma EndsWithQuad(head: seq<string>, tail: seq<string>, groups: seq<nat>, last: seq<string>, lastValues: seq<nat>)
    requires |groups| == 8 && SpellsEnds(head, tail, groups, 8) && |last| == 2 && SpellsGroups(last, lastValues)
    requires |tail| >= 2 && tail[|tail| - 2..] == last
    ensures SpellsEnds(head, tail[..|tail| - 2], groups, 6) && groups[6..] == lastValues
  {
    hide SpellsGroups;
    var n := |tail| - 2;
    var values := groups[8 - |tail|..8];
    SpellsLast(tail, values, last, lastValues, n);
    assert values[..n] == groups[6 - n..6] && values[n..] == groups[6..];
  }

  lemma CompressedIsRewritten(groups: seq<nat>, front: string, quad: string, head: seq<string>, tail: seq<string>)
    requires IsRewritten(groups, front, quad)
    requires IsCompressedSpelling(front + HexGroups(QuadBytes(quad)), groups, head, tail)
    ensures exists t :: IsCompressedWithQuad(front + quad, groups, head, t, quad)
  {
    hide IPv4Value, HexGroups, QuadBytes, SpellsGroups, Join, SplitOn, IsPlainSpelling, AllWords, WordsOf, TwoGroups;
    var before, last := SplitRewritten(front, quad);
    EndsAreWords(head, tail, groups, 8);
    SplitCompressed(head, tail);
    TailHasQuad(head, tail, before, last);
    EndsWithQuad(head, tail, groups, last, TwoGroups(QuadBytes(quad)));
    var t := tail[..|tail| - 2];
    FrontOf(head, t, quad);
    hide SpellsEnds;
    assert IsCompressedWithQuad(front + quad, groups, head, t, quad);
  }

  lemma EndsAreWords(head: seq<string>, tail: seq<string>, groups: seq<nat>, size: nat)
    requires SpellsEnds(head, tail, groups, size)
    ensures AllWords(head) && AllWords(tail)
  {
    SpellsAreWords(head, groups[..|head|]);
    SpellsAreWords(tail, groups[size - |tail|..size]);
  }

  lemma ShortTail(a: seq<string>, tail: seq<string>)
    ensures var all := a + [""] + WordsOf(tail); |tail| < 2 ==> all[|all| - 1] == "" || all[|all| - 2] == ""
  {
  }

  /** Both words of the quad are in the tail: they are not empty, and what the double colon leaves between words is. */
  lemma TailIsLong(a: seq<string>, tail: seq<string>, before: seq<string>, last: seq<string>)
    requires |last| == 2 && AllWords(last) && a + [""] + WordsOf(tail) == before + last
    ensures |tail| >= 2
  {
    var all := before + last;
    assert all[|all| - 1] == last[1] && all[|all| - 2] == last[0];
    ShortTail(a, tail);
  }

  lemma FrontOf(head: seq<string>, t: seq<string>, quad: string)
    ensures Join(WordsOf(head) + [""] + t, ':') + ":" + quad == Join(head, ':') + "::" + Join(t + [quad], ':')
  {
    var h := WordsOf(head);
    var opening := Join(head, ':');
    assert Join(h, ':') == opening;
    hide Join;
    JoinConcat(h, [""], ':');
    OneWord("");
    assert opening + [':'] + "" + ":" == opening + "::";
    if t == [] {
      assert h + [""] + t == h + [""] && t + [quad] == [quad];
      OneWord(quad);
    } else {
      JoinConcat(h + [""], t, ':');
      JoinConcat(t, [quad], ':');
      OneWord(quad);
      var rest := Join(t, ':');
      assert opening + [':'] + "" + [':'] + rest + ":" + quad == opening + "::" + (rest + [':'] + quad);
    }
  }

  /** The two quad forms are exactly what the parser replaces a quad in. */
  lemma RewrittenExactly(front: string, quad: string, groups: seq<nat>)
    requires IsRewritten(groups, front, quad)
    ensures IsQuadSpelling(front + quad, groups)
  {
    hide IPv4Value, HexGroups, QuadBytes, IsFullSpelling, IsCompressedSpelling, IsFullWithQuad, IsCompressedWithQuad;
    if IsFullSpelling(front + HexGroups(QuadBytes(quad)), groups) {
      FullIsRewritten(groups, front, quad);
    } else {
      var head, tail :| IsCompressedSpelling(front + HexGroups(QuadBytes(quad)), groups, head, tail);
      CompressedIsRewritten(groups, front, quad, head, tail);
    }
  }

  // ----- the exact language

  lemma {:induction false} JoinedCharacters(words: seq<string>)
    requires AllHextets(words)
    ensures '.' !in Join(words, ':')
  {
    if |words| > 1 {
      JoinedCharacters(words[1..]);
    }
  }

  lemma PlainHasNoDot(text: string, groups: seq<nat>)
    requires IsPlainSpelling(text, groups)
    ensures '.' !in text
  {
    hide Join;
    if IsFullSpelling(text, groups) {
      var words :| SpellsGroups(words, groups) && text == Join(words, ':');
      JoinedCharacters(words);
    } else {
      var head, tail :| IsCompressedSpelling(text, groups, head, tail);
      JoinedCharacters(head);
      JoinedCharacters(tail);
    }
  }

  lemma QuadHasNoColon(quad: string)
    requires IPv4Value(quad).Some?
    ensures ':' !in quad && quad != ""
  {
  }

  /** For a text that ends in an IPv4 literal the parser decides as the two quad forms do. */
  lemma DottedExact(front: string, quad: string, groups: seq<nat>)
    requires front != "" && front[|front| - 1] == ':' && ':' !in quad && '.' in front + quad
    ensures IPv4Value(quad).Some? && PlainGroups(front + HexGroups(QuadBytes(quad))) == Some(groups)
       <==> IsQuadSpelling(front + quad, groups)
  {
    hide PlainGroups, IPv4Value, HexGroups, QuadBytes, IsFullSpelling, IsCompressedSpelling, IsPlainSpelling;
    if IPv4Value(quad).Some? && PlainGroups(front + HexGroups(QuadBytes(quad))) == Some(groups) {
      PlainExact(front + HexGroups(QuadBytes(quad)), groups);
      PlainHasNoDot(front + HexGroups(QuadBytes(quad)), groups);
      RewrittenExactly(front, quad, groups);
    }
    if words, q :| IsFullWithQuad(front + quad, groups, words, q) {
      FullRewrites(front + quad, groups, words, q);
      Accepted(front, quad, Join(words, ':') + ":", q, groups);
    } else if head, tail, q :| IsCompressedWithQuad(front + quad, groups, head, tail, q) {
      CompressedRewrites(front + quad, groups, head, tail, q);
      Accepted(front, quad, Join(head, ':') + "::" + (if tail == [] then "" else Join(tail, ':') + ":"), q, groups);
    }
  }

  lemma Accepted(front: string, quad: string, f: string, q: string, groups: seq<nat>)
    requires front != "" && front[|front| - 1] == ':' && ':' !in quad
    requires IsRewritten(groups, f, q) && front + quad == f + q
    ensures IPv4Value(quad).Some? && PlainGroups(front + HexGroups(QuadBytes(quad))) == Some(groups)
  {
    QuadHasNoColon(q);
    OneLastColon(front, quad, f, q);
    hide PlainGroups, IPv4Value, HexGroups, QuadBytes;
    PlainExact(front + HexGroups(QuadBytes(quad)), groups);
  }

  lemma OneLastColon(front: string, quad: string, f: string, q: string)
    requires front + quad == f + q && front != "" && f != ""
    requires front[|front| - 1] == ':' && f[|f| - 1] == ':' && ':' !in quad && ':' !in q
    ensures f == front && q == quad
  {
    var s := front + quad;
    if |front| < |f| {
      LaterColon(front, quad, f, q);
      assert false;
    } else if |f| < |front| {
      LaterColon(f, q, front, quad);
      assert false;
    }
    assert s[..|front|] == front && s[..|f|] == f && s[|front|..] == quad && s[|f|..] == q;
  }

  lemma LaterColon(front: string, quad: string, f: string, q: string)
    requires front + quad == f + q && |front| < |f| && f[|f| - 1] == ':'
    ensures ':' in quad
  {
    assert (front + quad)[|f| - 1] == quad[|f| - 1 - |front|] == ':';
  }

  lemma QuadSpellingHasDot(text: string, groups: seq<nat>)
    requires IsQuadSpelling(text, groups)
    ensures '.' in text && ':' in text
  {
    hide IPv4Value, HexGroups, QuadBytes, Join;
    if words, quad :| IsFullWithQuad(text, groups, words, quad) {
      FullRewrites(text, groups, words, quad);
      assert text[|Join(words, ':')|] == ':';
    } else {
      var head, tail, quad :| IsCompressedWithQuad(text, groups, head, tail, quad);
      CompressedRewrites(text, groups, head, tail, quad);
      assert text[|Join(head, ':')|] == ':';
    }
  }

  lemma DotsAndColons(host: string, groups: seq<nat>)
    ensures IsPlainSpelling(host, groups) ==> '.' !in host
    ensures IsQuadSpelling(host, groups) ==> '.' in host && ':' in host
  {
    hide IsPlainSpelling, IsQuadSpelling;
    if IsPlainSpelling(host, groups) {
      PlainHasNoDot(host, groups);
    }
    if IsQuadSpelling(host, groups) {
      QuadSpellingHasDot(host, groups);
    }
  }

  lemma HostExact(host: string, groups: seq<nat>)
    ensures HostGroups(host) == Some(groups) <==> IsSpelling(host, groups)
  {
    hide PlainGroups, IsPlainSpelling, IPv4Value, HexGroups, QuadBytes, IsQuadSpelling, LastIndexOf;
    DotsAndColons(host, groups);
    var lastColon := LastIndexOf(host, ':');
    if '.' in host && lastColon != -1 {
      var front, quad := host[..lastColon + 1], host[lastColon + 1..];
      assert host == front + quad && host[lastColon] == ':';
      DottedExact(front, quad, groups);
    } else {
      PlainExact(host, groups);
    }
  }

  /** For any text and any groups: the parse yields these groups iff the text, without its brackets, spells them. */
  lemma ParseIsExact(rawHost: string, groups: seq<nat>)
    ensures IPv6Groups(rawHost) == Some(groups) <==> IsSpelling(Unbracketed(rawHost), groups)
  {
    hide HostGroups, IsSpelling, Unbracketed;
    HostExact(Unbracketed(rawHost), groups);
  }

  /** Six groups and an IPv4 literal are parsed to the eight groups they stand for, in brackets or not. */
  lemma FullWithQuad(rawHost: string, words: seq<string>, values: seq<nat>, quad: string)
    requires |words| == 6 && SpellsGroups(words, values) && '.' in quad && IPv4Value(quad).Some?
    requires Unbracketed(rawHost) == Join(words + [quad], ':')
    ensures IPv6Groups(rawHost) == Some(values + TwoGroups(QuadBytes(quad)))
  {
    hide IPv6Groups, Unbracketed, Join, IPv4Value, QuadBytes;
    var groups := values + TwoGroups(QuadBytes(quad));
    assert groups[..6] == values && groups[6..] == TwoGroups(QuadBytes(quad));
    assert IsFullWithQuad(Unbracketed(rawHost), groups, words, quad);
    ParseIsExact(rawHost, groups);
  }

  /** So are groups around a double colon with an IPv4 literal at the end, right behind it if `tail` is empty. */
  lemma CompressedWithQuad(rawHost: string, head: seq<string>, values: seq<nat>, tail: seq<string>, after: seq<nat>,
                           quad: string)
    requires SpellsGroups(head, values) && SpellsGroups(tail, after) && |head| + |tail| <= 6
    requires '.' in quad && IPv4Value(quad).Some?
    requires Unbracketed(rawHost) == Join(head, ':') + "::" + Join(tail + [quad], ':')
    ensures IPv6Groups(rawHost)
         == Some(values + Zeros(6 - |head| - |tail|) + after + TwoGroups(QuadBytes(quad)))
  {
    hide IPv6Groups, Unbracketed, Join, IPv4Value, QuadBytes;
    var groups := values + Zeros(6 - |head| - |tail|) + after + TwoGroups(QuadBytes(quad));
    assert groups[..|head|] == values && groups[6 - |tail|..6] == after && groups[6..] == TwoGroups(QuadBytes(quad));
    assert IsCompressedWithQuad(Unbracketed(rawHost), groups, head, tail, quad);
    ParseIsExact(rawHost, groups);
  }

  // ----- the language of RFC 4291

  predicate IsDecimalByte(word: string) {
    word != "" && AllDigits(Decimal, word) && (word[0] != '0' || word == "0") && Number(Decimal, word) < 256
  }

  predicate IsDecimalQuad(bytes: seq<string>) {
    |bytes| == 4 && forall i :: 0 <= i < 4 ==> IsDecimalByte(bytes[i])
  }

  function DecimalValues(bytes: seq<string>): (values: seq<nat>)
    requires IsDecimalQuad(bytes)
    ensures |values| == 4
  {
    seq(4, i requires 0 <= i < 4 => Number(Decimal, bytes[i]))
  }

  /** Four decimal bytes for the last two groups. */
  ghost predicate IsRfcQuad(quad: string, last: seq<nat>) {
    exists bytes :: IsDecimalQuad(bytes) && quad == Join(bytes, '.') && last == TwoGroups(DecimalValues(bytes))
  }

  ghost predicate IsRfcFullWithQuad(text: string, groups: seq<nat>, words: seq<string>, quad: string) {
    && |groups| == 8 && |words| == 6 && SpellsGroups(words, groups[..6]) && IsRfcQuad(quad, groups[6..])
    && text == Join(words + [quad], ':')
  }

  ghost predicate IsRfcCompressedWithQuad(text: string, groups: seq<nat>, head: seq<string>, tail: seq<string>,
                                          quad: string) {
    && |groups| == 8 && SpellsEnds(head, tail, groups, 6) && |head| + |tail| <= 5 && IsRfcQuad(quad, groups[6..])
    && text == Join(head, ':') + "::" + Join(tail + [quad], ':')
  }

  /** Section 2.2: a double colon stands for one zero group at least, and the last two groups may be a decimal quad. */
  ghost predicate IsRfcSpelling(text: string, groups: seq<nat>) {
    || IsFullSpelling(text, groups)
    || (exists head, tail :: IsCompressedSpelling(text, groups, head, tail) && |head| + |tail| <= 7)
    || (exists words, quad :: IsRfcFullWithQuad(text, groups, words, quad))
    || (exists head, tail, quad :: IsRfcCompressedWithQuad(text, groups, head, tail, quad))
  }

  function CountWords(parts: seq<string>): nat {
    if parts == [] then 0 else (if parts[0] == "" then 0 else 1) + CountWords(parts[1..])
  }

  lemma {:induction false} CountConcat(a: seq<string>, b: seq<string>)
    ensures CountWords(a + b) == CountWords(a) + CountWords(b)
  {
    if a == [] {
      assert a + b == b;
    } else {
      CountConcat(a[1..], b);
      assert (a + b)[1..] == a[1..] + b;
    }
  }

  lemma {:induction false} CountAllWords(words: seq<string>)
    requires AllWords(words)
    ensures CountWords(WordsOf(words)) == |words|
  {
    if words != [] {
      CountAllWords(words[1..]);
      assert WordsOf(words)[1..] == words[1..];
      if |words| == 1 {
        assert CountWords([]) == 0;
      }
    }
  }

  /** The groups a text writes out; an IPv4 literal at its end is two. */
  function WrittenGroups(text: string): nat {
    CountWords(SplitOn(text, ':')) + if '.' in text then 1 else 0
  }

  /** A double colon beside eight groups, where it stands for none. */
  predicate HasEmptyCompression(text: string) {
    HasDouble(text) && WrittenGroups(text) == 8
  }

  function LastPart(text: string): string {
    var parts := SplitOn(text, ':');
    parts[|parts| - 1]
  }

  /** An IPv4 literal at the end that is not four decimal bytes. */
  predicate HasOddQuad(text: string) {
    '.' in text && !IsDecimalQuad(SplitOn(LastPart(text), '.'))
  }

  lemma {:induction false} DigitsHaveNoDot(bytes: seq<string>)
    requires forall i :: 0 <= i < |bytes| ==> IsDecimalByte(bytes[i])
    ensures forall i :: 0 <= i < |bytes| ==>
      '.' !in bytes[i] && forall k :: 0 <= k < |bytes[i]| ==> IsAlphanumeric(bytes[i][k])
  {
  }

  /** A decimal quad is read as its four bytes. */
  lemma DecimalQuadValue(bytes: seq<string>)
    requires IsDecimalQuad(bytes)
    ensures var quad := Join(bytes, '.');
      IPv4Value(quad).Some? && QuadBytes(quad) == DecimalValues(bytes) && '.' in quad
  {
    hide PartValue, Combined, Number, AllDigits, Bytes;
    var values := DecimalValues(bytes);
    forall k | 0 <= k < 4 ensures PartValue(bytes[k]) == Some(values[k]) && values[k] < 256 {
      DecimalPart(bytes[k]);
    }
    DigitsHaveNoDot(bytes);
    SplitOfJoin(bytes, '.');
    JoinHasIPv4Characters(bytes);
    CombinedBytes(values, 4);
    OneByte(values[3]);
    assert values == values[..3] + [values[3]];
    assert PartValues(bytes).value == values;
    assert Join(bytes, '.')[|bytes[0]|] == '.';
  }

  lemma RfcQuadExactly(quad: string, last: seq<nat>)
    requires '.' in quad
    ensures IsRfcQuad(quad, last) <==> IsQuadFor(quad, last) && IsDecimalQuad(SplitOn(quad, '.'))
  {
    hide IPv4Value, QuadBytes, Number, AllDigits, Join, SplitOn, TwoGroups, IsDecimalByte;
    if bytes :| IsDecimalQuad(bytes) && quad == Join(bytes, '.') && last == TwoGroups(DecimalValues(bytes)) {
      DecimalQuadValue(bytes);
      DigitsHaveNoDot(bytes);
      SplitOfJoin(bytes, '.');
    }
    if IsQuadFor(quad, last) && IsDecimalQuad(SplitOn(quad, '.')) {
      JoinOfSplit(quad, '.');
      DecimalQuadValue(SplitOn(quad, '.'));
    }
  }

  lemma RfcQuadHasDot(quad: string, last: seq<nat>)
    requires IsRfcQuad(quad, last)
    ensures '.' in quad
  {
    var bytes :| IsDecimalQuad(bytes) && quad == Join(bytes, '.') && last == TwoGroups(DecimalValues(bytes));
    DecimalQuadValue(bytes);
  }

  lemma FullWords(words: seq<string>)
    requires AllWords(words) && words != []
    ensures var text := Join(words, ':');
      !HasDouble(text) && SplitOn(text, ':') == words && LastPart(text) == words[|words| - 1]
  {
    JoinedWords(words);
    SplitWords(words);
  }

  lemma DoubleInside(a: string, b: string)
    ensures HasDouble(a + "::" + b)
  {
    var s := a + "::" + b;
    assert s[|a|] == ':' && s[|a| + 1] == ':';
  }

  lemma CountAround(head: seq<string>, tail: seq<string>)
    requires AllWords(head) && AllWords(tail)
    ensures CountWords(WordsOf(head) + [""] + WordsOf(tail)) == |head| + |tail|
  {
    CountAllWords(head);
    CountAllWords(tail);
    NoWord();
    hide CountWords, AllWords, WordsOf;
    CountConcat(WordsOf(head) + [""], WordsOf(tail));
    CountConcat(WordsOf(head), [""]);
  }

  lemma CompressedWords(head: seq<string>, tail: seq<string>)
    requires AllWords(head) && AllWords(tail)
    ensures var text := Join(head, ':') + "::" + Join(tail, ':');
      && HasDouble(text) && CountWords(SplitOn(text, ':')) == |head| + |tail|
      && (tail != [] ==> LastPart(text) == tail[|tail| - 1])
  {
    hide SplitOn, Join, HasDouble, CountWords, AllWords, WordsOf;
    DoubleInside(Join(head, ':'), Join(tail, ':'));
    SplitCompressed(head, tail);
    CountAround(head, tail);
    LastWord(WordsOf(head) + [""], tail);
  }

  lemma LastWord(front: seq<string>, tail: seq<string>)
    ensures var parts := front + WordsOf(tail); |parts| > 0 && (tail != [] ==> parts[|parts| - 1] == tail[|tail| - 1])
  {
  }

  lemma NoWord()
    ensures CountWords([""]) == 0
  {
    assert [""][1..] == [];
  }

  lemma AddQuad(words: seq<string>, quad: string)
    requires AllWords(words) && IPv4Value(quad).Some?
    ensures AllWords(words + [quad])
  {
    QuadHasNoColon(quad);
  }

  /** One way of reading a text leaves no other: a full spelling has no double colon, and only a quad has dots. */
  lemma PlainIsRfc(text: string, groups: seq<nat>)
    requires IsPlainSpelling(text, groups)
    ensures IsRfcSpelling(text, groups) <==> !HasEmptyCompression(text)
    ensures !HasOddQuad(text)
  {
    hide Join, SplitOn, SpellsGroups, IPv4Value, HasDouble, CountWords, IsRfcFullWithQuad, IsRfcCompressedWithQuad;
    PlainHasNoDot(text, groups);
    RfcQuadShows(text, groups);
    if IsFullSpelling(text, groups) {
      var words :| SpellsGroups(words, groups) && text == Join(words, ':');
      SpellsAreWords(words, groups);
      SameLength(words, groups);
      FullWords(words);
    } else {
      forall head, tail | IsCompressedSpelling(text, groups, head, tail)
        ensures HasDouble(text) && WrittenGroups(text) == |head| + |tail|
      {
        SpellsAreWords(head, groups[..|head|]);
        SpellsAreWords(tail, groups[8 - |tail|..8]);
        CompressedWords(head, tail);
      }
    }
  }

  lemma RfcQuadShows(text: string, groups: seq<nat>)
    ensures (exists words, quad :: IsRfcFullWithQuad(text, groups, words, quad)) ==> '.' in text
    ensures (exists head, tail, quad :: IsRfcCompressedWithQuad(text, groups, head, tail, quad)) ==> '.' in text
  {
    hide IsRfcQuad, Join, SpellsEnds, SpellsGroups;
    if words, quad :| IsRfcFullWithQuad(text, groups, words, quad) {
      RfcQuadHasDot(quad, groups[6..]);
      JoinEndsIn(words, quad);
    }
    if head, tail, quad :| IsRfcCompressedWithQuad(text, groups, head, tail, quad) {
      RfcQuadHasDot(quad, groups[6..]);
      JoinEndsIn(tail, quad);
    }
  }

  lemma JoinEndsIn(words: seq<string>, quad: string)
    requires '.' in quad
    ensures '.' in Join(words + [quad], ':')
  {
    if words == [] {
      assert words + [quad] == [quad];
    } else {
      JoinConcat(words, [quad], ':');
    }
  }

  lemma QuadIsRfc(text: string, groups: seq<nat>)
    requires IsQuadSpelling(text, groups)
    ensures IsRfcSpelling(text, groups) <==> !HasEmptyCompression(text) && !HasOddQuad(text)
  {
    hide Join, SplitOn, SpellsGroups, IPv4Value, HasDouble, CountWords, IsDecimalQuad, IsQuadFor, IsRfcQuad, AllWords;
    QuadSpellingHasDot(text, groups);
    NotPlain(text, groups);
    forall words, quad | IsFullWithQuad(text, groups, words, quad) ensures
      && !HasDouble(text) && LastPart(text) == quad
      && (IsRfcFullWithQuad(text, groups, words, quad) <==> !HasOddQuad(text))
    {
      FullFacts(text, groups, words, quad);
    }
    forall head, tail, quad | IsCompressedWithQuad(text, groups, head, tail, quad) ensures
      && HasDouble(text) && WrittenGroups(text) == |head| + |tail| + 2
      && (IsRfcCompressedWithQuad(text, groups, head, tail, quad) <==> |head| + |tail| <= 5 && !HasOddQuad(text))
    {
      CompressedFacts(text, groups, head, tail, quad);
    }
    forall words, quad | IsRfcFullWithQuad(text, groups, words, quad)
      ensures IsFullWithQuad(text, groups, words, quad)
    {
      RfcQuadHasDot(quad, groups[6..]);
      RfcQuadExactly(quad, groups[6..]);
    }
    forall head, tail, quad | IsRfcCompressedWithQuad(text, groups, head, tail, quad)
      ensures IsCompressedWithQuad(text, groups, head, tail, quad)
    {
      RfcQuadHasDot(quad, groups[6..]);
      RfcQuadExactly(quad, groups[6..]);
    }
  }

  lemma NotPlain(text: string, groups: seq<nat>)
    requires '.' in text
    ensures !IsPlainSpelling(text, groups)
  {
    hide IsFullSpelling, IsCompressedSpelling;
    if IsPlainSpelling(text, groups) {
      PlainHasNoDot(text, groups);
    }
  }

  lemma FullFacts(text: string, groups: seq<nat>, words: seq<string>, quad: string)
    requires IsFullWithQuad(text, groups, words, quad) && '.' in text
    ensures !HasDouble(text) && LastPart(text) == quad
    ensures IsRfcFullWithQuad(text, groups, words, quad) <==> !HasOddQuad(text)
  {
    hide Join, SplitOn, SpellsGroups, IPv4Value, HasDouble, IsDecimalQuad, IsRfcQuad, AllWords, QuadBytes;
    SpellsAreWords(words, groups[..6]);
    AddQuad(words, quad);
    FullWords(words + [quad]);
    RfcQuadExactly(quad, groups[6..]);
  }

  lemma CompressedFacts(text: string, groups: seq<nat>, head: seq<string>, tail: seq<string>, quad: string)
    requires IsCompressedWithQuad(text, groups, head, tail, quad) && '.' in text
    ensures HasDouble(text) && WrittenGroups(text) == |head| + |tail| + 2 && LastPart(text) == quad
    ensures IsRfcCompressedWithQuad(text, groups, head, tail, quad) <==> |head| + |tail| <= 5 && !HasOddQuad(text)
  {
    hide Join, SplitOn, SpellsGroups, IPv4Value, HasDouble, CountWords, IsDecimalQuad, IsRfcQuad, AllWords, QuadBytes;
    SpellsAreWords(head, groups[..|head|]);
    SpellsAreWords(tail, groups[6 - |tail|..6]);
    AddQuad(tail, quad);
    CompressedWords(head, tail + [quad]);
    RfcQuadExactly(quad, groups[6..]);
  }

  /**
    Of the texts the parser accepts exactly those are not spellings by RFC 4291 that have a double colon beside eight
    groups, or end in an IPv4 literal other than four decimal bytes.
  */
  lemma RfcExactly(rawHost: string, groups: seq<nat>)
    requires IPv6Groups(rawHost) == Some(groups)
    ensures var text := Unbracketed(rawHost);
      IsRfcSpelling(text, groups) <==> !HasEmptyCompression(text) && !HasOddQuad(text)
  {
    hide IPv6Groups, Unbracketed, IsPlainSpelling, IsQuadSpelling, IsRfcSpelling, HasEmptyCompression, HasOddQuad;
    var text := Unbracketed(rawHost);
    ParseIsExact(rawHost, groups);
    if IsPlainSpelling(text, groups) {
      PlainIsRfc(text, groups);
    } else {
      QuadIsRfc(text, groups);
    }
  }

  /** Everything RFC 4291 spells is parsed to what it spells, in brackets or not. */
  lemma RfcIsParsed(rawHost: string, groups: seq<nat>)
    requires IsRfcSpelling(Unbracketed(rawHost), groups)
    ensures IPv6Groups(rawHost) == Some(groups)
  {
    hide IPv6Groups, Unbracketed, IsFullSpelling, IsCompressedSpelling, IsRfcQuad, IsQuadFor, SpellsGroups, SpellsEnds;
    hide Join;
    var text := Unbracketed(rawHost);
    ParseIsExact(rawHost, groups);
    forall words, quad | IsRfcFullWithQuad(text, groups, words, quad)
      ensures IsFullWithQuad(text, groups, words, quad)
    {
      RfcQuadHasDot(quad, groups[6..]);
      RfcQuadExactly(quad, groups[6..]);
    }
    forall head, tail, quad | IsRfcCompressedWithQuad(text, groups, head, tail, quad)
      ensures IsCompressedWithQuad(text, groups, head, tail, quad)
    {
      RfcQuadHasDot(quad, groups[6..]);
      RfcQuadExactly(quad, groups[6..]);
    }
  }

  // ----- the deviating inputs

  lemma JoinFour(words: seq<string>)
    requires |words| == 4
    ensures Join(words, ':') == words[0] + ":" + (words[1] + ":" + (words[2] + ":" + words[3]))
  {
    assert words[1..][1..] == words[2..] && words[2..][1..] == words[3..];
    assert words[1..][0] == words[1] && words[2..][0] == words[2] && words[3..][0] == words[3];
    assert Join(words[3..], ':') == words[3];
    assert Join(words[2..], ':') == words[2] + [':'] + Join(words[3..], ':');
    assert Join(words[1..], ':') == words[1] + [':'] + Join(words[2..], ':');
  }

  lemma DigitsSpell(words: seq<string>, values: seq<nat>)
    requires |words| == |values|
    requires forall i :: 0 <= i < |words| ==> values[i] < 10 && words[i] == [UpperHexDigit(values[i])]
    ensures SpellsGroups(words, values)
  {
    forall i | 0 <= i < |words| ensures IsHextet(words[i]) && Number(Hex, words[i]) == values[i] {
      assert words[i][..0] == "";
    }
  }

  lemma NotRfc(text: string, all: seq<nat>, groups: seq<nat>)
    requires Unbracketed(text) == text && IPv6Groups(text) == Some(all)
    requires HasEmptyCompression(text) || HasOddQuad(text)
    ensures !IsRfcSpelling(text, groups)
  {
    hide IPv6Groups, Unbracketed, IsRfcSpelling, HasEmptyCompression, HasOddQuad;
    RfcExactly(text, all);
    if IsRfcSpelling(text, groups) {
      RfcIsParsed(text, groups);
    }
  }

  /** A double colon between eight groups is accepted, and then no spelling of anything by RFC 4291. */
  lemma EmptyCompression(text: string, head: seq<string>, tail: seq<string>, all: seq<nat>, groups: seq<nat>)
    requires |head| + |tail| == 8 && |all| == 8 && text != "" && text[0] != '['
    requires SpellsGroups(head, all[..|head|]) && SpellsGroups(tail, all[|head|..])
    requires text == Join(head, ':') + "::" + Join(tail, ':')
    ensures IPv6Groups(text) == Some(all) && !IsRfcSpelling(text, groups)
  {
    hide Join, SpellsGroups, SplitOn, HasDouble, IsFullSpelling, IPv6Groups, IsRfcSpelling, CountWords;
    assert all[8 - |tail|..8] == all[|head|..];
    SpellsAreWords(head, all[..|head|]);
    SpellsAreWords(tail, all[|head|..]);
    assert IsCompressedSpelling(text, all, head, tail);
    ParseIsExact(text, all);
    PlainHasNoDot(text, all);
    CompressedWords(head, tail);
    NotRfc(text, all, groups);
  }

  /** For example 1:2:3:4::5:6:7:8. */
  lemma EmptyCompressionIsAccepted(text: string, groups: seq<nat>)
    requires text == "1:2:3:4::5:6:7:8"
    ensures IPv6Groups(text) == Some([1, 2, 3, 4, 5, 6, 7, 8]) && !IsRfcSpelling(text, groups)
  {
    var head, tail := ["1", "2", "3", "4"], ["5", "6", "7", "8"];
    JoinFour(head);
    JoinFour(tail);
    DigitsSpell(head, [1, 2, 3, 4]);
    DigitsSpell(tail, [5, 6, 7, 8]);
    hide Join, IsHextet, Number, IPv6Groups, IsRfcSpelling;
    var all: seq<nat> := [1, 2, 3, 4, 5, 6, 7, 8];
    assert all[..4] == [1, 2, 3, 4] && all[4..] == [5, 6, 7, 8];
    EmptyCompression(text, head, tail, all, groups);
  }

  /** An IPv4 literal after the double colon that is not four decimal bytes is accepted, and no RFC 4291 spelling. */
  lemma OddQuad(text: string, quad: string, groups: seq<nat>)
    requires text == "::" + quad && '.' in quad && IPv4Value(quad).Some? && !IsDecimalQuad(SplitOn(quad, '.'))
    ensures IPv6Groups(text) == Some(Zeros(6) + TwoGroups(QuadBytes(quad))) && !IsRfcSpelling(text, groups)
  {
    hide SplitOn, HasDouble, IsFullSpelling, IPv6Groups, IsRfcSpelling, IPv4Value, QuadBytes, IsPlainSpelling;
    hide IsDecimalQuad;
    var all := Zeros(6) + TwoGroups(QuadBytes(quad));
    assert [] + [quad] == [quad] && text == "" + "::" + quad;
    OneWord(quad);
    AddQuad([], quad);
    CompressedWords([], [quad]);
    assert all[6..] == TwoGroups(QuadBytes(quad)) && all[..0] == [] && all[6..6] == [];
    assert IsCompressedWithQuad(text, all, [], [], quad);
    ParseIsExact(text, all);
    NotRfc(text, all, groups);
  }

  /** For example every short form of two parts, such as 127.1 or 0x7F.1 for 127.0.0.1. */
  lemma OddQuadIsAccepted(bases: seq<Base>, values: seq<nat>, groups: seq<nat>)
    requires |bases| == |values| == 2 && values[0] < 256 && values[1] < Pow256(3)
    ensures var text := "::" + Join(SpelledParts(bases, values), '.');
      IPv6Groups(text) == Some(Zeros(6) + TwoGroups([values[0]] + Bytes(values[1], 3))) && !IsRfcSpelling(text, groups)
  {
    var parts := SpelledParts(bases, values);
    var quad := Join(parts, '.');
    IPv4RoundTrip(bases, values);
    hide IPv6Groups, IsRfcSpelling, IPv4Value, SpelledParts, SplitOn, Bytes;
    CombinedBytes(values, 4);
    assert values[..1] == [values[0]];
    assert quad == parts[0] + ['.'] + parts[1] by { assert parts[1..] == [parts[1]]; }
    assert quad[|parts[0]|] == '.';
    forall k | 0 <= k < |parts| ensures '.' !in parts[k] {
      SpelledIsAlphanumeric(bases[k], values[k]);
    }
    SplitOfJoin(parts, '.');
    OddQuad("::" + quad, quad, groups);
  }
}
