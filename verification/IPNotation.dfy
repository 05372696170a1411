/**
  How an address may be written without becoming another one: in upper or lower case, with leading zeros where they mark
  no base, in brackets or not. And what the words of both kinds of literal are, character by character.
*/
module IPNotation {
  import opened Common
  import opened Text
  import opened PercentEncoding
  import opened IPv4Literal
  import opened IPv6Literal

  // ----- digits

  const HEX_DIGITS := "0123456789abcdef"

  /** The value of a digit is its place among the sixteen, whichever its case. */
  lemma HexValueIsPlace(c: char)
    ensures IsHexDigit(c) <==> LowerChar(c) in HEX_DIGITS
    ensures IsHexDigit(c) ==> HEX_DIGITS[HexValue(c)] == LowerChar(c)
  {
    if IsHexDigit(c) {
      assert HEX_DIGITS[HexValue(c)] == LowerChar(c);
    }
  }

  lemma LowerDigit(base: Base, c: char)
    ensures IsDigit(base, LowerChar(c)) <==> IsDigit(base, c)
    ensures IsDigit(base, c) ==> HexValue(LowerChar(c)) == HexValue(c)
  {
  }

  lemma LowerDigits(base: Base, s: string)
    ensures AllDigits(base, Lower(s)) <==> AllDigits(base, s)
  {
    hide IsDigit, LowerChar;
    forall i | 0 <= i < |s| ensures IsDigit(base, Lower(s)[i]) <==> IsDigit(base, s[i]) {
      LowerDigit(base, s[i]);
    }
    if AllDigits(base, Lower(s)) {
      forall i | 0 <= i < |s| ensures IsDigit(base, s[i]) {
        assert IsDigit(base, Lower(s)[i]);
      }
    }
  }

  lemma {:induction false} LowerNumber(base: Base, s: string)
    requires AllDigits(base, s) && AllDigits(base, Lower(s))
    ensures Number(base, Lower(s)) == Number(base, s)
  {
    hide LowerChar, HexValue;
    if s != "" {
      var front := s[..|s| - 1];
      LowerDigits(base, front);
      assert Lower(s)[..|s| - 1] == Lower(front);
      LowerNumber(base, front);
      LowerDigit(base, s[|s| - 1]);
    }
  }

  // ----- one part of an IPv4 literal

  lemma LowerPart(raw: string)
    ensures PartValue(Lower(raw)) == PartValue(raw)
  {
    hide Number, AllDigits;
    LowerDigits(Hex, raw[if |raw| > 2 then 2 else 0..]);
    LowerDigits(Octal, raw[if |raw| > 1 then 1 else 0..]);
    LowerDigits(Decimal, raw);
    LowerRest(raw);
    if |raw| > 2 && AllDigits(Hex, raw[2..]) {
      LowerNumber(Hex, raw[2..]);
    }
    if |raw| > 1 && AllDigits(Octal, raw[1..]) {
      LowerNumber(Octal, raw[1..]);
    }
    if AllDigits(Decimal, raw) {
      LowerNumber(Decimal, raw);
    }
  }

  lemma LowerRest(raw: string)
    ensures |raw| > 2 ==> Lower(raw)[2..] == Lower(raw[2..])
    ensures |raw| > 1 ==> Lower(raw)[1..] == Lower(raw[1..])
    ensures |raw| > 0 ==> (Lower(raw)[0] == '0' <==> raw[0] == '0')
    ensures |raw| > 1 ==> (Lower(raw)[1] == 'x' <==> raw[1] == 'x' || raw[1] == 'X') && Lower(raw)[1] != 'X'
  {
  }

  /** A numeral with a leading zero is octal if its digits are, decimal if not, and more zeros change neither. */
  lemma LeadingZero(digits: string)
    requires digits != "" && AllDigits(Decimal, digits)
    ensures AllDigits(Octal, digits) ==> PartValue("0" + digits) == Some(Number(Octal, digits))
    ensures !AllDigits(Octal, digits) ==> PartValue("0" + digits) == Some(Number(Decimal, digits))
  {
    hide Number;
    assert ("0" + digits)[1..] == digits;
    ZeroInFront(Decimal, digits);
  }

  lemma {:induction false} ZeroInFront(base: Base, digits: string)
    requires AllDigits(base, digits)
    ensures AllDigits(base, "0" + digits) && Number(base, "0" + digits) == Number(base, digits)
  {
    var all := "0" + digits;
    if digits == "" {
      assert all[..0] == "";
    } else {
      ZeroInFront(base, digits[..|digits| - 1]);
      assert all[..|all| - 1] == "0" + digits[..|digits| - 1];
    }
  }

  /** What is no numeral: nothing at all, a mark without digits, or a character that is none of the base's digits. */
  lemma NoNumeral(raw: string)
    ensures PartValue(raw) == None <==>
      raw == "" ||
      ((exists i :: 0 <= i < |raw| && !('0' <= raw[i] <= '9'))
       && (|raw| <= 2 || raw[..2] !in {"0x", "0X"} || exists i :: 2 <= i < |raw| && LowerChar(raw[i]) !in HEX_DIGITS))
  {
    hide Number, IsHexDigit, LowerChar;
    forall c ensures IsHexDigit(c) <==> LowerChar(c) in HEX_DIGITS {
      HexValueIsPlace(c);
    }
    if |raw| > 2 {
      assert raw[..2] == [raw[0], raw[1]];
      assert forall i :: 2 <= i < |raw| ==> raw[2..][i - 2] == raw[i];
      assert forall i :: 0 <= i < |raw| - 2 ==> raw[2..][i] == raw[i + 2];
    }
    if |raw| > 1 {
      assert forall i :: 1 <= i < |raw| ==> raw[1..][i - 1] == raw[i];
    }
  }

  // ----- IPv4 literals

  lemma SameParts(a: seq<string>, b: seq<string>)
    requires |a| == |b| && forall k :: 0 <= k < |a| ==> PartValue(a[k]) == PartValue(b[k])
    ensures PartValues(a) == PartValues(b)
  {
    hide PartValue;
    if PartValues(a).Some? && PartValues(b).Some? {
      assert PartValues(a).value == PartValues(b).value;
    }
  }

  lemma LowerCharacters(host: string)
    ensures HasIPv4Characters(Lower(host)) <==> HasIPv4Characters(host)
  {
    forall i | 0 <= i < |host|
      ensures (IsAlphanumeric(Lower(host)[i]) || Lower(host)[i] == '.') <==> (IsAlphanumeric(host[i]) || host[i] == '.')
    {
    }
  }

  lemma LowerIPv4(host: string)
    ensures IPv4Value(Lower(host)) == IPv4Value(host)
  {
    hide PartValue, PartValues, Combined, HasIPv4Characters;
    LowerCharacters(host);
    SplitLower(host, '.');
    var parts, lower := SplitOn(host, '.'), SplitOn(Lower(host), '.');
    forall k | 0 <= k < |parts| ensures PartValue(lower[k]) == PartValue(parts[k]) {
      LowerPart(parts[k]);
    }
    SameParts(lower, parts);
  }

  // ----- IPv6 literals

  lemma LowerHextet(word: string)
    ensures IsHextet(Lower(word)) <==> IsHextet(word)
    ensures IsHextet(word) ==> Number(Hex, Lower(word)) == Number(Hex, word)
  {
    hide AllDigits, Number;
    LowerDigits(Hex, word);
    if AllDigits(Hex, word) {
      LowerNumber(Hex, word);
    }
  }

  lemma LowerGroups(s: string)
    ensures Groups(Lower(s)) == Groups(s)
  {
    hide AllDigits, Number, LowerChar, SplitOn;
    SplitLower(s, ':') by { ColonIsLower(); }
    var words, lower := SplitOn(s, ':'), SplitOn(Lower(s), ':');
    forall k | 0 <= k < |words|
      ensures IsHextet(lower[k]) <==> IsHextet(words[k])
      ensures IsHextet(words[k]) ==> Number(Hex, lower[k]) == Number(Hex, words[k])
    {
      LowerHextet(words[k]);
    }
    assert AllHextets(lower) <==> AllHextets(words);
    if AllHextets(words) {
      assert Numbers(lower) == Numbers(words);
    }
    assert Lower(s) == "" <==> s == "";
  }

  lemma ColonIsLower()
    ensures LowerChar(':') == ':'
  {
  }

  lemma SplitDoubleHead(s: string)
    requires s != ""
    ensures SplitDouble(s)
         == if |s| >= 2 && s[0] == ':' && s[1] == ':' then [""] + SplitDouble(s[2..])
            else [[s[0]] + SplitDouble(s[1..])[0]] + SplitDouble(s[1..])[1..]
  {
  }

  lemma LowerTail(s: string, n: nat)
    requires n <= |s|
    ensures Lower(s)[n..] == Lower(s[n..])
    ensures forall i :: 0 <= i < n ==> (Lower(s)[i] == ':' <==> s[i] == ':')
  {
  }

  lemma {:induction false} LowerSplitDouble(s: string)
    ensures |SplitDouble(Lower(s))| == |SplitDouble(s)|
    ensures forall i :: 0 <= i < |SplitDouble(s)| ==> SplitDouble(Lower(s))[i] == Lower(SplitDouble(s)[i])
    decreases |s|
  {
    if s == "" {
      assert Lower(s) == "";
    } else {
      hide SplitDouble, Lower, LowerChar;
      var lower := Lower(s);
      SplitDoubleHead(s);
      SplitDoubleHead(lower);
      LowerTail(s, 1);
      LowerHead(s[0], s[1..]);
      assert s == [s[0]] + s[1..];
      if |s| >= 2 {
        LowerTail(s, 2);
      }
      if |s| >= 2 && s[0] == ':' && s[1] == ':' {
        LowerSplitDouble(s[2..]);
      } else {
        LowerSplitDouble(s[1..]);
        LowerHead(s[0], SplitDouble(s[1..])[0]);
      }
    }
  }

  lemma LowerPlain(host: string)
    ensures PlainGroups(Lower(host)) == PlainGroups(host)
  {
    hide SplitDouble, Groups, Lower;
    LowerSplitDouble(host);
    var parts := SplitDouble(host);
    LowerGroups(parts[0]);
    if |parts| == 2 {
      LowerGroups(parts[1]);
    }
  }

  lemma {:induction false} LowerLastIndex(s: string)
    ensures LastIndexOf(Lower(s), ':') == LastIndexOf(s, ':')
  {
    if s != "" {
      LowerLastIndex(s[..|s| - 1]);
      assert Lower(s)[..|s| - 1] == Lower(s[..|s| - 1]);
    }
  }

  lemma LowerOnce(front: string, tail: string)
    ensures Lower(Lower(front) + tail) == Lower(front + tail)
  {
  }

  lemma LowerCut(s: string, n: nat)
    requires n <= |s|
    ensures Lower(s)[..n] == Lower(s[..n]) && Lower(s)[n..] == Lower(s[n..])
    ensures '.' in Lower(s) <==> '.' in s
  {
    if '.' in s {
      var i :| 0 <= i < |s| && s[i] == '.';
      assert Lower(s)[i] == '.';
    }
  }

  lemma LowerHost(host: string)
    ensures HostGroups(Lower(host)) == HostGroups(host)
  {
    hide PlainGroups, IPv4Value, HexGroups, Lower, LastIndexOf, Bytes;
    LowerLastIndex(host);
    LowerPlain(host);
    var n := LastIndexOf(host, ':') + 1;
    LowerCut(host, n);
    var front, quad := host[..n], host[n..];
    LowerIPv4(quad);
    if IPv4Value(quad).Some? {
      var hex := HexGroups(QuadBytes(quad));
      LowerOnce(front, hex);
      LowerPlain(Lower(front) + hex);
      LowerPlain(front + hex);
    }
  }

  lemma LowerBrackets(rawHost: string)
    ensures Unbracketed(Lower(rawHost)) == Lower(Unbracketed(rawHost))
  {
  }

  /** Whether a literal is in upper or lower case makes no difference to the address. */
  lemma CaseDoesNotMatter(host: string)
    ensures IPv4Value(Lower(host)) == IPv4Value(host)
    ensures IPv6Groups(Lower(host)) == IPv6Groups(host)
  {
    hide Lower, HostGroups, IPv4Value, Unbracketed;
    LowerIPv4(host);
    LowerBrackets(host);
    LowerHost(Unbracketed(host));
  }

  /** Nor do brackets around it. */
  lemma BracketsDoNotMatter(host: string)
    requires host == "" || host[0] != '[' || host[|host| - 1] != ']'
    ensures IPv6Groups("[" + host + "]") == IPv6Groups(host)
  {
    hide HostGroups;
    var raw := "[" + host + "]";
    assert raw[1..|raw| - 1] == host;
  }

  /**
    The words between the colons: one to four hexadecimal digits, and so a number of 16 bits; and each has such a word.
  */
  lemma HextetExactly(word: string)
    ensures IsHextet(word) <==> 1 <= |word| <= 4 && forall i :: 0 <= i < |word| ==> LowerChar(word[i]) in HEX_DIGITS
    ensures IsHextet(word) ==> Number(Hex, word) < 0x10000
  {
    hide LowerChar, IsHexDigit;
    forall i | 0 <= i < |word| ensures IsHexDigit(word[i]) <==> LowerChar(word[i]) in HEX_DIGITS {
      HexValueIsPlace(word[i]);
    }
    if IsHextet(word) {
      SmallNumber(word);
      FourDigitsAtMost(|word|);
    }
  }

  function Pow16(k: nat): nat {
    if k == 0 then 1 else 16 * Pow16(k - 1)
  }

  lemma FourDigitsAtMost(k: nat)
    requires k <= 4
    ensures Pow16(k) <= 0x10000
  {
    assert Pow16(0) == 1 && Pow16(1) == 16 * Pow16(0) && Pow16(2) == 16 * Pow16(1);
    assert Pow16(3) == 16 * Pow16(2) && Pow16(4) == 16 * Pow16(3);
  }

  lemma {:induction false} SmallNumber(word: string)
    requires AllDigits(Hex, word)
    ensures Number(Hex, word) < Pow16(|word|)
  {
    hide IsHexDigit;
    if word != "" {
      SmallNumber(word[..|word| - 1]);
    }
  }

  lemma EveryGroupHasWord(group: nat)
    requires group < 0x10000
    ensures exists word :: IsHextet(word) && Number(Hex, word) == group
  {
    HexPair(group / 256, group % 256);
  }
}
