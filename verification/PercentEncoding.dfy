/**
  The percent-encoding normal form that patterns and paths share. Text is a sequence of Unicode scalar values.
  `Reading` says what a text denotes: its octets, each marked as encoded or not where that matters, so that spellings
  equivalent under sections 6.2.2.1 and 6.2.2.2 of RFC 3986 have the same reading.
*/
module PercentEncoding {
  import opened Common

  type Byte = b: int | 0 <= b < 256

  /** Section 2.3 of RFC 3986. */
  predicate IsUnreserved(code: int) {
    || 0x41 <= code <= 0x5a || 0x61 <= code <= 0x7a || 0x30 <= code <= 0x39
    || code == 0x2d || code == 0x2e || code == 0x5f || code == 0x7e
  }

  predicate IsUpperHex(c: char) {
    '0' <= c <= '9' || 'A' <= c <= 'F'
  }

  predicate IsHexDigit(c: char) {
    IsUpperHex(c) || 'a' <= c <= 'f'
  }

  function HexValue(c: char): (v: int)
    requires IsHexDigit(c)
    ensures 0 <= v < 16
  {
    if c <= '9' then c as int - '0' as int
    else if c <= 'F' then c as int - 'A' as int + 10
    else c as int - 'a' as int + 10
  }

  function UpperHexDigit(v: int): (c: char)
    requires 0 <= v < 16
    ensures IsUpperHex(c) && HexValue(c) == v
  {
    if v < 10 then ('0' as int + v) as char else ('A' as int + v - 10) as char
  }

  function Upper(c: char): char {
    if 'a' <= c <= 'f' then (c as int - 32) as char else c
  }

  function PairValue(a: char, b: char): (v: Byte)
    requires IsHexDigit(a) && IsHexDigit(b)
  {
    16 * HexValue(a) + HexValue(b)
  }

  function Encoded(b: Byte): string {
    ['%', UpperHexDigit(b / 16), UpperHexDigit(b % 16)]
  }

  function Utf8(c: char): (bytes: seq<Byte>)
    ensures |bytes| > 0
  {
    var n := c as int;
    if n < 0x80 then [n]
    else if n < 0x800 then [0xC0 + n / 0x40, 0x80 + n % 0x40]
    else if n < 0x10000 then [0xE0 + n / 0x1000, 0x80 + n / 0x40 % 0x40, 0x80 + n % 0x40]
    else [0xF0 + n / 0x40000, 0x80 + n / 0x1000 % 0x40, 0x80 + n / 0x40 % 0x40, 0x80 + n % 0x40]
  }

  /** Control characters, space and everything outside ASCII are written in encoded form. */
  predicate NeedsEncoding(c: char) {
    c as int > 0x7e || c as int <= 0x20
  }

  function EncodedAll(bytes: seq<Byte>): string {
    if bytes == [] then "" else Encoded(bytes[0]) + EncodedAll(bytes[1..])
  }

  predicate IsTriplet(s: string) {
    |s| >= 3 && s[0] == '%' && IsHexDigit(s[1]) && IsHexDigit(s[2])
  }

  // ----- the normal form as a function

  function NormalTriplet(a: char, b: char): string
    requires IsHexDigit(a) && IsHexDigit(b)
  {
    if IsUnreserved(PairValue(a, b)) then [PairValue(a, b) as char] else ['%', Upper(a), Upper(b)]
  }

  function NormalChar(c: char): string {
    if NeedsEncoding(c) then EncodedAll(Utf8(c)) else [c]
  }

  function Normalized(s: string): string {
    if s == "" then ""
    else if IsTriplet(s) then NormalTriplet(s[1], s[2]) + Normalized(s[3..])
    else NormalChar(s[0]) + Normalized(s[1..])
  }

  method NormalizePercentEncoding(input: string) returns (out: string)
    ensures out == Normalized(input)
  {
    out := "";
    var i := 0;
    assert input[0..] == input;
    while i < |input|
      decreases |input| - i
      invariant 0 <= i <= |input|
      invariant out + Normalized(input[i..]) == Normalized(input)
    {
      var ch := input[i];
      ghost var rest := input[i..];
      var text;
      if ch == '%' && i + 2 < |input| && IsHexDigit(input[i + 1]) && IsHexDigit(input[i + 2]) {
        var code := PairValue(input[i + 1], input[i + 2]);
        text := if IsUnreserved(code) then [code as char] else ['%', Upper(input[i + 1]), Upper(input[i + 2])];
        assert rest[3..] == input[i + 3..];
        i := i + 3;
      } else {
        text := EncodeChar(ch);
        assert rest[1..] == input[i + 1..];
        i := i + 1;
      }
      assert Normalized(rest) == text + Normalized(input[i..]);
      Associative(out, text, Normalized(input[i..]));
      out := out + text;
    }
  }

  method EncodeChar(ch: char) returns (out: string)
    ensures out == NormalChar(ch)
  {
    if ch as int > 0x7e {
      out := EscapeBytes(Utf8(ch));
    } else if ch as int <= 0x20 || ch as int == 0x7f {
      out := Encoded(ch as int);
      assert [ch as int][1..] == [];
      assert EncodedAll([ch as int]) == out + "";
    } else {
      out := [ch];
    }
  }

  method EscapeBytes(bytes: seq<Byte>) returns (out: string)
    ensures out == EncodedAll(bytes)
  {
    out := "";
    for k := 0 to |bytes|
      invariant out + EncodedAll(bytes[k..]) == EncodedAll(bytes)
    {
      assert bytes[k..][1..] == bytes[k + 1..];
      out := out + Encoded(bytes[k]);
    }
  }

  // ----- what a text denotes

  /** `encoded` is kept only where RFC 3986 lets it change the meaning: not for unreserved characters. */
  datatype Octet = Octet(value: Byte, encoded: bool)

  function AllEncoded(bytes: seq<Byte>): seq<Octet> {
    if bytes == [] then [] else [Octet(bytes[0], true)] + AllEncoded(bytes[1..])
  }

  function ReadingOfChar(c: char): seq<Octet> {
    if NeedsEncoding(c) then AllEncoded(Utf8(c)) else [Octet(c as int, false)]
  }

  function Reading(s: string): seq<Octet> {
    if s == "" then []
    else if IsTriplet(s) then
      var v := PairValue(s[1], s[2]);
      [Octet(v, !IsUnreserved(v))] + Reading(s[3..])
    else ReadingOfChar(s[0]) + Reading(s[1..])
  }

  /** The octets alone. */
  function Denoted(s: string): seq<Byte> {
    Values(Reading(s))
  }

  function Values(octets: seq<Octet>): seq<Byte> {
    seq(|octets|, i requires 0 <= i < |octets| => octets[i].value)
  }

  // ----- where a stray '%' builds a triplet that was not there

  /** How long the first token is if it stands for a single hexadecimal digit, else 0. */
  function HexToken(s: string): (n: nat)
    ensures n <= |s|
  {
    if IsTriplet(s) then
      var v := PairValue(s[1], s[2]);
      if v < 128 && IsHexDigit(v as char) then 3 else 0
    else if s != "" && IsHexDigit(s[0]) then 1
    else 0
  }

  function HexTokenChar(s: string): (c: char)
    requires HexToken(s) > 0
    ensures IsHexDigit(c)
  {
    if IsTriplet(s) then PairValue(s[1], s[2]) as char else s[0]
  }

  predicate TwoHexTokens(s: string) {
    HexToken(s) > 0 && HexToken(s[HexToken(s)..]) > 0
  }

  /** Some '%' that starts no triplet stands before two tokens that stand for hexadecimal digits, as in `%%34%31`. */
  predicate Reassembles(s: string) {
    s != "" &&
    if IsTriplet(s) then Reassembles(s[3..])
    else (s[0] == '%' && TwoHexTokens(s[1..])) || Reassembles(s[1..])
  }

  /** Each triplet built that way happens to be in normal form already, as in `%%32%46`. */
  predicate ReassemblesNormally(s: string) {
    s == "" ||
    if IsTriplet(s) then ReassemblesNormally(s[3..])
    else
      && ReassemblesNormally(s[1..])
      && (s[0] == '%' && TwoHexTokens(s[1..]) ==>
            var a, b := HexTokenChar(s[1..]), HexTokenChar(s[1..][HexToken(s[1..])..]);
            IsUpperHex(a) && IsUpperHex(b) && !IsUnreserved(PairValue(a, b)))
  }

  /** Upper-case triplets only, none for an unreserved octet, and every other character printable ASCII. */
  predicate IsNormal(s: string) {
    s == "" ||
    if IsTriplet(s) then
      IsUpperHex(s[1]) && IsUpperHex(s[2]) && !IsUnreserved(PairValue(s[1], s[2])) && IsNormal(s[3..])
    else !NeedsEncoding(s[0]) && IsNormal(s[1..])
  }

  lemma SkipHexToken(s: string)
    requires HexToken(s) > 0
    ensures Normalized(s) == [HexTokenChar(s)] + Normalized(s[HexToken(s)..])
    ensures Reassembles(s) == Reassembles(s[HexToken(s)..])
    ensures ReassemblesNormally(s) == ReassemblesNormally(s[HexToken(s)..])
    ensures |Reading(s)| == 1 + |Reading(s[HexToken(s)..])|
  {
  }

  /** The normal form starts with a hexadecimal digit exactly when the first token stands for one. */
  lemma HexHead(s: string)
    ensures (Normalized(s) != "" && IsHexDigit(Normalized(s)[0])) <==> HexToken(s) > 0
  {
  }

  lemma TwoHexHead(s: string)
    ensures (|Normalized(s)| >= 2 && IsHexDigit(Normalized(s)[0]) && IsHexDigit(Normalized(s)[1])) <==> TwoHexTokens(s)
  {
    HexHead(s);
    if HexToken(s) > 0 {
      SkipHexToken(s);
      HexHead(s[HexToken(s)..]);
    }
  }

  // ----- the normal form is the one canonical spelling of the reading

  function Spelled(octet: Octet): string {
    if octet.encoded then Encoded(octet.value) else [octet.value as char]
  }

  function Spelling(octets: seq<Octet>): string {
    if octets == [] then "" else Spelled(octets[0]) + Spelling(octets[1..])
  }

  lemma {:induction false} SpellingConcat(a: seq<Octet>, b: seq<Octet>)
    ensures Spelling(a + b) == Spelling(a) + Spelling(b)
  {
    if a == [] {
      assert a + b == b;
    } else {
      assert (a + b)[0] == a[0] && (a + b)[1..] == a[1..] + b;
      SpellingConcat(a[1..], b);
    }
  }

  lemma {:induction false} SpellingOfEncoded(bytes: seq<Byte>)
    ensures Spelling(AllEncoded(bytes)) == EncodedAll(bytes)
  {
    if bytes != [] {
      SpellingOfEncoded(bytes[1..]);
      assert AllEncoded(bytes)[1..] == AllEncoded(bytes[1..]);
    }
  }

  lemma UpperPair(a: char, b: char)
    requires IsHexDigit(a) && IsHexDigit(b)
    ensures Encoded(PairValue(a, b)) == ['%', Upper(a), Upper(b)]
  {
    var v := PairValue(a, b);
    assert v / 16 == HexValue(a) && v % 16 == HexValue(b);
    UpperDigit(a);
    UpperDigit(b);
  }

  lemma UpperDigit(c: char)
    requires IsHexDigit(c)
    ensures UpperHexDigit(HexValue(c)) == Upper(c)
  {
  }

  /** Hence spellings with the same reading have one normal form, stray '%' or not. */
  lemma {:induction false} NormalFormIsCanonical(s: string)
    ensures Normalized(s) == Spelling(Reading(s))
  {
    if s == "" {
    } else if IsTriplet(s) {
      NormalFormIsCanonical(s[3..]);
      UpperPair(s[1], s[2]);
      assert Reading(s)[1..] == Reading(s[3..]);
    } else {
      NormalFormIsCanonical(s[1..]);
      SpellingConcat(ReadingOfChar(s[0]), Reading(s[1..]));
      SpellingOfChar(s[0]);
    }
  }

  lemma SpellingOfChar(c: char)
    ensures Spelling(ReadingOfChar(c)) == NormalChar(c)
  {
    if NeedsEncoding(c) {
      SpellingOfEncoded(Utf8(c));
    } else {
      var one := [Octet(c as int, false)];
      assert one[1..] == [];
      assert Spelling(one) == Spelled(one[0]) + "";
    }
  }

  // ----- reading the normal form

  lemma ReadingAfterChar(c: char, rest: string)
    requires c != '%'
    ensures Reading([c] + rest) == ReadingOfChar(c) + Reading(rest)
  {
    assert ([c] + rest)[1..] == rest;
  }

  lemma ReadingAfterTriplet(a: char, b: char, rest: string)
    requires IsHexDigit(a) && IsHexDigit(b)
    ensures Reading(['%', a, b] + rest) == [Octet(PairValue(a, b), !IsUnreserved(PairValue(a, b)))] + Reading(rest)
  {
    assert (['%', a, b] + rest)[3..] == rest;
  }

  lemma ReadingAfterStray(rest: string)
    requires !IsTriplet(['%'] + rest)
    ensures Reading(['%'] + rest) == [Octet(0x25, false)] + Reading(rest)
  {
    assert (['%'] + rest)[1..] == rest;
  }

  lemma {:induction false} ReadingAfterEncoded(bytes: seq<Byte>, rest: string)
    requires forall i :: 0 <= i < |bytes| ==> !IsUnreserved(bytes[i])
    ensures Reading(EncodedAll(bytes) + rest) == AllEncoded(bytes) + Reading(rest)
  {
    if bytes == [] {
      assert EncodedAll(bytes) + rest == rest;
    } else {
      hide Reading;
      var b, tail := bytes[0], EncodedAll(bytes[1..]) + rest;
      ReadingAfterEncoded(bytes[1..], rest);
      Associative(Encoded(b), EncodedAll(bytes[1..]), rest);
      ReadingAfterEncodedByte(b, tail);
      Associative([Octet(b, !IsUnreserved(b))], AllEncoded(bytes[1..]), Reading(rest));
    }
  }

  lemma ReadingAfterEncodedByte(b: Byte, rest: string)
    ensures Reading(Encoded(b) + rest) == [Octet(b, !IsUnreserved(b))] + Reading(rest)
  {
    var high, low := UpperHexDigit(b / 16), UpperHexDigit(b % 16);
    assert PairValue(high, low) == b && Encoded(b) == ['%', high, low];
    ReadingAfterTriplet(high, low, rest);
  }

  lemma ReadingAfterNormalChar(c: char, rest: string)
    requires c != '%'
    ensures Reading(NormalChar(c) + rest) == ReadingOfChar(c) + Reading(rest)
  {
    if NeedsEncoding(c) {
      ReadingAfterEncoded(Utf8(c), rest);
    } else {
      ReadingAfterChar(c, rest);
    }
  }

  lemma ReadingAfterNormalTriplet(a: char, b: char, rest: string)
    requires IsHexDigit(a) && IsHexDigit(b)
    ensures Reading(NormalTriplet(a, b) + rest)
         == [Octet(PairValue(a, b), !IsUnreserved(PairValue(a, b)))] + Reading(rest)
  {
    var v := PairValue(a, b);
    if IsUnreserved(v) {
      ReadingAfterChar(v as char, rest);
    } else {
      assert PairValue(Upper(a), Upper(b)) == v;
      ReadingAfterTriplet(Upper(a), Upper(b), rest);
    }
  }

  /** The two digits that a stray '%' turns into a triplet, and the text after them. */
  lemma Reassembled(s: string) returns (a: char, b: char, rest: string)
    requires s != "" && s[0] == '%' && !IsTriplet(s) && TwoHexTokens(s[1..])
    ensures |rest| < |s|
    ensures IsHexDigit(a) && a == HexTokenChar(s[1..])
    ensures IsHexDigit(b) && b == HexTokenChar(s[1..][HexToken(s[1..])..])
    ensures Normalized(s) == ['%', a, b] + Normalized(rest)
    ensures |Reading(s)| == 3 + |Reading(rest)|
    ensures ReassemblesNormally(s[1..]) == ReassemblesNormally(rest)
  {
    hide Reading, Normalized, ReassemblesNormally, HexToken;
    var after := s[1..];
    var next := after[HexToken(after)..];
    a, b, rest := HexTokenChar(after), HexTokenChar(next), next[HexToken(next)..];
    SkipHexToken(after);
    SkipHexToken(next);
    StrayFirst(s);
  }

  lemma StrayFirst(s: string)
    requires s != "" && s[0] == '%' && !IsTriplet(s)
    ensures Normalized(s) == ['%'] + Normalized(s[1..])
    ensures |Reading(s)| == 1 + |Reading(s[1..])|
  {
  }

  lemma {:induction false} ReadingOfNormal(s: string)
    ensures |Reading(Normalized(s))| <= |Reading(s)|
    ensures Reassembles(s) ==> |Reading(Normalized(s))| < |Reading(s)|
    ensures !Reassembles(s) ==> Reading(Normalized(s)) == Reading(s)
    decreases |s|
  {
    if s == "" {
    } else if IsTriplet(s) {
      ReadingOfNormal(s[3..]);
      ReadingAfterNormalTriplet(s[1], s[2], Normalized(s[3..]));
    } else if s[0] != '%' {
      ReadingOfNormal(s[1..]);
      ReadingAfterNormalChar(s[0], Normalized(s[1..]));
    } else if TwoHexTokens(s[1..]) {
      var a, b, rest := Reassembled(s);
      ReadingOfNormal(rest);
      ReadingAfterTriplet(a, b, Normalized(rest));
    } else {
      ReadingOfNormal(s[1..]);
      TwoHexHead(s[1..]);
      assert Normalized(s) == ['%'] + Normalized(s[1..]);
      ReadingAfterStray(Normalized(s[1..]));
    }
  }

  /** Normalising keeps what a text denotes exactly when no stray '%' gets two digits to build a triplet from. */
  lemma NormalizingKeepsMeaning(s: string)
    ensures Reading(Normalized(s)) == Reading(s) <==> !Reassembles(s)
    ensures Denoted(Normalized(s)) == Denoted(s) <==> !Reassembles(s)
  {
    ReadingOfNormal(s);
    assert |Denoted(Normalized(s))| == |Reading(Normalized(s))| && |Denoted(s)| == |Reading(s)|;
  }

  /** One normal form for each meaning: equal normal forms are equal readings. */
  lemma OneNormalForm(s: string, t: string)
    ensures Reading(s) == Reading(t) ==> Normalized(s) == Normalized(t)
    ensures !Reassembles(s) && !Reassembles(t) ==> (Normalized(s) == Normalized(t) <==> Reading(s) == Reading(t))
  {
    NormalFormIsCanonical(s);
    NormalFormIsCanonical(t);
    NormalizingKeepsMeaning(s);
    NormalizingKeepsMeaning(t);
  }

  // ----- the shape of the normal form, and idempotence

  lemma NormalAfterChar(c: char, rest: string)
    requires c != '%'
    ensures IsNormal([c] + rest) <==> !NeedsEncoding(c) && IsNormal(rest)
  {
    assert ([c] + rest)[1..] == rest;
  }

  lemma NormalAfterTriplet(a: char, b: char, rest: string)
    requires IsHexDigit(a) && IsHexDigit(b)
    ensures IsNormal(['%', a, b] + rest)
       <==> IsUpperHex(a) && IsUpperHex(b) && !IsUnreserved(PairValue(a, b)) && IsNormal(rest)
  {
    assert (['%', a, b] + rest)[3..] == rest;
  }

  lemma {:induction false} NormalAfterEncoded(bytes: seq<Byte>, rest: string)
    requires forall i :: 0 <= i < |bytes| ==> !IsUnreserved(bytes[i])
    ensures IsNormal(EncodedAll(bytes) + rest) <==> IsNormal(rest)
  {
    if bytes == [] {
      assert EncodedAll(bytes) + rest == rest;
    } else {
      var b, tail := bytes[0], EncodedAll(bytes[1..]) + rest;
      NormalAfterEncoded(bytes[1..], rest);
      assert EncodedAll(bytes) + rest == Encoded(b) + tail;
      assert PairValue(UpperHexDigit(b / 16), UpperHexDigit(b % 16)) == b;
      NormalAfterTriplet(UpperHexDigit(b / 16), UpperHexDigit(b % 16), tail);
    }
  }

  lemma NormalAfterNormalToken(s: string, rest: string)
    requires s != "" && (s[0] != '%' || IsTriplet(s))
    ensures IsTriplet(s) ==> (IsNormal(NormalTriplet(s[1], s[2]) + rest) <==> IsNormal(rest))
    ensures !IsTriplet(s) ==> (IsNormal(NormalChar(s[0]) + rest) <==> IsNormal(rest))
  {
    if IsTriplet(s) {
      var v := PairValue(s[1], s[2]);
      if IsUnreserved(v) {
        NormalAfterChar(v as char, rest);
      } else {
        assert PairValue(Upper(s[1]), Upper(s[2])) == v;
        NormalAfterTriplet(Upper(s[1]), Upper(s[2]), rest);
      }
    } else if NeedsEncoding(s[0]) {
      NormalAfterEncoded(Utf8(s[0]), rest);
    } else {
      NormalAfterChar(s[0], rest);
    }
  }

  lemma {:induction false} ResultIsNormal(s: string)
    ensures IsNormal(Normalized(s)) <==> ReassemblesNormally(s)
    decreases |s|
  {
    if s == "" {
    } else if IsTriplet(s) || s[0] != '%' {
      var n := if IsTriplet(s) then 3 else 1;
      ResultIsNormal(s[n..]);
      NormalAfterNormalToken(s, Normalized(s[n..]));
    } else if TwoHexTokens(s[1..]) {
      var a, b, rest := Reassembled(s);
      ResultIsNormal(rest);
      NormalAfterTriplet(a, b, Normalized(rest));
    } else {
      ResultIsNormal(s[1..]);
      TwoHexHead(s[1..]);
      var t := ['%'] + Normalized(s[1..]);
      assert Normalized(s) == t && t[1..] == Normalized(s[1..]);
    }
  }

  /** The texts that normalising leaves as they are: the normal ones and no others. */
  lemma {:induction false} FixedPoints(s: string)
    ensures Normalized(s) == s <==> IsNormal(s)
  {
    if s == "" {
    } else if IsTriplet(s) {
      FixedPoints(s[3..]);
      assert s == s[..3] + s[3..];
      if Normalized(s) == s && !IsUnreserved(PairValue(s[1], s[2])) {
        assert Normalized(s)[1] == Upper(s[1]) && Normalized(s)[2] == Upper(s[2]);
        assert Normalized(s)[3..] == Normalized(s[3..]);
      }
    } else {
      FixedPoints(s[1..]);
      assert s == [s[0]] + s[1..];
      if Normalized(s) == s && !NeedsEncoding(s[0]) {
        assert Normalized(s)[1..] == Normalized(s[1..]);
      }
    }
  }

  lemma Idempotent(s: string)
    ensures Normalized(Normalized(s)) == Normalized(s) <==> ReassemblesNormally(s)
  {
    FixedPoints(Normalized(s));
    ResultIsNormal(s);
  }

  /** Every '%' starts a triplet. */
  predicate WellFormed(s: string) {
    s == "" || if s[0] == '%' then IsTriplet(s) && WellFormed(s[3..]) else WellFormed(s[1..])
  }

  lemma {:induction false} WellFormedNeverReassembles(s: string)
    requires WellFormed(s)
    ensures !Reassembles(s) && ReassemblesNormally(s)
  {
    if s != "" {
      WellFormedNeverReassembles(if s[0] == '%' then s[3..] else s[1..]);
    }
  }

  lemma {:induction false} ReadingConcat(p: string, q: string)
    requires WellFormed(p)
    ensures Reading(p + q) == Reading(p) + Reading(q)
  {
    if p == "" {
      assert p + q == q;
    } else {
      hide Reading, TokenReading, WellFormed;
      var n := if IsTriplet(p) then 3 else 1;
      TokenOfConcat(p, q);
      ReadingConcat(p[n..], q);
      FirstToken(p);
      FirstToken(p + q);
      Associative(TokenReading(p), Reading(p[n..]), Reading(q));
    }
  }

  lemma TokenOfConcat(p: string, q: string)
    requires WellFormed(p) && p != ""
    ensures var n := if IsTriplet(p) then 3 else 1;
      && WellFormed(p[n..]) && (p + q)[n..] == p[n..] + q
      && IsTriplet(p + q) == IsTriplet(p) && TokenReading(p + q) == TokenReading(p)
  {
    var s := p + q;
    assert s[0] == p[0];
    assert IsTriplet(p) ==> s[1] == p[1] && s[2] == p[2];
  }

  function TokenReading(s: string): seq<Octet>
    requires s != ""
  {
    if IsTriplet(s) then [Octet(PairValue(s[1], s[2]), !IsUnreserved(PairValue(s[1], s[2])))] else ReadingOfChar(s[0])
  }

  lemma FirstToken(s: string)
    requires s != ""
    ensures Reading(s) == TokenReading(s) + Reading(s[if IsTriplet(s) then 3 else 1..])
  {
  }

  lemma ReadingAround(p: string, q: string, a: char, b: char)
    requires WellFormed(p) && IsHexDigit(a) && IsHexDigit(b)
    ensures var v := PairValue(a, b);
      Reading(p + ['%', a, b] + q) == Reading(p) + ([Octet(v, !IsUnreserved(v))] + Reading(q))
  {
    Associative(p, ['%', a, b], q);
    ReadingConcat(p, ['%', a, b] + q);
    ReadingAfterTriplet(a, b, q);
  }

  /** Sections 6.2.2.1 and 6.2.2.2 of RFC 3986: hex case, and encoding an unreserved character, do not matter. */
  lemma EquivalentSpellings(p: string, q: string, a: char, b: char, c: char, d: char)
    requires WellFormed(p)
    requires IsHexDigit(a) && IsHexDigit(b) && IsHexDigit(c) && IsHexDigit(d)
    requires PairValue(a, b) == PairValue(c, d)
    ensures Normalized(p + ['%', a, b] + q) == Normalized(p + ['%', c, d] + q)
    ensures IsUnreserved(PairValue(a, b)) ==>
      Normalized(p + ['%', a, b] + q) == Normalized(p + [PairValue(a, b) as char] + q)
  {
    hide Reading, Normalized, WellFormed;
    var v := PairValue(a, b);
    ReadingAround(p, q, a, b);
    ReadingAround(p, q, c, d);
    OneNormalForm(p + ['%', a, b] + q, p + ['%', c, d] + q);
    if IsUnreserved(v) {
      Associative(p, [v as char], q);
      ReadingConcat(p, [v as char] + q);
      ReadingAfterChar(v as char, q);
      OneNormalForm(p + ['%', a, b] + q, p + [v as char] + q);
    }
  }

  /** `%%34%31` becomes `%41`, which reads as one octet instead of three, and then `A`. */
  lemma StrayPercentReassembles()
    ensures var s := "%%34%31";
      Normalized(s) == "%41" && Normalized(Normalized(s)) == "A" && Reassembles(s) && !ReassemblesNormally(s)
  {
    var s := "%%34%31";
    assert s[1..] == "%34%31" && s[1..][3..] == "%31" && s[1..][3..][3..] == "";
    assert PairValue('3', '4') == '4' as int && PairValue('3', '1') == '1' as int;
    assert Normalized("%31") == "1";
    assert Normalized("%34%31") == "4" + Normalized("%31");
    assert Normalized(s) == "%" + Normalized("%34%31");
    assert PairValue('4', '1') == 'A' as int;
    assert "%41"[3..] == "";
    assert HexToken("%34%31") == 3 && HexToken("%31") == 3;
    assert TwoHexTokens(s[1..]);
  }
}
