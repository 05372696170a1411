/**
  What normalising does to single characters and single triplets, said with the characters themselves: which octets stay
  encoded, which characters become triplets, and of which octets.
*/
module PercentCharacters {
  import opened Common
  import opened PercentEncoding

  // ----- characters

  /** ALPHA / DIGIT / "-" / "." / "_" / "~" in the grammar of RFC 3986. */
  predicate IsPlainCharacter(c: char) {
    'A' <= c <= 'Z' || 'a' <= c <= 'z' || '0' <= c <= '9' || c in "-._~"
  }

  /** The sixteen digits in upper case. */
  const DIGITS := "0123456789ABCDEF"

  predicate IsVisible(c: char) {
    '!' <= c <= '~'
  }

  // ----- UTF-8

  predicate IsTail(b: int) {
    0x80 <= b <= 0xBF
  }

  /** Section 3 of RFC 3629, read from the octets: what scalar value a sequence of one to four octets stands for. */
  function ScalarOf(bytes: seq<int>): Option<int> {
    if |bytes| == 1 && 0 <= bytes[0] <= 0x7F then Some(bytes[0])
    else if |bytes| == 2 && 0xC0 <= bytes[0] <= 0xDF && IsTail(bytes[1]) then
      Some((bytes[0] - 0xC0) * 0x40 + (bytes[1] - 0x80))
    else if |bytes| == 3 && 0xE0 <= bytes[0] <= 0xEF && IsTail(bytes[1]) && IsTail(bytes[2]) then
      Some((bytes[0] - 0xE0) * 0x1000 + (bytes[1] - 0x80) * 0x40 + (bytes[2] - 0x80))
    else if |bytes| == 4 && 0xF0 <= bytes[0] <= 0xF7 && IsTail(bytes[1]) && IsTail(bytes[2]) && IsTail(bytes[3]) then
      Some((bytes[0] - 0xF0) * 0x40000 + (bytes[1] - 0x80) * 0x1000 + (bytes[2] - 0x80) * 0x40 + (bytes[3] - 0x80))
    else None
  }

  /** The octets of a character stand for it, and there are as few of them as can be. */
  lemma Utf8IsRead(c: char)
    ensures ScalarOf(Utf8(c)) == Some(c as int)
    ensures var n := c as int;
      |Utf8(c)| == if n < 0x80 then 1 else if n < 0x800 then 2 else if n < 0x10000 then 3 else 4
  {
    var n := c as int;
    if n >= 0x10000 {
      FourOctets(n);
    } else if n >= 0x800 {
      ThreeOctets(n);
    }
  }

  lemma ThreeOctets(n: nat)
    ensures n / 0x40 / 0x40 == n / 0x1000
    ensures n == n / 0x1000 * 0x1000 + n / 0x40 % 0x40 * 0x40 + n % 0x40
  {
  }

  lemma FourOctets(n: nat)
    ensures n == n / 0x40000 * 0x40000 + n / 0x1000 % 0x40 * 0x1000 + n / 0x40 % 0x40 * 0x40 + n % 0x40
  {
    var high := n / 0x1000;
    SixBitsMore(n);
    ThreeOctets(n);
    assert high == high / 0x40 * 0x40 + high % 0x40;
  }

  lemma SixBitsMore(n: nat)
    ensures n / 0x1000 / 0x40 == n / 0x40000
  {
  }

  // ----- triplets

  lemma DigitAt(v: nat)
    requires v < 16
    ensures UpperHexDigit(v) == DIGITS[v]
  {
  }

  lemma {:induction false} EncodedAt(bytes: seq<Byte>, i: nat)
    requires i < |bytes|
    ensures |EncodedAll(bytes)| == 3 * |bytes|
    ensures EncodedAll(bytes)[3 * i] == '%'
    ensures EncodedAll(bytes)[3 * i + 1] == DIGITS[bytes[i] / 16]
    ensures EncodedAll(bytes)[3 * i + 2] == DIGITS[bytes[i] % 16]
  {
    var rest := bytes[1..];
    DigitAt(bytes[0] / 16);
    DigitAt(bytes[0] % 16);
    if |bytes| == 1 {
      assert EncodedAll(rest) == "";
    } else {
      EncodedAt(rest, if i == 0 then 0 else i - 1);
    }
  }

  /**
    A visible character is left as it is. Any other becomes the triplets of its UTF-8 octets, in upper case and in
    order.
  */
  lemma OneCharacter(c: char, i: nat)
    requires i < |Utf8(c)|
    ensures IsVisible(c) ==> Normalized([c]) == [c]
    ensures !IsVisible(c) ==>
      && |Normalized([c])| == 3 * |Utf8(c)| && Normalized([c])[3 * i] == '%'
      && Normalized([c])[3 * i + 1] == DIGITS[Utf8(c)[i] / 16] && Normalized([c])[3 * i + 2] == DIGITS[Utf8(c)[i] % 16]
  {
    hide Utf8, EncodedAll;
    assert [c][1..] == "";
    assert Normalized([c]) == NormalChar(c) + "";
    EncodedAt(Utf8(c), i);
  }

  predicate IsDigitFor(c: char, v: nat) {
    v < 16 && (c == DIGITS[v] || (v >= 10 && c == "abcdef"[v - 10]))
  }

  /** A triplet, whatever the case of its digits, becomes the character it stands for, or its upper-case form. */
  lemma OneTriplet(a: char, b: char, high: nat, low: nat)
    requires IsDigitFor(a, high) && IsDigitFor(b, low)
    ensures var code := 16 * high + low;
      Normalized(['%', a, b]) == if code < 128 && IsPlainCharacter(code as char) then [code as char]
                                 else ['%', DIGITS[high], DIGITS[low]]
  {
    hide HexValue, IsHexDigit, Upper, IsDigitFor;
    var s := ['%', a, b];
    PlaceOf(a, high);
    PlaceOf(b, low);
    FirstTriplet(a, b, "");
    NothingIsNormal();
    assert s + "" == s;
    hide Normalized;
    PlainIsUnreserved(16 * high + low);
  }

  lemma PlainIsUnreserved(code: Byte)
    ensures IsUnreserved(code) <==> code < 128 && IsPlainCharacter(code as char)
  {
  }

  lemma PlaceOf(c: char, v: nat)
    requires IsDigitFor(c, v)
    ensures IsHexDigit(c) && HexValue(c) == v && Upper(c) == DIGITS[v]
  {
  }

  /** Text is normalised character by character and triplet by triplet. */
  lemma InOrder(c: char, a: char, b: char, rest: string)
    ensures c != '%' ==> Normalized([c] + rest) == Normalized([c]) + Normalized(rest)
    ensures IsHexDigit(a) && IsHexDigit(b) ==>
      Normalized(['%', a, b] + rest) == Normalized(['%', a, b]) + Normalized(rest)
  {
    hide Normalized, NormalChar, NormalTriplet;
    assert [c] + "" == [c] && ['%', a, b] + "" == ['%', a, b];
    NothingIsNormal();
    FirstCharacter(c, rest);
    FirstCharacter(c, "");
    FirstTriplet(a, b, rest);
    FirstTriplet(a, b, "");
  }

  lemma NothingIsNormal()
    ensures Normalized("") == ""
  {
  }

  lemma FirstCharacter(c: char, rest: string)
    ensures c != '%' ==> Normalized([c] + rest) == NormalChar(c) + Normalized(rest)
  {
    hide NormalChar;
    assert ([c] + rest)[1..] == rest;
  }

  lemma FirstTriplet(a: char, b: char, rest: string)
    ensures IsHexDigit(a) && IsHexDigit(b) ==>
      Normalized(['%', a, b] + rest) == NormalTriplet(a, b) + Normalized(rest)
  {
    hide NormalTriplet;
    assert (['%', a, b] + rest)[3..] == rest;
  }
}
