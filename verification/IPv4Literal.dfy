/**
  IPv4 literals in every notation the checks must see through (src/net/ip.ts): dotted, short, octal, hexadecimal and
  all in one number.
*/
module IPv4Literal {
  import opened Common
  import opened Text
  import opened PercentEncoding

  // ----- numerals

  datatype Base = Octal | Decimal | Hex

  function Radix(base: Base): nat {
    match base case Octal => 8 case Decimal => 10 case Hex => 16
  }

  predicate IsDigit(base: Base, c: char) {
    match base
    case Octal => '0' <= c <= '7'
    case Decimal => '0' <= c <= '9'
    case Hex => IsHexDigit(c)
  }

  predicate AllDigits(base: Base, s: string) {
    forall i :: 0 <= i < |s| ==> IsDigit(base, s[i])
  }

  function Number(base: Base, s: string): nat
    requires AllDigits(base, s)
  {
    if s == "" then 0 else Number(base, s[..|s| - 1]) * Radix(base) + HexValue(s[|s| - 1])
  }

  function Digits(base: Base, n: nat): (s: string)
    ensures s != "" && AllDigits(base, s)
    decreases n
  {
    var digit := UpperHexDigit(n % Radix(base));
    if n < Radix(base) then [digit] else Digits(base, n / Radix(base)) + [digit]
  }

  /** One notation of `n`: a leading 0 marks octal, 0x hexadecimal. */
  function Spelled(base: Base, n: nat): string {
    (match base case Octal => "0" case Decimal => "" case Hex => "0x") + Digits(base, n)
  }

  function PartValue(raw: string): Option<nat> {
    if raw == "" then None
    else if |raw| > 2 && raw[0] == '0' && (raw[1] == 'x' || raw[1] == 'X') && AllDigits(Hex, raw[2..]) then
      Some(Number(Hex, raw[2..]))
    else if |raw| > 1 && raw[0] == '0' && AllDigits(Octal, raw[1..]) then Some(Number(Octal, raw[1..]))
    else if AllDigits(Decimal, raw) then Some(Number(Decimal, raw))
    else None
  }

  lemma {:induction false} NumberOfDigits(base: Base, n: nat)
    ensures Number(base, Digits(base, n)) == n
    decreases n
  {
    hide UpperHexDigit, HexValue, IsHexDigit, IsUpperHex;
    var s := Digits(base, n);
    if n < Radix(base) {
      assert s[..|s| - 1] == "";
    } else {
      NumberOfDigits(base, n / Radix(base));
      assert s[..|s| - 1] == Digits(base, n / Radix(base));
    }
  }

  lemma {:induction false} NoLeadingZero(n: nat)
    ensures n > 0 ==> Digits(Decimal, n)[0] != '0'
    ensures n == 0 ==> Digits(Decimal, n) == "0"
    decreases n
  {
    if n >= 10 {
      NoLeadingZero(n / 10);
    }
  }

  lemma MarkedPart(base: Base, digits: string)
    requires base != Decimal && digits != "" && AllDigits(base, digits)
    ensures PartValue((if base == Octal then "0" else "0x") + digits) == Some(Number(base, digits))
  {
    hide Number, IsHexDigit;
    var raw := (if base == Octal then "0" else "0x") + digits;
    assert raw[|raw| - |digits|..] == digits;
  }

  lemma DecimalPart(digits: string)
    requires digits != "" && AllDigits(Decimal, digits) && (digits[0] != '0' || digits == "0")
    ensures PartValue(digits) == Some(Number(Decimal, digits))
  {
    hide Number;
  }

  /** Every notation of a number is read as that number. */
  lemma PartRoundTrip(base: Base, n: nat)
    ensures PartValue(Spelled(base, n)) == Some(n)
  {
    hide PartValue, Number, Digits, AllDigits;
    NumberOfDigits(base, n);
    if base == Decimal {
      NoLeadingZero(n);
      DecimalPart(Digits(base, n));
      assert Spelled(base, n) == Digits(base, n);
    } else {
      MarkedPart(base, Digits(base, n));
    }
  }

  lemma SpelledIsAlphanumeric(base: Base, n: nat)
    ensures Spelled(base, n) != "" && forall i :: 0 <= i < |Spelled(base, n)| ==> IsAlphanumeric(Spelled(base, n)[i])
  {
    hide Digits;
  }

  // ----- IPv4

  predicate IsAlphanumeric(c: char) {
    '0' <= c <= '9' || 'a' <= c <= 'z' || 'A' <= c <= 'Z'
  }

  predicate HasIPv4Characters(host: string) {
    host != "" && forall i :: 0 <= i < |host| ==> IsAlphanumeric(host[i]) || host[i] == '.'
  }

  function Pow256(k: nat): (p: nat)
    requires k <= 4
    ensures p > 0
  {
    match k
    case 0 => 1
    case 1 => 0x100
    case 2 => 0x10000
    case 3 => 0x1000000
    case 4 => 0x100000000
  }

  /** The base-256 digits of a number, most significant first. */
  function Bytes(n: nat, k: nat): (bytes: seq<nat>)
    ensures |bytes| == k
  {
    if k == 0 then [] else Bytes(n / 256, k - 1) + [n % 256]
  }

  function FromBytes(bytes: seq<nat>): nat {
    if bytes == [] then 0 else FromBytes(bytes[..|bytes| - 1]) * 256 + bytes[|bytes| - 1]
  }

  /** The address when every part but the last fills one of `room` bytes and the last fills the rest. */
  function Combined(values: seq<nat>, room: nat): Option<nat>
    requires 1 <= |values| <= room <= 4
  {
    if |values| == 1 then (if values[0] < Pow256(room) then Some(values[0]) else None)
    else if values[0] > 255 then None
    else match Combined(values[1..], room - 1)
      case None => None
      case Some(rest) => Some(values[0] * Pow256(room - 1) + rest)
  }

  function PartValues(parts: seq<string>): (r: Option<seq<nat>>)
    ensures r == None <==> exists k :: 0 <= k < |parts| && PartValue(parts[k]) == None
    ensures r.Some? ==> |r.value| == |parts| && forall k :: 0 <= k < |parts| ==> PartValue(parts[k]) == Some(r.value[k])
  {
    if parts == [] then Some([])
    else match (PartValue(parts[0]), PartValues(parts[1..]))
      case (Some(v), Some(rest)) => Some([v] + rest)
      case _ => None
  }

  function IPv4Value(host: string): Option<nat> {
    if !HasIPv4Characters(host) then None
    else
      var parts := SplitOn(host, '.');
      if |parts| > 4 then None
      else match PartValues(parts)
        case None => None
        case Some(values) => Combined(values, 4)
  }

  method ParseIPv4(host: string) returns (address: Option<seq<nat>>)
    ensures IPv4Value(host) == None <==> address == None
    ensures address.Some? ==> address.value == Bytes(IPv4Value(host).value, 4)
  {
    hide PartValue, Combined, Bytes;
    if !HasIPv4Characters(host) { return None; }
    var parts := SplitOn(host, '.');
    if |parts| > 4 { return None; }
    var values: seq<nat> := [];
    for k := 0 to |parts|
      invariant |values| == k && forall j :: 0 <= j < k ==> PartValue(parts[j]) == Some(values[j])
    {
      var v := PartValue(parts[k]);
      if v == None { return None; }
      values := values + [v.value];
    }
    assert PartValues(parts).Some? && PartValues(parts).value == values;
    address := CombineValues(values);
  }

  method CombineValues(values: seq<nat>) returns (address: Option<seq<nat>>)
    requires 1 <= |values| <= 4
    ensures address == None <==> Combined(values, 4) == None
    ensures address.Some? ==> address.value == Bytes(Combined(values, 4).value, 4)
  {
    hide Combined, Bytes;
    CombinedBytes(values, 4);
    for i := 0 to |values| - 1
      invariant forall j :: 0 <= j < i ==> values[j] <= 255
    {
      if values[i] > 255 { return None; }
    }
    var lastIndex := |values| - 1;
    var last := values[lastIndex];
    var remainingCount := 4 - lastIndex;
    if last > Pow256(remainingCount) - 1 { return None; }
    var lastBytes := FillBytes(last, remainingCount);
    return Some(values[..lastIndex] + lastBytes);
  }

  /** The loop that splits the last part, from the least significant byte up. */
  method FillBytes(n: nat, count: nat) returns (bytes: seq<nat>)
    ensures bytes == Bytes(n, count)
  {
    var lastBytes := new nat[count];
    var last := n;
    var i := count;
    while i > 0
      decreases i
      invariant 0 <= i <= count
      invariant Bytes(last, i) + lastBytes[i..] == Bytes(n, count)
    {
      i := i - 1;
      ghost var filled := lastBytes[i + 1..];
      ghost var before := last;
      lastBytes[i] := last % 256;
      last := last / 256;
      assert lastBytes[i..] == [before % 256] + filled;
      assert Bytes(before, i + 1) == Bytes(last, i) + [before % 256];
      Associative(Bytes(last, i), [before % 256], filled);
    }
    assert Bytes(last, 0) + lastBytes[0..] == lastBytes[..];
    bytes := lastBytes[..];
  }

  lemma {:induction false} FirstByte(v: nat, rest: nat, k: nat)
    requires 1 <= k <= 4 && v < 256 && rest < Pow256(k - 1)
    ensures Bytes(v * Pow256(k - 1) + rest, k) == [v] + Bytes(rest, k - 1)
  {
    var n := v * Pow256(k - 1) + rest;
    if k == 1 {
      assert n == v && Bytes(n / 256, 0) == [];
    } else {
      FirstByte(v, rest / 256, k - 1);
      assert n / 256 == v * Pow256(k - 2) + rest / 256 && n % 256 == rest % 256 by {
        if k == 2 {} else if k == 3 {} else {}
      }
      assert Bytes(n, k) == [v] + Bytes(rest / 256, k - 2) + [rest % 256];
    }
  }

  predicate FitTheRoom(values: seq<nat>, room: nat)
    requires 1 <= |values| <= room <= 4
  {
    && (forall j :: 0 <= j < |values| - 1 ==> values[j] <= 255)
    && values[|values| - 1] < Pow256(room - |values| + 1)
  }

  lemma {:induction false} CombinedBytes(values: seq<nat>, room: nat)
    requires 1 <= |values| <= room <= 4
    ensures Combined(values, room).Some? <==> FitTheRoom(values, room)
    ensures FitTheRoom(values, room) ==>
      && Combined(values, room).value < Pow256(room)
      && Bytes(Combined(values, room).value, room)
         == values[..|values| - 1] + Bytes(values[|values| - 1], room - |values| + 1)
  {
    hide Bytes;
    if |values| == 1 {
      assert values[..0] == [];
    } else {
      CombinedBytes(values[1..], room - 1);
      if values[0] <= 255 {
        assert FitTheRoom(values, room) <==> FitTheRoom(values[1..], room - 1);
      }
      if FitTheRoom(values, room) {
        FirstByte(values[0], Combined(values[1..], room - 1).value, room);
        assert values[..|values| - 1] == [values[0]] + values[1..][..|values| - 2];
        assert Pow256(room) == 256 * Pow256(room - 1);
      }
    }
  }

  lemma {:induction false} BytesKeepValue(n: nat, k: nat)
    requires k <= 4 && n < Pow256(k)
    ensures FromBytes(Bytes(n, k)) == n
  {
    if k > 0 {
      BytesKeepValue(n / 256, k - 1);
      assert Bytes(n, k)[..k - 1] == Bytes(n / 256, k - 1);
    }
  }

  function SpelledParts(bases: seq<Base>, values: seq<nat>): (parts: seq<string>)
    requires |bases| == |values|
    ensures |parts| == |values|
    ensures forall k :: 0 <= k < |values| ==> parts[k] == Spelled(bases[k], values[k])
  {
    seq(|values|, k requires 0 <= k < |values| => Spelled(bases[k], values[k]))
  }

  /** Each part of one to four may be in any base; the parse is the address they make up, or none if one is too big. */
  lemma IPv4RoundTrip(bases: seq<Base>, values: seq<nat>)
    requires 1 <= |values| == |bases| <= 4
    ensures IPv4Value(Join(SpelledParts(bases, values), '.')) == Combined(values, 4)
  {
    hide PartValue, Spelled, Combined;
    var parts := SpelledParts(bases, values);
    forall k | 0 <= k < |parts|
      ensures PartValue(parts[k]) == Some(values[k]) && parts[k] != ""
           && forall i :: 0 <= i < |parts[k]| ==> IsAlphanumeric(parts[k][i])
    {
      PartRoundTrip(bases[k], values[k]);
      SpelledIsAlphanumeric(bases[k], values[k]);
    }
    SplitOfJoin(parts, '.');
    JoinHasIPv4Characters(parts);
    assert PartValues(parts).value == values;
  }

  lemma {:induction false} JoinHasIPv4Characters(parts: seq<string>)
    requires parts != []
    requires forall k :: 0 <= k < |parts| ==>
      parts[k] != "" && forall i :: 0 <= i < |parts[k]| ==> IsAlphanumeric(parts[k][i])
    ensures HasIPv4Characters(Join(parts, '.'))
  {
    if |parts| > 1 {
      JoinHasIPv4Characters(parts[1..]);
    }
  }

  /** Four bytes in dotted form come back as those bytes, and one number as its base-256 digits. */
  lemma DottedQuad(bases: seq<Base>, bytes: seq<nat>)
    requires |bytes| == |bases| == 4 && forall k :: 0 <= k < 4 ==> bytes[k] < 256
    ensures var value := IPv4Value(Join(SpelledParts(bases, bytes), '.'));
      value.Some? && Bytes(value.value, 4) == bytes && value.value == FromBytes(bytes)
  {
    hide Combined, IPv4Value, SpelledParts, Join, FromBytes, Bytes;
    IPv4RoundTrip(bases, bytes);
    CombinedBytes(bytes, 4);
    OneByte(bytes[3]);
    assert bytes == bytes[..3] + [bytes[3]];
    BytesKeepValue(Combined(bytes, 4).value, 4);
  }

  lemma OneByte(b: nat)
    requires b < 256
    ensures Bytes(b, 1) == [b]
  {
    assert Bytes(b / 256, 0) == [];
  }

  lemma OneNumber(base: Base, n: nat)
    ensures IPv4Value(Spelled(base, n)) == if n < Pow256(4) then Some(n) else None
  {
    IPv4RoundTrip([base], [n]);
    assert SpelledParts([base], [n]) == [Spelled(base, n)];
  }
}
