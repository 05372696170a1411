/** Splitting text at a character and joining it again, as the library functions the parsers use do. */
module Text {
  import opened Common

  function SplitOn(text: string, sep: char): (parts: seq<string>)
    ensures |parts| > 0
  {
    if text == "" then [""]
    else
      var rest := SplitOn(text[1..], sep);
      if text[0] == sep then [""] + rest else [[text[0]] + rest[0]] + rest[1..]
  }

  function Join(parts: seq<string>, sep: char): string {
    if parts == [] then ""
    else if |parts| == 1 then parts[0]
    else parts[0] + [sep] + Join(parts[1..], sep)
  }

  lemma SplitHead(c: char, rest: string, sep: char)
    ensures SplitOn([c] + rest, sep)
         == (if c == sep then [""] + SplitOn(rest, sep)
             else [[c] + SplitOn(rest, sep)[0]] + SplitOn(rest, sep)[1..])
  {
    assert ([c] + rest)[1..] == rest;
  }

  lemma SplitMore(c: char, rest: string, b: string, sep: char)
    requires SplitOn(rest + [sep] + b, sep) == SplitOn(rest, sep) + SplitOn(b, sep)
    ensures SplitOn([c] + rest + [sep] + b, sep) == SplitOn([c] + rest, sep) + SplitOn(b, sep)
  {
    hide SplitOn;
    SplitHead(c, rest, sep);
    SplitHead(c, rest + [sep] + b, sep);
    Associative([c], rest, [sep]);
    Associative([c], rest + [sep], b);
    var front, tail := SplitOn(rest, sep), SplitOn(b, sep);
    assert (front + tail)[0] == front[0];
    assert (front + tail)[1..] == front[1..] + tail;
    if c == sep {
      Associative([""], front, tail);
    } else {
      Associative([[c] + front[0]], front[1..], tail);
    }
  }

  lemma {:induction false} SplitConcat(a: string, b: string, sep: char)
    ensures SplitOn(a + [sep] + b, sep) == SplitOn(a, sep) + SplitOn(b, sep)
  {
    if a == "" {
      SplitHead(sep, b, sep);
      assert a + [sep] + b == [sep] + b;
    } else {
      hide SplitOn;
      SplitConcat(a[1..], b, sep);
      SplitMore(a[0], a[1..], b, sep);
      assert a == [a[0]] + a[1..];
    }
  }

  lemma {:induction false} SplitNothing(text: string, sep: char)
    requires sep !in text
    ensures SplitOn(text, sep) == [text]
  {
    if text != "" {
      SplitNothing(text[1..], sep);
      assert text == [text[0]] + text[1..];
    }
  }

  lemma {:induction false} SplitParts(text: string, sep: char)
    ensures forall i :: 0 <= i < |SplitOn(text, sep)| ==> sep !in SplitOn(text, sep)[i]
    ensures forall i :: 0 <= i < |SplitOn(text, sep)| ==> forall c :: c in SplitOn(text, sep)[i] ==> c in text
  {
    if text != "" {
      SplitParts(text[1..], sep);
    }
  }

  lemma {:induction false} SplitOfJoin(parts: seq<string>, sep: char)
    requires parts != [] && forall i :: 0 <= i < |parts| ==> sep !in parts[i]
    ensures SplitOn(Join(parts, sep), sep) == parts
  {
    SplitNothing(parts[0], sep);
    if |parts| > 1 {
      SplitOfJoin(parts[1..], sep);
      SplitConcat(parts[0], Join(parts[1..], sep), sep);
    }
  }

  lemma {:induction false} JoinOfSplit(text: string, sep: char)
    ensures Join(SplitOn(text, sep), sep) == text
  {
    if text != "" {
      JoinOfSplit(text[1..], sep);
      var rest := SplitOn(text[1..], sep);
      if text[0] == sep {
        assert ([""] + rest)[1..] == rest;
      } else {
        JoinHead(text[0], rest, sep);
      }
      assert text == [text[0]] + text[1..];
    }
  }

  lemma JoinHead(c: char, parts: seq<string>, sep: char)
    requires parts != []
    ensures Join([[c] + parts[0]] + parts[1..], sep) == [c] + Join(parts, sep)
  {
    assert ([[c] + parts[0]] + parts[1..])[1..] == parts[1..];
  }

  function LowerChar(c: char): char {
    if 'A' <= c <= 'Z' then (c as int + 32) as char else c
  }

  /** ASCII lower-casing. */
  function Lower(s: string): (r: string)
    ensures |r| == |s|
  {
    seq(|s|, i requires 0 <= i < |s| => LowerChar(s[i]))
  }

  lemma LowerHead(c: char, rest: string)
    ensures Lower([c] + rest) == [LowerChar(c)] + Lower(rest)
    ensures Lower("") == ""
  {
  }

  lemma {:induction false} SplitLower(text: string, sep: char)
    requires LowerChar(sep) == sep && !('a' <= sep <= 'z')
    ensures |SplitOn(Lower(text), sep)| == |SplitOn(text, sep)|
    ensures forall i :: 0 <= i < |SplitOn(text, sep)| ==> SplitOn(Lower(text), sep)[i] == Lower(SplitOn(text, sep)[i])
  {
    LowerHead('a', "");
    if text != "" {
      hide SplitOn, Lower;
      var c, tail := text[0], text[1..];
      assert text == [c] + tail;
      SplitLower(tail, sep);
      LowerHead(c, tail);
      SplitHead(c, tail, sep);
      SplitHead(LowerChar(c), Lower(tail), sep);
      assert LowerChar(c) == sep <==> c == sep;
      hide LowerChar;
      LowerHead(c, SplitOn(tail, sep)[0]);
    }
  }
}
