/** Which texts a TEXT column takes, from the other side: the encodings of sequences of Unicode scalar values. */
module Utf8 {
  import opened Models

  /** A code point that is not a surrogate. */
  predicate IsScalar(c: int) {
    0 <= c < 0xD800 || 0xE000 <= c < 0x11_0000
  }

  function Byte(n: int): char
    requires 0 <= n < 0x100
  {
    n as char
  }

  /** Section 3 of RFC 3629. */
  function EncodeScalar(c: int): (s: string)
    requires IsScalar(c)
  {
    if c < 0x80 then [Byte(c)]
    else if c < 0x800 then [Byte(0xC0 + c / 0x40), Byte(0x80 + c % 0x40)]
    else if c < 0x1_0000 then
      [Byte(0xE0 + c / 0x40 / 0x40), Byte(0x80 + c / 0x40 % 0x40), Byte(0x80 + c % 0x40)]
    else
      [Byte(0xF0 + c / 0x40 / 0x40 / 0x40), Byte(0x80 + c / 0x40 / 0x40 % 0x40), Byte(0x80 + c / 0x40 % 0x40),
       Byte(0x80 + c % 0x40)]
  }

  ghost predicate AreScalars(cs: seq<int>) {
    forall c <- cs :: IsScalar(c)
  }

  function EncodeText(cs: seq<int>): string
    requires AreScalars(cs)
  {
    if cs == [] then "" else EncodeScalar(cs[0]) + EncodeText(cs[1..])
  }

  /** The encoding of a scalar value in front of a text makes no difference. */
  lemma {:induction false} EncodedInFront(c: int, rest: string)
    requires IsScalar(c)
    ensures IsUtf8(EncodeScalar(c) + rest) <==> IsUtf8(rest)
  {
    var one := EncodeScalar(c);
    var s := one + rest;
    assert s[|one|..] == rest;
    if 0x800 <= c < 0x1_0000 {
      assert c < 0xD800 ==> c / 0x40 / 0x40 < 0xD || c / 0x40 % 0x40 < 0x20;
    }
  }

  lemma {:induction false} EncodedIsUtf8(cs: seq<int>)
    requires AreScalars(cs)
    ensures IsUtf8(EncodeText(cs))
  {
    if cs != [] {
      EncodedIsUtf8(cs[1..]);
      EncodedInFront(cs[0], EncodeText(cs[1..]));
    }
  }

  /** How many bytes the first character of a well-formed text has. */
  function Width(first: int): nat {
    if first < 0x80 then 1 else if first < 0xE0 then 2 else if first < 0xF0 then 3 else 4
  }

  lemma SixBits(high: int, low: int)
    requires 0 <= high && 0 <= low < 0x40
    ensures (high * 0x40 + low) / 0x40 == high && (high * 0x40 + low) % 0x40 == low
  {
  }

  lemma ThreeBytes(a: int, b: int, c: int)
    requires 0 <= a < 0x10 && 0 <= b < 0x40 && 0 <= c < 0x40
    requires (a == 0 ==> 0x20 <= b) && (a == 0xD ==> b < 0x20)
    ensures
      var n := (a * 0x40 + b) * 0x40 + c;
      IsScalar(n) && EncodeScalar(n) == [Byte(0xE0 + a), Byte(0x80 + b), Byte(0x80 + c)]
  {
    SixBits(a, b);
    SixBits(a * 0x40 + b, c);
  }

  lemma FourBytes(a: int, b: int, c: int, d: int)
    requires 0 <= a <= 4 && 0 <= b < 0x40 && 0 <= c < 0x40 && 0 <= d < 0x40
    requires (a == 0 ==> 0x10 <= b) && (a == 4 ==> b < 0x10)
    ensures
      var n := ((a * 0x40 + b) * 0x40 + c) * 0x40 + d;
      IsScalar(n) && EncodeScalar(n) == [Byte(0xF0 + a), Byte(0x80 + b), Byte(0x80 + c), Byte(0x80 + d)]
  {
    SixBits(a, b);
    SixBits(a * 0x40 + b, c);
    SixBits((a * 0x40 + b) * 0x40 + c, d);
  }

  /** The first character of a well-formed text. */
  lemma {:induction false} FirstScalar(s: string) returns (c: int)
    requires IsUtf8(s) && s != ""
    ensures IsScalar(c)
    ensures var n := Width(s[0] as int); n <= |s| && s[..n] == EncodeScalar(c) && IsUtf8(s[n..])
  {
    var b := s[0] as int;
    if b < 0x80 {
      c := b;
    } else {
      var c1 := s[1] as int - 0x80;
      if b < 0xE0 {
        c := (b - 0xC0) * 0x40 + c1;
        SixBits(b - 0xC0, c1);
      } else {
        var c2 := s[2] as int - 0x80;
        if b < 0xF0 {
          c := ((b - 0xE0) * 0x40 + c1) * 0x40 + c2;
          ThreeBytes(b - 0xE0, c1, c2);
        } else {
          var c3 := s[3] as int - 0x80;
          c := (((b - 0xF0) * 0x40 + c1) * 0x40 + c2) * 0x40 + c3;
          FourBytes(b - 0xF0, c1, c2, c3);
        }
      }
    }
  }

  lemma {:induction false} Utf8IsEncoded(s: string) returns (cs: seq<int>)
    requires IsUtf8(s)
    ensures AreScalars(cs) && EncodeText(cs) == s
    decreases |s|
  {
    if s == "" {
      cs := [];
    } else {
      var c := FirstScalar(s);
      var n := Width(s[0] as int);
      var rest := Utf8IsEncoded(s[n..]);
      cs := [c] + rest;
      assert cs[1..] == rest;
      assert s == s[..n] + s[n..];
    }
  }

  /** A byte string is well-formed UTF-8 if and only if it is the encoding of a sequence of scalar values. */
  lemma {:induction false} Utf8Iff(s: string)
    ensures IsUtf8(s) <==> exists cs :: AreScalars(cs) && EncodeText(cs) == s
  {
    if IsUtf8(s) {
      var cs := Utf8IsEncoded(s);
    }
    forall cs | AreScalars(cs) && EncodeText(cs) == s
      ensures IsUtf8(s)
    {
      EncodedIsUtf8(cs);
    }
  }
}
