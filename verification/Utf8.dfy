// The bytes of a Rust string: UTF-8, as in section 3 of RFC 3629.
module Utf8 {
  import opened Wrappers
  import opened Ints

  function EncodeChar(c: char): (bytes: seq<byte>)
    ensures 1 <= |bytes| <= 4
  {
    var n := c as int;
    if n < 0x80 then [n]
    else if n < 0x800 then [0xC0 + n / 0x40, 0x80 + n % 0x40]
    else if n < 0x1_0000 then [0xE0 + n / 0x1000, 0x80 + n / 0x40 % 0x40, 0x80 + n % 0x40]
    else [0xF0 + n / 0x4_0000, 0x80 + n / 0x1000 % 0x40, 0x80 + n / 0x40 % 0x40, 0x80 + n % 0x40]
  }

  function Encode(s: string): seq<byte> {
    if s == "" then [] else EncodeChar(s[0]) + Encode(s[1..])
  }

  function ScalarValue(n: int): Option<char> {
    if 0 <= n < 0xD800 || 0xE000 <= n < 0x11_0000 then Some(n as char) else None
  }

  // The first character of a byte sequence and the number of bytes it takes.
  function DecodeChar(b: seq<byte>): (r: Option<(char, nat)>)
    ensures r.Some? ==> 1 <= r.value.1 <= |b|
  {
    if b == [] then None
    else if b[0] < 0x80 then Some((b[0] as char, 1))
    else if b[0] < 0xE0 then (
      if |b| < 2 then None
      else var c :- ScalarValue(Join(b[0] as int - 0xC0, b[1])); Some((c, 2)))
    else if b[0] < 0xF0 then (
      if |b| < 3 then None
      else var c :- ScalarValue(Join(Join(b[0] as int - 0xE0, b[1]), b[2])); Some((c, 3)))
    else if |b| < 4 then None
    else var c :- ScalarValue(Join(Join(Join(b[0] as int - 0xF0, b[1]), b[2]), b[3])); Some((c, 4))
  }

  // Append the six payload bits of a continuation byte.
  function Join(high: int, continuation: byte): int { high * 0x40 + (continuation as int - 0x80) }

  function Decode(b: seq<byte>): Option<string>
    decreases |b|
  {
    if b == [] then Some("")
    else
      var head :- DecodeChar(b);
      var tail :- Decode(b[head.1..]);
      Some([head.0] + tail)
  }

  lemma {:induction false} DecodeCharOfEncodeChar(c: char, rest: seq<byte>)
    ensures DecodeChar(EncodeChar(c) + rest) == Some((c, |EncodeChar(c)|))
  {
    var n := c as int;
    var bytes := EncodeChar(c) + rest;
    var length := |EncodeChar(c)|;
    assert bytes[..length] == EncodeChar(c);
    assert bytes[0] == EncodeChar(c)[0];
    if length >= 2 { assert bytes[1] == EncodeChar(c)[1]; }
    if length >= 3 { assert bytes[2] == EncodeChar(c)[2]; }
    if length == 4 { assert bytes[3] == EncodeChar(c)[3]; }
    JoinUndoesSplit(n);
    JoinUndoesSplit(n / 0x40);
    JoinUndoesSplit(n / 0x1000);
  }

  // The last six bits, as a continuation byte, and the bits above them.
  lemma {:induction false} JoinUndoesSplit(n: nat)
    ensures Join(n / 0x40, 0x80 + n % 0x40) == n
    ensures n / 0x40 / 0x40 == n / 0x1000 && n / 0x1000 / 0x40 == n / 0x4_0000
  {
  }

  predicate IsAscii(s: string) { forall i :: 0 <= i < |s| ==> s[i] as int < 0x80 }

  function Ascii(s: string): seq<byte>
    requires IsAscii(s)
  {
    seq(|s|, i requires 0 <= i < |s| => s[i] as int)
  }

  // ASCII characters are one byte each.
  lemma {:induction false} EncodeOfAscii(s: string)
    requires IsAscii(s)
    ensures Encode(s) == Ascii(s)
  {
    if s == "" {
    } else {
      EncodeOfAscii(s[1..]);
      assert Ascii(s) == [s[0] as int] + Ascii(s[1..]);
    }
  }

  lemma {:induction false} DecodeOfEncode(s: string)
    ensures Decode(Encode(s)) == Some(s)
  {
    if s == "" {
    } else {
      var head, tail := EncodeChar(s[0]), Encode(s[1..]);
      DecodeCharOfEncodeChar(s[0], tail);
      assert Encode(s) == head + tail && (head + tail)[|head|..] == tail;
      DecodeOfEncode(s[1..]);
      assert [s[0]] + s[1..] == s;
    }
  }
}
