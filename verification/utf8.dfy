/** UTF-8, the charset of Kotlin's `String.toByteArray()`: how the metadata
    text becomes the octets that are base-64 encoded, and the decoder that
    turns those octets back into text. Characters are Unicode scalar values. */
module Utf8 {
  import opened Basics

  function EncodeChar(c: char): (r: seq<Byte>)
    ensures 1 <= |r| <= 4
  {
    var n := c as int;
    if n < 0x80 then [n]
    else if n < 0x800 then [0xC0 + n / 64, 0x80 + n % 64]
    else if n < 0x10000 then [0xE0 + n / 4096, 0x80 + (n / 64) % 64, 0x80 + n % 64]
    else [0xF0 + n / 262144, 0x80 + (n / 4096) % 64, 0x80 + (n / 64) % 64, 0x80 + n % 64]
  }

  function Encode(s: string): (r: seq<Byte>)
    ensures |s| <= |r| <= 4 * |s|
  {
    if |s| == 0 then [] else EncodeChar(s[0]) + Encode(s[1..])
  }

  predicate IsContinuation(b: Byte) {
    0x80 <= b < 0xC0
  }

  predicate IsScalar(n: int) {
    (0 <= n < 0xD800) || (0xE000 <= n < 0x110000)
  }

  /** The character at the front of `b` and the number of octets it takes;
      `None` for a malformed, overlong or truncated sequence, a surrogate, or
      a value beyond U+10FFFF. */
  function DecodeFirst(b: seq<Byte>): (r: Option<(char, nat)>)
    requires |b| > 0
    ensures r.Some? ==> 1 <= r.value.1 <= |b|
  {
    var b0: int := b[0];
    if b0 < 0x80 then Some((b0 as char, 1))
    else if 0xC2 <= b0 < 0xE0 then
      if |b| >= 2 && IsContinuation(b[1]) then
        Some((((b0 - 0xC0) * 64 + (b[1] as int - 0x80)) as char, 2))
      else None
    else if 0xE0 <= b0 < 0xF0 then
      if |b| >= 3 && IsContinuation(b[1]) && IsContinuation(b[2]) then
        var n := (b0 - 0xE0) * 4096 + (b[1] as int - 0x80) * 64 + (b[2] as int - 0x80);
        if 0x800 <= n && IsScalar(n) then Some((n as char, 3)) else None
      else None
    else if 0xF0 <= b0 < 0xF5 then
      if |b| >= 4 && IsContinuation(b[1]) && IsContinuation(b[2]) && IsContinuation(b[3]) then
        var n := (b0 - 0xF0) * 262144 + (b[1] as int - 0x80) * 4096 + (b[2] as int - 0x80) * 64 + (b[3] as int - 0x80);
        if 0x10000 <= n && IsScalar(n) then Some((n as char, 4)) else None
      else None
    else None
  }

  function Decode(b: seq<Byte>): Option<string>
    decreases |b|
  {
    if |b| == 0 then Some("")
    else
      var (c, k) :- DecodeFirst(b);
      var rest :- Decode(b[k..]);
      Some([c] + rest)
  }

  lemma Value2(n: int)
    requires 0x80 <= n < 0x800
    ensures 0xC2 <= 0xC0 + n / 64 < 0xE0
    ensures (n / 64) * 64 + n % 64 == n
  {
  }

  lemma Value3(n: int)
    requires 0x800 <= n < 0x10000
    ensures 0xE0 <= 0xE0 + n / 4096 < 0xF0
    ensures (n / 4096) * 4096 + ((n / 64) % 64) * 64 + n % 64 == n
  {
    assert n / 4096 == (n / 64) / 64;
    assert n / 64 == (n / 4096) * 64 + (n / 64) % 64;
  }

  lemma Value4(n: int)
    requires 0x10000 <= n < 0x110000
    ensures 0xF0 <= 0xF0 + n / 262144 < 0xF5
    ensures (n / 262144) * 262144 + ((n / 4096) % 64) * 4096 + ((n / 64) % 64) * 64 + n % 64 == n
  {
    assert n / 262144 == (n / 4096) / 64;
    assert n / 4096 == (n / 64) / 64;
    assert n / 4096 == (n / 262144) * 64 + (n / 4096) % 64;
    assert n / 64 == (n / 4096) * 64 + (n / 64) % 64;
  }

  /** The octets of one character, whatever follows them, decode to that
      character and are consumed exactly. */
  lemma CharRoundTrip(c: char, rest: seq<Byte>)
    ensures DecodeFirst(EncodeChar(c) + rest) == Some((c, |EncodeChar(c)|))
  {
    var n := c as int;
    var b := EncodeChar(c) + rest;
    if n < 0x80 {
    } else if n < 0x800 {
      Value2(n);
      assert b[0] == 0xC0 + n / 64 && b[1] == 0x80 + n % 64;
    } else if n < 0x10000 {
      Value3(n);
      assert b[0] == 0xE0 + n / 4096 && b[1] == 0x80 + (n / 64) % 64 && b[2] == 0x80 + n % 64;
    } else {
      Value4(n);
      assert b[0] == 0xF0 + n / 262144 && b[1] == 0x80 + (n / 4096) % 64;
      assert b[2] == 0x80 + (n / 64) % 64 && b[3] == 0x80 + n % 64;
    }
  }

  /** Decoding the encoding of a text gives the text back. */
  lemma {:induction false} RoundTrip(s: string)
    ensures Decode(Encode(s)) == Some(s)
    decreases |s|
  {
    if |s| > 0 {
      var e := Encode(s);
      var head := EncodeChar(s[0]);
      CharRoundTrip(s[0], Encode(s[1..]));
      assert e[|head|..] == Encode(s[1..]);
      RoundTrip(s[1..]);
      assert s == [s[0]] + s[1..];
    }
  }
}
