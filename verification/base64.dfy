/** The base 64 encoding of section 4 of RFC 4648 (standard alphabet, '='
    padding) as the metadata tag carries it. The encoder emits one unbroken
    line; the library the app calls additionally wraps its output into lines,
    so the decoder skips line breaks wherever they occur. */
module Base64 {
  import opened Basics

  /** The character of the base 64 alphabet for a six-bit value. */
  function Sextet(v: nat): (c: char)
    requires v < 64
    ensures SextetValue(c) == Some(v)
  {
    if v < 26 then ('A' as int + v) as char
    else if v < 52 then ('a' as int + (v - 26)) as char
    else if v < 62 then ('0' as int + (v - 52)) as char
    else if v == 62 then '+'
    else '/'
  }

  /** The six-bit value of an alphabet character; `None` for anything else
      (including the pad character '='). */
  function SextetValue(c: char): (r: Option<nat>)
    ensures r.Some? ==> r.value < 64
  {
    if 'A' <= c <= 'Z' then Some(c as int - 'A' as int)
    else if 'a' <= c <= 'z' then Some(c as int - 'a' as int + 26)
    else if '0' <= c <= '9' then Some(c as int - '0' as int + 52)
    else if c == '+' then Some(62)
    else if c == '/' then Some(63)
    else None
  }

  /** The characters an encoding is made of. */
  predicate IsEncodingChar(c: char) {
    SextetValue(c).Some? || c == '='
  }

  /** Three octets as four characters. */
  function FullGroup(b0: Byte, b1: Byte, b2: Byte): (q: string)
    ensures |q| == 4 && forall i :: 0 <= i < 4 ==> IsEncodingChar(q[i])
  {
    [Sextet(b0 / 4), Sextet((b0 % 4) * 16 + b1 / 16), Sextet((b1 % 16) * 4 + b2 / 64), Sextet(b2 % 64)]
  }

  /** A final pair of octets: three characters and one pad. */
  function PairGroup(b0: Byte, b1: Byte): (q: string)
    ensures |q| == 4 && forall i :: 0 <= i < 4 ==> IsEncodingChar(q[i])
  {
    [Sextet(b0 / 4), Sextet((b0 % 4) * 16 + b1 / 16), Sextet((b1 % 16) * 4), '=']
  }

  /** A final single octet: two characters and two pads. */
  function SingleGroup(b0: Byte): (q: string)
    ensures |q| == 4 && forall i :: 0 <= i < 4 ==> IsEncodingChar(q[i])
  {
    [Sextet(b0 / 4), Sextet((b0 % 4) * 16), '=', '=']
  }

  /** RFC 4648 section 4: each group of three octets becomes four characters;
      a final group of one or two octets is padded with "==" or "=". */
  function Encode(b: seq<Byte>): (r: string)
    ensures |r| == 4 * ((|b| + 2) / 3)
    ensures forall i :: 0 <= i < |r| ==> IsEncodingChar(r[i])
    decreases |b|
  {
    if |b| == 0 then ""
    else if |b| == 1 then SingleGroup(b[0])
    else if |b| == 2 then PairGroup(b[0], b[1])
    else
      var q, rest := FullGroup(b[0], b[1], b[2]), Encode(b[3..]);
      GroupsLength(|b|);
      EncodingCharsConcat(q, rest);
      q + rest
  }

  lemma GroupsLength(n: nat)
    requires n >= 3
    ensures 4 + 4 * ((n - 3 + 2) / 3) == 4 * ((n + 2) / 3)
  {
    assert (n - 3 + 2) / 3 + 1 == (n + 2) / 3;
  }

  lemma EncodingCharsConcat(a: string, b: string)
    requires forall i :: 0 <= i < |a| ==> IsEncodingChar(a[i])
    requires forall i :: 0 <= i < |b| ==> IsEncodingChar(b[i])
    ensures forall i :: 0 <= i < |a + b| ==> IsEncodingChar((a + b)[i])
  {
    forall i | 0 <= i < |a + b|
      ensures IsEncodingChar((a + b)[i])
    {
      if i >= |a| {
        assert (a + b)[i] == b[i - |a|];
      }
    }
  }

  predicate IsLineBreak(c: char) {
    c == '\n' || c == '\r'
  }

  function RemoveLineBreaks(s: string): (r: string)
    ensures |r| <= |s|
    ensures forall i :: 0 <= i < |r| ==> !IsLineBreak(r[i])
  {
    if |s| == 0 then ""
    else if IsLineBreak(s[0]) then RemoveLineBreaks(s[1..])
    else [s[0]] + RemoveLineBreaks(s[1..])
  }

  /** One group of four characters. `last` says whether it ends the input:
      padding is accepted only there. */
  function DecodeQuartet(q: string, last: bool): Option<seq<Byte>>
    requires |q| == 4
  {
    var v0 :- SextetValue(q[0]);
    var v1 :- SextetValue(q[1]);
    if q[2] == '=' then
      if last && q[3] == '=' then Some([v0 * 4 + v1 / 16]) else None
    else
      var v2 :- SextetValue(q[2]);
      if q[3] == '=' then
        if last then Some([v0 * 4 + v1 / 16, (v1 % 16) * 16 + v2 / 4]) else None
      else
        var v3 :- SextetValue(q[3]);
        Some([v0 * 4 + v1 / 16, (v1 % 16) * 16 + v2 / 4, (v2 % 4) * 64 + v3])
  }

  function DecodeQuartets(s: string): Option<seq<Byte>>
    decreases |s|
  {
    if |s| == 0 then Some([])
    else if |s| < 4 then None
    else
      var head :- DecodeQuartet(s[..4], |s| == 4);
      var tail :- DecodeQuartets(s[4..]);
      Some(head + tail)
  }

  /** Decodes an encoding that may be broken into lines. */
  function Decode(s: string): Option<seq<Byte>> {
    DecodeQuartets(RemoveLineBreaks(s))
  }

  /** The bit fields a full group's middle characters carry. */
  lemma FullGroupFields(b0: Byte, b1: Byte, b2: Byte)
    ensures ((b0 % 4) * 16 + b1 / 16) / 16 == b0 % 4 && ((b0 % 4) * 16 + b1 / 16) % 16 == b1 / 16
    ensures ((b1 % 16) * 4 + b2 / 64) / 4 == b1 % 16 && ((b1 % 16) * 4 + b2 / 64) % 4 == b2 / 64
  {
  }

  lemma FullGroupRoundTrip(b0: Byte, b1: Byte, b2: Byte)
    ensures DecodeQuartet(FullGroup(b0, b1, b2), false) == Some([b0, b1, b2])
    ensures DecodeQuartet(FullGroup(b0, b1, b2), true) == Some([b0, b1, b2])
  {
    var q := FullGroup(b0, b1, b2);
    var v0, v1, v2, v3 := b0 / 4, (b0 % 4) * 16 + b1 / 16, (b1 % 16) * 4 + b2 / 64, b2 % 64;
    assert SextetValue(q[0]) == Some(v0) && SextetValue(q[1]) == Some(v1);
    assert SextetValue(q[2]) == Some(v2) && SextetValue(q[3]) == Some(v3);
    FullGroupFields(b0, b1, b2);
    assert v0 * 4 + v1 / 16 == b0 && (v1 % 16) * 16 + v2 / 4 == b1 && (v2 % 4) * 64 + v3 == b2;
  }

  lemma PairGroupRoundTrip(b0: Byte, b1: Byte)
    ensures DecodeQuartet(PairGroup(b0, b1), true) == Some([b0, b1])
  {
    var q := PairGroup(b0, b1);
    var v0, v1, v2 := b0 / 4, (b0 % 4) * 16 + b1 / 16, (b1 % 16) * 4;
    assert SextetValue(q[0]) == Some(v0) && SextetValue(q[1]) == Some(v1);
    assert SextetValue(q[2]) == Some(v2) && q[3] == '=';
    FullGroupFields(b0, b1, 0);
    assert v0 * 4 + v1 / 16 == b0 && (v1 % 16) * 16 + v2 / 4 == b1;
  }

  lemma SingleGroupRoundTrip(b0: Byte)
    ensures DecodeQuartet(SingleGroup(b0), true) == Some([b0])
  {
  }

  lemma QuartetsStep(s: string, head: seq<Byte>, tail: seq<Byte>)
    requires |s| >= 4
    requires DecodeQuartet(s[..4], |s| == 4) == Some(head)
    requires DecodeQuartets(s[4..]) == Some(tail)
    ensures DecodeQuartets(s) == Some(head + tail)
  {
  }

  /** A final group alone decodes to its octets. */
  lemma LastGroupDecodes(q: string, octets: seq<Byte>)
    requires |q| == 4 && DecodeQuartet(q, true) == Some(octets)
    ensures DecodeQuartets(q) == Some(octets)
  {
    assert q[..4] == q && q[4..] == [];
    QuartetsStep(q, octets, []);
    assert octets + [] == octets;
  }

  lemma ShortRoundTrip(b: seq<Byte>)
    requires 1 <= |b| <= 2
    ensures DecodeQuartets(Encode(b)) == Some(b)
  {
    if |b| == 1 {
      assert Encode(b) == SingleGroup(b[0]);
      SingleGroupRoundTrip(b[0]);
      LastGroupDecodes(SingleGroup(b[0]), [b[0]]);
      ShortSeq(b);
    } else {
      assert Encode(b) == PairGroup(b[0], b[1]);
      PairGroupRoundTrip(b[0], b[1]);
      LastGroupDecodes(PairGroup(b[0], b[1]), [b[0], b[1]]);
      ShortSeq(b);
    }
  }

  /** A full group followed by more text decodes to its octets followed by
      what the rest decodes to. */
  lemma FullGroupThen(b0: Byte, b1: Byte, b2: Byte, rest: string, tail: seq<Byte>)
    requires DecodeQuartets(rest) == Some(tail)
    ensures DecodeQuartets(FullGroup(b0, b1, b2) + rest) == Some([b0, b1, b2] + tail)
  {
    var q := FullGroup(b0, b1, b2);
    var e := q + rest;
    assert e[..4] == q && e[4..] == rest;
    FullGroupRoundTrip(b0, b1, b2);
    QuartetsStep(e, [b0, b1, b2], tail);
  }

  lemma ShortSeq<T>(b: seq<T>)
    ensures |b| == 1 ==> b == [b[0]]
    ensures |b| == 2 ==> b == [b[0], b[1]]
  {
  }

  lemma FirstThree<T>(b: seq<T>)
    requires |b| >= 3
    ensures b == [b[0], b[1], b[2]] + b[3..]
  {
  }

  lemma {:induction false} QuartetsRoundTrip(b: seq<Byte>)
    ensures DecodeQuartets(Encode(b)) == Some(b)
    decreases |b|
  {
    if 1 <= |b| <= 2 {
      ShortRoundTrip(b);
    } else if |b| >= 3 {
      QuartetsRoundTrip(b[3..]);
      FullGroupThen(b[0], b[1], b[2], Encode(b[3..]), b[3..]);
      FirstThree(b);
    }
  }

  lemma {:induction false} NoLineBreaksUnchanged(s: string)
    requires forall i :: 0 <= i < |s| ==> !IsLineBreak(s[i])
    ensures RemoveLineBreaks(s) == s
    decreases |s|
  {
    if |s| > 0 {
      NoLineBreaksUnchanged(s[1..]);
    }
  }

  /** Decoding an encoding gives the octets back. */
  lemma RoundTrip(b: seq<Byte>)
    ensures Decode(Encode(b)) == Some(b)
  {
    NoLineBreaksUnchanged(Encode(b));
    QuartetsRoundTrip(b);
  }

  lemma {:induction false} RemoveLineBreaksConcat(a: string, b: string)
    ensures RemoveLineBreaks(a + b) == RemoveLineBreaks(a) + RemoveLineBreaks(b)
    decreases |a|
  {
    if |a| == 0 {
      assert a + b == b;
    } else {
      assert (a + b)[0] == a[0];
      assert (a + b)[1..] == a[1..] + b;
      RemoveLineBreaksConcat(a[1..], b);
    }
  }

  /** A line break inserted anywhere, as line wrapping does, changes nothing
      that is decoded. */
  lemma LineBreakIgnored(a: string, brk: char, b: string)
    requires IsLineBreak(brk)
    ensures Decode(a + [brk] + b) == Decode(a + b)
  {
    RemoveLineBreaksConcat(a + [brk], b);
    RemoveLineBreaksConcat(a, [brk]);
    RemoveLineBreaksConcat(a, b);
    assert [brk][1..] == [];
    assert RemoveLineBreaks([brk]) == RemoveLineBreaks([]);
    assert RemoveLineBreaks(a + [brk]) == RemoveLineBreaks(a);
    assert RemoveLineBreaks(a + [brk] + b) == RemoveLineBreaks(a + b);
  }

  /** A line break inserted at position `i` is ignored. */
  lemma LineBreakAt(s: string, i: nat, brk: char)
    requires i <= |s| && IsLineBreak(brk)
    ensures Decode(s[..i] + [brk] + s[i..]) == Decode(s)
  {
    LineBreakIgnored(s[..i], brk, s[i..]);
    SplitAt(s, i);
  }

  lemma SplitAt<T>(s: seq<T>, i: nat)
    requires i <= |s|
    ensures s[..i] + s[i..] == s
  {
  }
}
