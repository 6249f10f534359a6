/** The text form of a JSON object whose members are all strings, as
    `JSONObject.toString()` writes it on Android: members in insertion order,
    no whitespace, and string contents escaped the way the library's
    `JSONStringer` does it (quote, backslash and solidus get a backslash; TAB,
    BS, LF, CR and FF get their short escapes; other control characters and
    U+2028/U+2029 become a lower-case `\uXXXX`). The parser reads that form
    back; it is the decoder for the metadata payload, not a general JSON
    reader. */
module Json {
  import opened Basics

  type Member = (string, string)

  // ---------------------------------------------------------------- hex

  function HexDigit(d: nat): char
    requires d < 16
  {
    if d < 10 then ('0' as int + d) as char else ('a' as int + (d - 10)) as char
  }

  function HexValue(c: char): (r: Option<nat>)
    ensures r.Some? ==> r.value < 16
  {
    if '0' <= c <= '9' then Some(c as int - '0' as int)
    else if 'a' <= c <= 'f' then Some(c as int - 'a' as int + 10)
    else if 'A' <= c <= 'F' then Some(c as int - 'A' as int + 10)
    else None
  }

  /** `String.format("%04x", n)` for a value that fits in four digits. */
  function Hex4(n: nat): (r: string)
    requires n < 0x10000
    ensures |r| == 4
  {
    [HexDigit(n / 4096), HexDigit((n / 256) % 16), HexDigit((n / 16) % 16), HexDigit(n % 16)]
  }

  function ParseHex4(s: string): (r: Option<nat>)
    requires |s| == 4
    ensures r.Some? ==> r.value < 0x10000
  {
    var d0 :- HexValue(s[0]);
    var d1 :- HexValue(s[1]);
    var d2 :- HexValue(s[2]);
    var d3 :- HexValue(s[3]);
    Some(d0 * 4096 + d1 * 256 + d2 * 16 + d3)
  }

  lemma Hex4RoundTrip(n: nat)
    requires n < 0x10000
    ensures ParseHex4(Hex4(n)) == Some(n)
  {
    var h := Hex4(n);
    var d0, d1, d2, d3 := n / 4096, (n / 256) % 16, (n / 16) % 16, n % 16;
    HexDigitValue(d0);
    HexDigitValue(d1);
    HexDigitValue(d2);
    HexDigitValue(d3);
    FourDigits(n);
    assert ParseHex4(h) == Some(d0 * 4096 + d1 * 256 + d2 * 16 + d3);
  }

  lemma HexDigitValue(d: nat)
    requires d < 16
    ensures HexValue(HexDigit(d)) == Some(d)
  {
  }

  /** A four-digit number is the sum of its hexadecimal digits' places. */
  lemma FourDigits(n: nat)
    requires n < 0x10000
    ensures n == (n / 4096) * 4096 + ((n / 256) % 16) * 256 + ((n / 16) % 16) * 16 + n % 16
  {
    assert n / 256 == (n / 4096) * 16 + (n / 256) % 16;
    assert n / 16 == (n / 256) * 16 + (n / 16) % 16;
  }

  // ---------------------------------------------------------------- writing

  /** Characters that get the `\uXXXX` form. */
  predicate NeedsUnicodeEscape(c: char) {
    (c as int <= 0x1F && c !in {'\t', '\U{0008}', '\n', '\r', '\U{000C}'})
    || c == '\U{2028}' || c == '\U{2029}'
  }

  function EscapeChar(c: char): (r: string)
    ensures 1 <= |r|
    ensures |r| == 1 <==> r[0] != '\\'
  {
    if c == '"' || c == '\\' || c == '/' then ['\\', c]
    else if c == '\t' then "\\t"
    else if c == '\U{0008}' then "\\b"
    else if c == '\n' then "\\n"
    else if c == '\r' then "\\r"
    else if c == '\U{000C}' then "\\f"
    else if NeedsUnicodeEscape(c) then "\\u" + Hex4(c as int)
    else [c]
  }

  function EscapeAll(s: string): string {
    if |s| == 0 then "" else EscapeChar(s[0]) + EscapeAll(s[1..])
  }

  function Quote(s: string): string {
    "\"" + EscapeAll(s) + "\""
  }

  function MemberText(m: Member): string {
    Quote(m.0) + ":" + Quote(m.1)
  }

  function MemberList(ms: seq<Member>): string {
    if |ms| == 0 then ""
    else if |ms| == 1 then MemberText(ms[0])
    else MemberText(ms[0]) + "," + MemberList(ms[1..])
  }

  /** `JSONObject.toString()` for an object of string members. */
  function Serialize(ms: seq<Member>): string {
    "{" + MemberList(ms) + "}"
  }

  // ---------------------------------------------------------------- reading

  predicate IsScalar(n: int) {
    (0 <= n < 0xD800) || (0xE000 <= n < 0x110000)
  }

  /** The character an escape stands for; `s` starts just after the backslash. */
  function Unescape(s: string): (r: Option<(char, string)>)
    ensures r.Some? ==> |r.value.1| < |s|
  {
    if |s| == 0 then None
    else if s[0] == '"' || s[0] == '\\' || s[0] == '/' then Some((s[0], s[1..]))
    else if s[0] == 't' then Some(('\t', s[1..]))
    else if s[0] == 'b' then Some(('\U{0008}', s[1..]))
    else if s[0] == 'n' then Some(('\n', s[1..]))
    else if s[0] == 'r' then Some(('\r', s[1..]))
    else if s[0] == 'f' then Some(('\U{000C}', s[1..]))
    else if s[0] == 'u' && |s| >= 5 then
      var n :- ParseHex4(s[1..5]);
      if IsScalar(n) then Some((n as char, s[5..])) else None
    else None
  }

  /** The contents of a string literal up to its closing quote, and what
      follows the quote. `s` starts just after the opening quote. */
  function ParseStringBody(s: string): (r: Option<(string, string)>)
    ensures r.Some? ==> |r.value.1| < |s|
    decreases |s|
  {
    if |s| == 0 then None
    else if s[0] == '"' then Some(("", s[1..]))
    else if s[0] == '\\' then
      var (c, rest) :- Unescape(s[1..]);
      var (v, after) :- ParseStringBody(rest);
      Some(([c] + v, after))
    else if s[0] as int <= 0x1F then None
    else
      var (v, after) :- ParseStringBody(s[1..]);
      Some(([s[0]] + v, after))
  }

  function ParseString(s: string): (r: Option<(string, string)>)
    ensures r.Some? ==> |r.value.1| < |s|
  {
    if |s| == 0 || s[0] != '"' then None else ParseStringBody(s[1..])
  }

  function ParseMember(s: string): (r: Option<(Member, string)>)
    ensures r.Some? ==> |r.value.1| < |s|
  {
    var (k, r1) :- ParseString(s);
    if |r1| == 0 || r1[0] != ':' then None
    else
      var (v, r2) :- ParseString(r1[1..]);
      Some(((k, v), r2))
  }

  function ParseMembers(s: string): (r: Option<(seq<Member>, string)>)
    ensures r.Some? ==> |r.value.1| < |s|
    decreases |s|
  {
    var (m, rest) :- ParseMember(s);
    if |rest| > 0 && rest[0] == ',' then
      var (ms, after) :- ParseMembers(rest[1..]);
      Some(([m] + ms, after))
    else Some(([m], rest))
  }

  /** Reads an object of string members; `None` unless the whole text is one. */
  function ParseObject(s: string): Option<seq<Member>> {
    if |s| < 2 || s[0] != '{' then None
    else if s[1] == '}' then (if |s| == 2 then Some([]) else None)
    else
      var (ms, rest) :- ParseMembers(s[1..]);
      if rest == "}" then Some(ms) else None
  }

  /** The value of the first member with the given key. */
  function Lookup(ms: seq<Member>, key: string): (r: Option<string>)
    ensures r.Some? <==> exists i :: 0 <= i < |ms| && ms[i].0 == key
  {
    if |ms| == 0 then None
    else if ms[0].0 == key then Some(ms[0].1)
    else
      var r := Lookup(ms[1..], key);
      assert forall i :: 1 <= i < |ms| ==> ms[i] == ms[1..][i - 1];
      r
  }

  // ---------------------------------------------------------------- round trip

  lemma UnescapeRoundTrip(c: char, rest: string)
    requires |EscapeChar(c)| > 1
    ensures Unescape(EscapeChar(c)[1..] + rest) == Some((c, rest))
  {
    var e := EscapeChar(c);
    var s := e[1..] + rest;
    if NeedsUnicodeEscape(c) && !(c == '"' || c == '\\' || c == '/') {
      var n := c as int;
      assert e == "\\u" + Hex4(n);
      assert s[1..5] == Hex4(n);
      Hex4RoundTrip(n);
      assert s[5..] == rest;
    }
  }

  /** A character written as itself is one the parser takes as itself. */
  lemma PlainChar(c: char)
    requires |EscapeChar(c)| == 1
    ensures EscapeChar(c) == [c]
    ensures c != '"' && c != '\\' && c as int > 0x1F
  {
  }

  lemma BodyStepPlain(c: char, tail: string, v: string, after: string)
    requires c != '"' && c != '\\' && c as int > 0x1F
    requires ParseStringBody(tail) == Some((v, after))
    ensures ParseStringBody([c] + tail) == Some(([c] + v, after))
  {
    assert ([c] + tail)[1..] == tail;
  }

  lemma BodyStepEscaped(s: string, c: char, tail: string, v: string, after: string)
    requires |s| > 0 && s[0] == '\\'
    requires Unescape(s[1..]) == Some((c, tail))
    requires ParseStringBody(tail) == Some((v, after))
    ensures ParseStringBody(s) == Some(([c] + v, after))
  {
  }

  lemma DropHead<T>(e: seq<T>, tail: seq<T>)
    requires |e| > 0
    ensures (e + tail)[0] == e[0] && (e + tail)[1..] == e[1..] + tail
  {
  }

  /** Whatever escape a character got, the parser reads it back as that
      character and carries on with the rest. */
  lemma BodyStep(c: char, tail: string, v: string, after: string)
    requires ParseStringBody(tail) == Some((v, after))
    ensures ParseStringBody(EscapeChar(c) + tail) == Some(([c] + v, after))
  {
    var e := EscapeChar(c);
    if |e| == 1 {
      PlainChar(c);
      BodyStepPlain(c, tail, v, after);
    } else {
      UnescapeRoundTrip(c, tail);
      DropHead(e, tail);
      BodyStepEscaped(e + tail, c, tail, v, after);
    }
  }

  lemma {:induction false} BodyRoundTrip(v: string, rest: string)
    ensures ParseStringBody(EscapeAll(v) + "\"" + rest) == Some((v, rest))
    decreases |v|
  {
    if |v| == 0 {
      assert EscapeAll(v) + "\"" + rest == "\"" + rest;
    } else {
      var tail := EscapeAll(v[1..]) + "\"" + rest;
      assert EscapeAll(v) + "\"" + rest == EscapeChar(v[0]) + tail by {
        assert EscapeAll(v) == EscapeChar(v[0]) + EscapeAll(v[1..]);
      }
      BodyRoundTrip(v[1..], rest);
      BodyStep(v[0], tail, v[1..], rest);
      assert v == [v[0]] + v[1..];
    }
  }

  lemma StringRoundTrip(v: string, rest: string)
    ensures ParseString(Quote(v) + rest) == Some((v, rest))
  {
    var s := Quote(v) + rest;
    assert s[1..] == EscapeAll(v) + "\"" + rest;
    BodyRoundTrip(v, rest);
  }

  lemma MemberRoundTrip(m: Member, rest: string)
    ensures ParseMember(MemberText(m) + rest) == Some((m, rest))
  {
    var r1 := ":" + Quote(m.1) + rest;
    Regroup(Quote(m.0), ":", Quote(m.1), rest);
    assert MemberText(m) + rest == Quote(m.0) + r1;
    StringRoundTrip(m.0, r1);
    StringRoundTrip(m.1, rest);
    MemberStep(MemberText(m) + rest, m.0, r1, m.1, rest);
  }

  lemma MemberStep(s: string, k: string, r1: string, v: string, r2: string)
    requires ParseString(s) == Some((k, r1))
    requires |r1| > 0 && r1[0] == ':'
    requires ParseString(r1[1..]) == Some((v, r2))
    ensures ParseMember(s) == Some(((k, v), r2))
  {
  }

  lemma MembersStep(s: string, m: Member, rest: string, ms: seq<Member>, after: string)
    requires ParseMember(s) == Some((m, rest))
    requires |rest| > 0 && rest[0] == ','
    requires ParseMembers(rest[1..]) == Some((ms, after))
    ensures ParseMembers(s) == Some(([m] + ms, after))
  {
  }

  lemma MembersLast(s: string, m: Member, rest: string)
    requires ParseMember(s) == Some((m, rest))
    requires |rest| == 0 || rest[0] != ','
    ensures ParseMembers(s) == Some(([m], rest))
  {
  }

  lemma MembersSingle(m: Member, rest: string)
    requires |rest| == 0 || rest[0] != ','
    ensures ParseMembers(MemberList([m]) + rest) == Some(([m], rest))
  {
    assert MemberList([m]) == MemberText(m);
    MemberRoundTrip(m, rest);
    MembersLast(MemberList([m]) + rest, m, rest);
  }

  lemma Regroup(a: string, sep: string, b: string, c: string)
    ensures a + sep + b + c == a + (sep + b + c)
    ensures |sep| == 1 ==> (sep + b + c)[1..] == b + c
  {
  }

  lemma MemberListCons(m: Member, ms: seq<Member>)
    requires |ms| >= 1
    ensures MemberList([m] + ms) == MemberText(m) + "," + MemberList(ms)
  {
    assert ([m] + ms)[1..] == ms;
  }

  lemma {:induction false} MembersCons(m: Member, ms: seq<Member>, rest: string)
    requires |ms| >= 1
    requires ParseMembers(MemberList(ms) + rest) == Some((ms, rest))
    ensures ParseMembers(MemberList([m] + ms) + rest) == Some(([m] + ms, rest))
  {
    var s := MemberList([m] + ms) + rest;
    var tail := "," + MemberList(ms) + rest;
    MemberListCons(m, ms);
    Regroup(MemberText(m), ",", MemberList(ms), rest);
    MemberRoundTrip(m, tail);
    Regroup([], ",", MemberList(ms), rest);
    MembersStep(s, m, tail, ms, rest);
  }

  lemma {:induction false} MembersRoundTrip(ms: seq<Member>, rest: string)
    requires |ms| >= 1
    requires |rest| == 0 || rest[0] != ','
    ensures ParseMembers(MemberList(ms) + rest) == Some((ms, rest))
    decreases |ms|
  {
    if |ms| == 1 {
      assert ms == [ms[0]];
      MembersSingle(ms[0], rest);
    } else {
      MembersRoundTrip(ms[1..], rest);
      MembersCons(ms[0], ms[1..], rest);
      assert ms == [ms[0]] + ms[1..];
    }
  }

  /** Reading the text of an object gives back its members, in order. */
  lemma ObjectRoundTrip(ms: seq<Member>)
    ensures ParseObject(Serialize(ms)) == Some(ms)
  {
    if |ms| == 0 {
      assert Serialize(ms) == "{}";
    } else {
      MembersRoundTrip(ms, "}");
      ListStartsWithQuote(ms);
      ObjectOfMembers(MemberList(ms), ms);
    }
  }

  lemma ListStartsWithQuote(ms: seq<Member>)
    requires |ms| >= 1
    ensures |MemberList(ms)| > 0 && MemberList(ms)[0] == '"'
  {
    assert MemberText(ms[0])[0] == '"';
  }

  lemma ObjectOfMembers(body: string, ms: seq<Member>)
    requires |body| > 0 && body[0] != '}'
    requires ParseMembers(body + "}") == Some((ms, "}"))
    ensures ParseObject("{" + body + "}") == Some(ms)
  {
    var s := "{" + body + "}";
    Enclosed('{', body, '}');
    assert ParseMembers(s[1..]) == Some((ms, "}"));
  }

  lemma Enclosed<T>(a: T, body: seq<T>, c: T)
    requires |body| > 0
    ensures |[a] + body + [c]| == |body| + 2
    ensures ([a] + body + [c])[0] == a && ([a] + body + [c])[1] == body[0]
    ensures ([a] + body + [c])[1..] == body + [c]
  {
  }
}
