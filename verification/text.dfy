/** Character classes and small string functions shared by the naming, clock,
    metadata and reporting modules: Kotlin's notion of a blank string, decimal
    rendering of counters and indices (with its parser), zero padding as date
    formatters do it, and the "text before the first separator" split. */
module Text {

  /** Kotlin's `Char.isWhitespace` on the JVM: `Character.isWhitespace(c) ||
      Character.isSpaceChar(c)`, i.e. the ASCII controls TAB, LF, VT, FF, CR
      and U+001C..U+001F together with every space, line and paragraph
      separator of Unicode (categories Zs, Zl, Zp). */
  predicate IsWhitespace(c: char) {
    || c == '\t' || c == '\n' || c == '\U{000B}' || c == '\U{000C}' || c == '\r'
    || ('\U{001C}' <= c <= '\U{001F}')
    || c == ' ' || c == '\U{00A0}' || c == '\U{1680}'
    || ('\U{2000}' <= c <= '\U{200A}')
    || c == '\U{2028}' || c == '\U{2029}' || c == '\U{202F}' || c == '\U{205F}'
    || c == '\U{3000}'
  }

  /** Kotlin's `CharSequence.isBlank()`: empty, or whitespace only. */
  predicate IsBlank(s: string) {
    forall i :: 0 <= i < |s| ==> IsWhitespace(s[i])
  }

  predicate IsDigit(c: char) {
    '0' <= c <= '9'
  }

  predicate AllDigits(s: string) {
    forall i :: 0 <= i < |s| ==> IsDigit(s[i])
  }

  function DigitChar(d: nat): (c: char)
    requires d < 10
    ensures IsDigit(c)
    ensures c as int - '0' as int == d
  {
    (d + '0' as int) as char
  }

  function DigitValue(c: char): nat
    requires IsDigit(c)
  {
    c as int - '0' as int
  }

  /** The decimal rendering of a natural number, as Kotlin's string templates
      print an `Int` that is not negative: most significant digit first, no
      leading zeros. */
  function Decimal(n: nat): (r: string)
    ensures 1 <= |r|
    ensures AllDigits(r)
    ensures n < 10 <==> |r| == 1
    decreases n
  {
    if n < 10 then [DigitChar(n)] else Decimal(n / 10) + [DigitChar(n % 10)]
  }

  /** Reads a string of decimal digits back as a number (leading zeros allowed). */
  function ParseNat(s: string): nat
    requires AllDigits(s)
  {
    if |s| == 0 then 0 else ParseNat(s[..|s| - 1]) * 10 + DigitValue(s[|s| - 1])
  }

  /** Reading back what `Decimal` printed gives the number again. */
  lemma {:induction false} DecimalRoundTrip(n: nat)
    ensures ParseNat(Decimal(n)) == n
    decreases n
  {
    if n >= 10 {
      var d := Decimal(n / 10);
      assert (d + [DigitChar(n % 10)])[..|d|] == d;
      DecimalRoundTrip(n / 10);
    }
  }

  /** Different numbers print differently. */
  lemma DecimalInjective(a: nat, b: nat)
    requires Decimal(a) == Decimal(b)
    ensures a == b
  {
    DecimalRoundTrip(a);
    DecimalRoundTrip(b);
  }

  function Zeros(k: nat): (r: string)
    ensures |r| == k
    ensures forall i :: 0 <= i < k ==> r[i] == '0'
  {
    if k == 0 then "" else "0" + Zeros(k - 1)
  }

  /** A number printed with at least `width` digits, padded on the left with
      '0', as a `SimpleDateFormat` field of that width prints it. */
  function ZeroPad(n: nat, width: nat): (r: string)
    ensures |r| == if |Decimal(n)| >= width then |Decimal(n)| else width
    ensures AllDigits(r)
  {
    var d := Decimal(n);
    if |d| >= width then d else Zeros(width - |d|) + d
  }

  lemma {:induction false} LeadingZerosIgnored(k: nat, s: string)
    requires AllDigits(s)
    ensures AllDigits(Zeros(k) + s)
    ensures ParseNat(Zeros(k) + s) == ParseNat(s)
    decreases |s|
  {
    assert AllDigits(Zeros(k) + s);
    if |s| == 0 {
      assert Zeros(k) + s == Zeros(k);
      ZerosParseToZero(k);
    } else {
      var t := Zeros(k) + s;
      assert t[..|t| - 1] == Zeros(k) + s[..|s| - 1];
      LeadingZerosIgnored(k, s[..|s| - 1]);
    }
  }

  lemma {:induction false} ZerosParseToZero(k: nat)
    ensures ParseNat(Zeros(k)) == 0
    decreases k
  {
    if k > 0 {
      assert Zeros(k)[..k - 1] == Zeros(k - 1);
      ZerosParseToZero(k - 1);
    }
  }

  /** Padding loses nothing: the padded digits still read back as `n`. */
  lemma ZeroPadRoundTrip(n: nat, width: nat)
    ensures ParseNat(ZeroPad(n, width)) == n
  {
    var d := Decimal(n);
    assert ParseNat(d) == n by {
      DecimalRoundTrip(n);
    }
    if |d| < width {
      var k := width - |d|;
      assert ZeroPad(n, width) == Zeros(k) + d;
      LeadingZerosIgnored(k, d);
    } else {
      assert ZeroPad(n, width) == d;
    }
  }

  /** The text before the first occurrence of `sep`, or all of `s` when `sep`
      does not occur: the first element of Kotlin's `s.split(sep)`, which is
      never missing (splitting "" yields [""]). */
  function BeforeFirst(s: string, sep: char): (r: string)
    ensures r <= s
    ensures sep !in r
    ensures |r| < |s| ==> s[|r|] == sep
  {
    if |s| == 0 then ""
    else if s[0] == sep then ""
    else [s[0]] + BeforeFirst(s[1..], sep)
  }

  /** `s.split(sep)` for a one-character separator: the pieces between
      separators, in order, including empty ones. */
  function Split(s: string, sep: char): (r: seq<string>)
    ensures |r| >= 1
    ensures r[0] == BeforeFirst(s, sep)
    ensures forall i :: 0 <= i < |r| ==> sep !in r[i]
    decreases |s|
  {
    var head := BeforeFirst(s, sep);
    if |head| == |s| then [s] else [head] + Split(s[|head| + 1..], sep)
  }

  /** Splitting and re-joining with the separator gives the text back. */
  function Join(pieces: seq<string>, sep: char): string
    requires |pieces| >= 1
  {
    if |pieces| == 1 then pieces[0] else pieces[0] + [sep] + Join(pieces[1..], sep)
  }

  lemma {:induction false} SplitJoin(s: string, sep: char)
    ensures Join(Split(s, sep), sep) == s
    decreases |s|
  {
    var head := BeforeFirst(s, sep);
    if |head| < |s| {
      SplitJoin(s[|head| + 1..], sep);
      assert s == head + [sep] + s[|head| + 1..];
    }
  }

  /** A piece free of the separator, followed by the separator, is split off
      as the first piece. */
  lemma SplitCons(a: string, sep: char, b: string)
    requires sep !in a
    ensures Split(a + [sep] + b, sep) == [a] + Split(b, sep)
  {
    var s := a + [sep] + b;
    BeforeFirstOfCons(a, sep, b);
    assert s[|a| + 1..] == b;
  }

  lemma {:induction false} BeforeFirstOfCons(a: string, sep: char, b: string)
    requires sep !in a
    ensures BeforeFirst(a + [sep] + b, sep) == a
    decreases |a|
  {
    if |a| > 0 {
      assert (a + [sep] + b)[1..] == a[1..] + [sep] + b;
      BeforeFirstOfCons(a[1..], sep, b);
    }
  }

  /** A separator-free piece after the last separator is split off as the
      last piece. */
  lemma {:induction false} SplitSnoc(x: string, sep: char, y: string)
    requires sep !in y
    ensures Split(x + [sep] + y, sep) == Split(x, sep) + [y]
    decreases |x|
  {
    var h := BeforeFirst(x, sep);
    if |h| == |x| {
      assert h == x;
      SplitCons(x, sep, y);
      SplitNoSeparator(y, sep);
    } else {
      var x' := x[|h| + 1..];
      assert x == h + [sep] + x';
      assert x + [sep] + y == h + [sep] + (x' + [sep] + y);
      SplitCons(h, sep, x' + [sep] + y);
      SplitSnoc(x', sep, y);
    }
  }

  lemma SplitNoSeparator(a: string, sep: char)
    requires sep !in a
    ensures Split(a, sep) == [a]
  {
  }
}
