/** The two wall-clock renderings the app uses. The clock itself is an input:
    an `Instant` is the broken-down local time a `SimpleDateFormat` would
    format, and the two patterns below are the ones the settings screen and
    the per-image save use. */
module Clock {
  import opened Text

  datatype Instant = Instant(year: nat, month: nat, day: nat, hour: nat, minute: nat, second: nat)

  /** A calendar-shaped instant with a four-digit year (the only years for
      which the rendered width is fixed). */
  predicate Valid(t: Instant) {
    && t.year <= 9999
    && 1 <= t.month <= 12 && 1 <= t.day <= 31
    && t.hour < 24 && t.minute < 60 && t.second < 60
  }

  /** `yyyy-MM-dd`, the date component of the session timestamp. */
  function DateStamp(t: Instant): string {
    ZeroPad(t.year, 4) + "-" + ZeroPad(t.month, 2) + "-" + ZeroPad(t.day, 2)
  }

  /** `yyyy-MM-dd HH:mm`, the minute-precision session timestamp shown on the
      settings screen and written into the metadata. */
  function MinuteStamp(t: Instant): string {
    DateStamp(t) + " " + ZeroPad(t.hour, 2) + ":" + ZeroPad(t.minute, 2)
  }

  /** `yyyyMMdd-HHmmss`, the second-precision stamp that goes into file names. */
  function FileStamp(t: Instant): string {
    ZeroPad(t.year, 4) + ZeroPad(t.month, 2) + ZeroPad(t.day, 2) + "-"
      + ZeroPad(t.hour, 2) + ZeroPad(t.minute, 2) + ZeroPad(t.second, 2)
  }

  /** The shape of a `yyyy-MM-dd HH:mm` string: sixteen characters, digits
      everywhere except the two dashes, the single space and the colon. */
  predicate IsMinuteStamp(s: string) {
    && |s| == 16
    && s[4] == '-' && s[7] == '-' && s[10] == ' ' && s[13] == ':'
    && forall i :: 0 <= i < 16 && i !in {4, 7, 10, 13} ==> IsDigit(s[i])
  }

  lemma PadWidth(n: nat, width: nat)
    requires 1 <= width
    requires n < if width == 2 then 100 else 10000
    requires width == 2 || width == 4
    ensures |ZeroPad(n, width)| == width
  {
    if n >= 10 {
      assert |Decimal(n)| == |Decimal(n / 10)| + 1;
      if n / 10 >= 10 {
        assert |Decimal(n / 10)| == |Decimal(n / 100)| + 1;
        if n / 100 >= 10 {
          assert |Decimal(n / 100)| == |Decimal(n / 1000)| + 1;
        }
      }
    }
  }

  /** A valid instant renders to a well-formed minute stamp. */
  lemma MinuteStampIsWellFormed(t: Instant)
    requires Valid(t)
    ensures IsMinuteStamp(MinuteStamp(t))
  {
    PadWidth(t.year, 4);
    PadWidth(t.month, 2);
    PadWidth(t.day, 2);
    PadWidth(t.hour, 2);
    PadWidth(t.minute, 2);
    var y, mo, d, h, mi := ZeroPad(t.year, 4), ZeroPad(t.month, 2), ZeroPad(t.day, 2), ZeroPad(t.hour, 2), ZeroPad(t.minute, 2);
    var s := MinuteStamp(t);
    assert s == y + "-" + mo + "-" + d + " " + h + ":" + mi;
    forall i | 0 <= i < 16 && i !in {4, 7, 10, 13}
      ensures IsDigit(s[i])
    {
      if i < 4 { assert s[i] == y[i]; }
      else if i < 7 { assert s[i] == mo[i - 5]; }
      else if i < 10 { assert s[i] == d[i - 8]; }
      else if i < 13 { assert s[i] == h[i - 11]; }
      else { assert s[i] == mi[i - 14]; }
    }
  }

  /** The date component of a well-formed minute stamp is its first ten
      characters: the text before its only space. */
  lemma DateOfMinuteStamp(s: string)
    requires IsMinuteStamp(s)
    ensures BeforeFirst(s, ' ') == s[..10]
    ensures |BeforeFirst(s, ' ')| == 10
  {
    var r := BeforeFirst(s, ' ');
    assert forall i :: 0 <= i < 10 ==> s[i] != ' ';
    assert s[10] == ' ';
  }

  /** For a valid instant the date component of its minute stamp is exactly
      its `yyyy-MM-dd` rendering: the hour and minute never leak into it. */
  lemma DateOfInstant(t: Instant)
    requires Valid(t)
    ensures BeforeFirst(MinuteStamp(t), ' ') == DateStamp(t)
  {
    MinuteStampIsWellFormed(t);
    DateOfMinuteStamp(MinuteStamp(t));
    PadWidth(t.year, 4);
    PadWidth(t.month, 2);
    PadWidth(t.day, 2);
    assert |DateStamp(t)| == 10;
    assert MinuteStamp(t)[..10] == DateStamp(t);
  }

  /** A file stamp holds digits and one dash only, so it can never contain the
      '_' that separates the fields of a file name, nor a '/'. */
  lemma FileStampCharacters(t: Instant)
    ensures forall i :: 0 <= i < |FileStamp(t)| ==> IsDigit(FileStamp(t)[i]) || FileStamp(t)[i] == '-'
  {
    var a := ZeroPad(t.year, 4) + ZeroPad(t.month, 2) + ZeroPad(t.day, 2);
    var b := ZeroPad(t.hour, 2) + ZeroPad(t.minute, 2) + ZeroPad(t.second, 2);
    assert AllDigits(a);
    assert AllDigits(b);
    assert FileStamp(t) == a + "-" + b;
  }
}
