/** The two `strftime` patterns the GraphSearch client writes dates with,
    and a reader for them that shows nothing of the date is lost. */
module DateFormat {
  import opened Wrappers

  /** The fields of a Python `datetime` that the patterns print. */
  datatype Fields = Fields(year: int, month: int, day: int, hour: int, minute: int, second: int)

  predicate InRange(d: Fields)
  {
    1 <= d.year <= 9999 && 1 <= d.month <= 12 && 1 <= d.day <= 31
    && 0 <= d.hour <= 23 && 0 <= d.minute <= 59 && 0 <= d.second <= 59
  }

  /** A `datetime`: its constructor refuses out-of-range fields, so every one is in range. */
  type DateTime = d: Fields | InRange(d) witness Fields(1970, 1, 1, 0, 0, 0)

  function Pow10(n: nat): (r: nat)
    ensures r > 0
  {
    if n == 0 then 1 else 10 * Pow10(n - 1)
  }

  predicate IsDigit(c: char) { '0' <= c <= '9' }

  predicate AllDigits(s: string) { forall i :: 0 <= i < |s| ==> IsDigit(s[i]) }

  /** The low `width` decimal digits of `n`, zero-padded (`%02d`, `%04d`). */
  function Padded(n: nat, width: nat): (r: string)
    ensures |r| == width && AllDigits(r)
  {
    if width == 0 then "" else Padded(n / 10, width - 1) + [('0' as int + n % 10) as char]
  }

  /** The number a string of decimal digits spells. */
  function DecimalValue(s: string): nat
    requires AllDigits(s)
  {
    if s == [] then 0 else 10 * DecimalValue(s[..|s| - 1]) + (s[|s| - 1] as int - '0' as int)
  }

  /** Reading back a padded number gives the number, when it fits in the width. */
  lemma {:induction false} PaddedRoundTrip(n: nat, width: nat)
    requires n < Pow10(width)
    ensures DecimalValue(Padded(n, width)) == n
  {
    if width > 0 {
      var p := Padded(n, width);
      assert p[..|p| - 1] == Padded(n / 10, width - 1);
      PaddedRoundTrip(n / 10, width - 1);
    }
  }

  /** `%Y-%m-%dT%H:%M:%S`, the part both patterns share (19 characters). */
  function Stamp(d: DateTime): string
  {
    Padded(d.year, 4) + "-" + Padded(d.month, 2) + "-" + Padded(d.day, 2) + "T"
    + Padded(d.hour, 2) + ":" + Padded(d.minute, 2) + ":" + Padded(d.second, 2)
  }

  /** `strftime('%Y-%m-%dT%H:%M:%SZ')`: the document date and a filter's finish date. */
  function FormatSeconds(d: DateTime): (r: string)
    ensures |r| == 20 && r[19] == 'Z'
  {
    Stamp(d) + "Z"
  }

  /** `strftime('%Y-%m-%dT%H:%M:%S.000Z')`: a filter's start date. */
  function FormatMillis(d: DateTime): (r: string)
    ensures |r| == 24 && r[19..] == ".000Z"
  {
    Stamp(d) + ".000Z"
  }

  /** Reads a stamp written by `Stamp`, or fails. */
  function ParseStamp(s: string): Option<Fields>
  {
    if |s| == 19 && s[4] == '-' && s[7] == '-' && s[10] == 'T' && s[13] == ':' && s[16] == ':'
       && AllDigits(s[0..4]) && AllDigits(s[5..7]) && AllDigits(s[8..10])
       && AllDigits(s[11..13]) && AllDigits(s[14..16]) && AllDigits(s[17..19])
    then Some(Fields(DecimalValue(s[0..4]), DecimalValue(s[5..7]), DecimalValue(s[8..10]),
                     DecimalValue(s[11..13]), DecimalValue(s[14..16]), DecimalValue(s[17..19])))
    else None
  }

  /** The value of a digit character. */
  function Digit(c: char): int { c as int - '0' as int }

  /** A two-digit group is digits, and its value digit by digit. */
  lemma TwoDigits(c: char, d: char)
    requires IsDigit(c) && IsDigit(d)
    ensures AllDigits([c, d]) && DecimalValue([c, d]) == 10 * Digit(c) + Digit(d)
  {
    assert [c, d][..1] == [c] && [c][..0] == [];
    assert DecimalValue([c]) == Digit(c);
  }

  /** A four-digit group is digits, and its value digit by digit. */
  lemma FourDigits(a: char, b: char, c: char, d: char)
    requires IsDigit(a) && IsDigit(b) && IsDigit(c) && IsDigit(d)
    ensures AllDigits([a, b, c, d])
    ensures DecimalValue([a, b, c, d]) == 1000 * Digit(a) + 100 * Digit(b) + 10 * Digit(c) + Digit(d)
  {
    TwoDigits(a, b);
    assert [a, b, c][..2] == [a, b];
    assert DecimalValue([a, b, c]) == 10 * DecimalValue([a, b]) + Digit(c);
    assert [a, b, c, d][..3] == [a, b, c];
  }

  /** A well-formed stamp reads digit group by digit group. */
  lemma ParseStampDigits(t: string)
    requires |t| == 19 && t[4] == '-' && t[7] == '-' && t[10] == 'T' && t[13] == ':' && t[16] == ':'
    requires IsDigit(t[0]) && IsDigit(t[1]) && IsDigit(t[2]) && IsDigit(t[3])
    requires IsDigit(t[5]) && IsDigit(t[6]) && IsDigit(t[8]) && IsDigit(t[9])
    requires IsDigit(t[11]) && IsDigit(t[12]) && IsDigit(t[14]) && IsDigit(t[15])
    requires IsDigit(t[17]) && IsDigit(t[18])
    ensures ParseStamp(t) == Some(Fields(1000 * Digit(t[0]) + 100 * Digit(t[1]) + 10 * Digit(t[2]) + Digit(t[3]),
                                         10 * Digit(t[5]) + Digit(t[6]), 10 * Digit(t[8]) + Digit(t[9]),
                                         10 * Digit(t[11]) + Digit(t[12]), 10 * Digit(t[14]) + Digit(t[15]),
                                         10 * Digit(t[17]) + Digit(t[18])))
  {
    assert t[0..4] == [t[0], t[1], t[2], t[3]];
    assert t[5..7] == [t[5], t[6]] && t[8..10] == [t[8], t[9]] && t[11..13] == [t[11], t[12]];
    assert t[14..16] == [t[14], t[15]] && t[17..19] == [t[17], t[18]];
    FourDigits(t[0], t[1], t[2], t[3]);
    TwoDigits(t[5], t[6]);
    TwoDigits(t[8], t[9]);
    TwoDigits(t[11], t[12]);
    TwoDigits(t[14], t[15]);
    TwoDigits(t[17], t[18]);
  }

  /** Reads a date written with the seconds pattern. */
  function ParseSeconds(s: string): Option<Fields>
  {
    if |s| == 20 && s[19] == 'Z' then ParseStamp(s[..19]) else None
  }

  /** Reads a date written with the milliseconds pattern. */
  function ParseMillis(s: string): Option<Fields>
  {
    if |s| == 24 && s[19..] == ".000Z" then ParseStamp(s[..19]) else None
  }

  lemma StampRoundTrip(d: DateTime)
    ensures ParseStamp(Stamp(d)) == Some(d)
  {
    var s := Stamp(d);
    assert s[0..4] == Padded(d.year, 4);
    assert s[5..7] == Padded(d.month, 2);
    assert s[8..10] == Padded(d.day, 2);
    assert s[11..13] == Padded(d.hour, 2);
    assert s[14..16] == Padded(d.minute, 2);
    assert s[17..19] == Padded(d.second, 2);
    PaddedRoundTrip(d.year, 4);
    PaddedRoundTrip(d.month, 2);
    PaddedRoundTrip(d.day, 2);
    PaddedRoundTrip(d.hour, 2);
    PaddedRoundTrip(d.minute, 2);
    PaddedRoundTrip(d.second, 2);
  }

  /** The seconds pattern loses nothing: reading it back gives the date. */
  lemma FormatSecondsRoundTrip(d: DateTime)
    ensures ParseSeconds(FormatSeconds(d)) == Some(d)
  {
    assert FormatSeconds(d)[..19] == Stamp(d);
    StampRoundTrip(d);
  }

  /** The milliseconds pattern loses nothing: reading it back gives the date. */
  lemma FormatMillisRoundTrip(d: DateTime)
    ensures ParseMillis(FormatMillis(d)) == Some(d)
  {
    assert FormatMillis(d)[..19] == Stamp(d);
    StampRoundTrip(d);
  }
}
