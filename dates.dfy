/**
 * Calendar dates and the two ISO 8601 complete calendar date forms the tools
 * print (ISO 8601:2004 section 4.1.2.2): basic `YYYYMMDD`, from
 * `strftime('%Y%m%d')`, and extended `YYYY-MM-DD`, from `isoformat()`.
 */
module Dates {
  import opened Wrappers

  datatype Date = Date(year: nat, month: nat, day: nat)

  /** The range of a Python `date`; days are bounded by 31, month lengths are not checked. */
  predicate Valid(d: Date)
  {
    1 <= d.year <= 9999 && 1 <= d.month <= 12 && 1 <= d.day <= 31
  }

  predicate IsDigit(c: char)
  {
    '0' <= c <= '9'
  }

  predicate AllDigits(s: string)
  {
    forall i :: 0 <= i < |s| ==> IsDigit(s[i])
  }

  function DigitChar(n: nat): (c: char)
    requires n < 10
    ensures IsDigit(c)
  {
    ('0' as int + n) as char
  }

  function Pow10(w: nat): (p: nat)
    ensures p >= 1
  {
    if w == 0 then 1 else 10 * Pow10(w - 1)
  }

  /** The last `width` decimal digits of `n`, zero padded on the left. */
  function Digits(n: nat, width: nat): (s: string)
    ensures |s| == width
  {
    if width == 0 then "" else Digits(n / 10, width - 1) + [DigitChar(n % 10)]
  }

  lemma {:induction false} DigitsAreDigits(n: nat, width: nat)
    ensures AllDigits(Digits(n, width))
  {
    if width > 0 {
      DigitsAreDigits(n / 10, width - 1);
    }
  }

  /** The number a string of decimal digits spells. */
  function DigitsValue(s: string): nat
    requires AllDigits(s)
  {
    if s == [] then 0 else 10 * DigitsValue(s[..|s| - 1]) + (s[|s| - 1] as int - '0' as int)
  }

  /** Reading back a zero-padded number gives the number, when it fits the width. */
  lemma {:induction false} DigitsRoundTrip(n: nat, width: nat)
    requires n < Pow10(width)
    ensures AllDigits(Digits(n, width)) && DigitsValue(Digits(n, width)) == n
  {
    DigitsAreDigits(n, width);
    if width > 0 {
      DigitsRoundTrip(n / 10, width - 1);
      DigitsAreDigits(n / 10, width - 1);
      var s := Digits(n, width);
      assert s[..|s| - 1] == Digits(n / 10, width - 1);
    }
  }

  /** `d.strftime('%Y%m%d')`, with the year padded to four digits. */
  function Basic(d: Date): (s: string)
    ensures |s| == 8
  {
    Digits(d.year, 4) + Digits(d.month, 2) + Digits(d.day, 2)
  }

  /** `d.isoformat()` */
  function Extended(d: Date): (s: string)
    ensures |s| == 10
  {
    Digits(d.year, 4) + "-" + Digits(d.month, 2) + "-" + Digits(d.day, 2)
  }

  /** Read a basic-format date back; `None` for anything that is not one. */
  function ParseBasic(s: string): Option<Date>
  {
    if |s| == 8 && AllDigits(s) then
      var d := Date(DigitsValue(s[..4]), DigitsValue(s[4..6]), DigitsValue(s[6..]));
      if Valid(d) then Some(d) else None
    else None
  }

  /** The basic form loses nothing: every valid date is read back from it. */
  lemma BasicRoundTrip(d: Date)
    requires Valid(d)
    ensures ParseBasic(Basic(d)) == Some(d)
  {
    var s := Basic(d);
    DigitsAreDigits(d.year, 4);
    DigitsAreDigits(d.month, 2);
    DigitsAreDigits(d.day, 2);
    assert AllDigits(s);
    assert s[..4] == Digits(d.year, 4);
    assert s[4..6] == Digits(d.month, 2);
    assert s[6..] == Digits(d.day, 2);
    DigitsRoundTrip(d.year, 4);
    DigitsRoundTrip(d.month, 2);
    DigitsRoundTrip(d.day, 2);
  }

  /** Different valid dates print differently. */
  lemma BasicInjective(d1: Date, d2: Date)
    requires Valid(d1) && Valid(d2)
    requires Basic(d1) == Basic(d2)
    ensures d1 == d2
  {
    BasicRoundTrip(d1);
    BasicRoundTrip(d2);
  }

  /** Read an extended-format date back; `None` for anything that is not one. */
  function ParseExtended(s: string): Option<Date>
  {
    if |s| == 10 && s[4] == '-' && s[7] == '-' then ParseBasic(s[..4] + s[5..7] + s[8..]) else None
  }

  /** The extended form loses nothing either: every valid date is read back from it. */
  lemma ExtendedRoundTrip(d: Date)
    requires Valid(d)
    ensures ParseExtended(Extended(d)) == Some(d)
  {
    var e := Extended(d);
    ExtendedIsBasicWithSeparators(d);
    assert e[4] == '-' && e[7] == '-';
    assert e[..4] + e[5..7] + e[8..] == Basic(d);
    BasicRoundTrip(d);
  }

  /** The extended form is the basic form with `-` between year, month and day. */
  lemma ExtendedIsBasicWithSeparators(d: Date)
    ensures Extended(d) == Basic(d)[..4] + "-" + Basic(d)[4..6] + "-" + Basic(d)[6..]
  {
    var b := Basic(d);
    assert b[..4] == Digits(d.year, 4);
    assert b[4..6] == Digits(d.month, 2);
    assert b[6..] == Digits(d.day, 2);
  }
}
