/** The timestamp step of the extractor: the table from digit count to `strptime`
    format, and `datetime.strptime` itself on the all-digit strings that step
    hands it. On such a string the format's regular expression prefers two-digit
    fields, and any field it has to shorten leaves unconverted digits over, so the
    parse succeeds exactly when every field has two digits (four for the year)
    within its calendar range; `datetime` then refuses a day past the end of its
    month and a second of 60 or 61. */
module Timestamps {
  import opened Wrappers
  import opened Text

  /** The formats of the length table: `%Y%m%d`, `%Y%m%d%H%M`, `%Y%m%d%H%M%S`. */
  datatype TimestampFormat = YearMonthDay | YearMonthDayHourMinute | YearMonthDayHourMinuteSecond

  /** The number of digits a format reads. */
  function Width(f: TimestampFormat): nat {
    match f
    case YearMonthDay => 8
    case YearMonthDayHourMinute => 12
    case YearMonthDayHourMinuteSecond => 14
  }

  /** `d_dt_fmt[n]`: the format for a digit count; only 8, 12 and 14 have one. */
  function FormatFor(n: nat): (f: Option<TimestampFormat>)
    ensures f.Some? <==> n == 8 || n == 12 || n == 14
    ensures f.Some? ==> Width(f.value) == n
  {
    if n == 8 then Some(YearMonthDay)
    else if n == 12 then Some(YearMonthDayHourMinute)
    else if n == 14 then Some(YearMonthDayHourMinuteSecond)
    else None
  }

  /** Each format is the one the table gives for its own width. */
  lemma FormatForWidth(f: TimestampFormat)
    ensures FormatFor(Width(f)) == Some(f)
  {
  }

  datatype DateTime = DateTime(year: nat, month: nat, day: nat, hour: nat, minute: nat, second: nat)

  predicate IsLeapYear(year: nat) {
    year % 4 == 0 && (year % 100 != 0 || year % 400 == 0)
  }

  function DaysInMonth(year: nat, month: nat): nat
    requires 1 <= month <= 12
  {
    if month == 2 then (if IsLeapYear(year) then 29 else 28)
    else if month == 4 || month == 6 || month == 9 || month == 11 then 30
    else 31
  }

  /** What `datetime` accepts. */
  predicate IsValid(t: DateTime) {
    && 1 <= t.year <= 9999
    && 1 <= t.month <= 12
    && 1 <= t.day <= DaysInMonth(t.year, t.month)
    && t.hour < 24 && t.minute < 60 && t.second < 60
  }

  /** The fields a format does not read are zero. */
  predicate FitsFormat(t: DateTime, f: TimestampFormat) {
    && (f == YearMonthDay ==> t.hour == 0 && t.minute == 0)
    && (f != YearMonthDayHourMinuteSecond ==> t.second == 0)
  }

  function DigitValue(c: char): (n: nat)
    requires IsDigit(c)
    ensures n < 10
  {
    c as int - '0' as int
  }

  function DigitChar(n: nat): (c: char)
    requires n < 10
    ensures IsDigit(c) && DigitValue(c) == n
  {
    ('0' as int + n) as char
  }

  /** The two-digit number at `i`. */
  function TwoAt(s: string, i: nat): (n: nat)
    requires i + 2 <= |s| && IsDigit(s[i]) && IsDigit(s[i + 1])
    ensures n < 100
  {
    10 * DigitValue(s[i]) + DigitValue(s[i + 1])
  }

  /** `n` written with two digits, zero-padded. */
  function Two(n: nat): (s: string)
    requires n < 100
    ensures |s| == 2 && AllDigits(s) && TwoAt(s, 0) == n
  {
    var s := [DigitChar(n / 10), DigitChar(n % 10)];
    assert IsDigit(s[0]) && IsDigit(s[1]);
    s
  }

  /** The `YYYYMMDD` digits of a timestamp. */
  function DateDigits(t: DateTime): (s: string)
    requires IsValid(t)
    ensures |s| == 8 && AllDigits(s)
  {
    Two(t.year / 100) + Two(t.year % 100) + Two(t.month) + Two(t.day)
  }

  /** The time digits a format writes after the date: none, `HHMM` or `HHMMSS`. */
  function TimeDigits(t: DateTime, f: TimestampFormat): (s: string)
    requires IsValid(t)
    ensures |s| == Width(f) - 8 && AllDigits(s)
  {
    match f
    case YearMonthDay => []
    case YearMonthDayHourMinute => Two(t.hour) + Two(t.minute)
    case YearMonthDayHourMinuteSecond => Two(t.hour) + Two(t.minute) + Two(t.second)
  }

  /** `strftime` with the format: the digit string a timestamp is written as. */
  function Strftime(t: DateTime, f: TimestampFormat): (s: string)
    requires IsValid(t)
    ensures |s| == Width(f) && AllDigits(s)
  {
    DateDigits(t) + TimeDigits(t, f)
  }

  /** The fields read from an all-digit string of the format's width. */
  function Fields(s: string, f: TimestampFormat): DateTime
    requires |s| == Width(f) && AllDigits(s)
  {
    DateTime(
      100 * TwoAt(s, 0) + TwoAt(s, 2), TwoAt(s, 4), TwoAt(s, 6),
      if f == YearMonthDay then 0 else TwoAt(s, 8),
      if f == YearMonthDay then 0 else TwoAt(s, 10),
      if f == YearMonthDayHourMinuteSecond then TwoAt(s, 12) else 0)
  }

  /** Two digits read and written back are the same two characters. */
  lemma TwoOfTwoAt(s: string, i: nat)
    requires i + 2 <= |s| && IsDigit(s[i]) && IsDigit(s[i + 1])
    ensures Two(TwoAt(s, i)) == s[i..i + 2]
  {
    var n := TwoAt(s, i);
    assert n / 10 == DigitValue(s[i]) && n % 10 == DigitValue(s[i + 1]);
  }

  /** `datetime.strptime(s, format)`, `None` where it raises `ValueError`. What it
      returns is a valid timestamp that the same format writes back as `s`. */
  function Strptime(s: string, f: TimestampFormat): (r: Option<DateTime>)
    ensures r.Some? ==> IsValid(r.value) && FitsFormat(r.value, f) && Strftime(r.value, f) == s
  {
    if |s| != Width(f) || !AllDigits(s) then None
    else
      var t := Fields(s, f);
      if !IsValid(t) then None
      else
        StrftimeOfFields(s, f);
        Some(t)
  }

  lemma StrftimeOfFields(s: string, f: TimestampFormat)
    requires |s| == Width(f) && AllDigits(s) && IsValid(Fields(s, f))
    ensures Strftime(Fields(s, f), f) == s
  {
    var t := Fields(s, f);
    assert IsDigit(s[0]) && IsDigit(s[1]) && IsDigit(s[2]) && IsDigit(s[3]);
    assert t.year / 100 == TwoAt(s, 0) && t.year % 100 == TwoAt(s, 2);
    TwoOfTwoAt(s, 0);
    TwoOfTwoAt(s, 2);
    TwoOfTwoAt(s, 4);
    TwoOfTwoAt(s, 6);
    assert DateDigits(t) == s[..8] by {
      assert s[0..2] + s[2..4] + s[4..6] + s[6..8] == s[..8];
    }
    if f == YearMonthDay {
      assert s[..8] == s;
    } else {
      TwoOfTwoAt(s, 8);
      TwoOfTwoAt(s, 10);
      if f == YearMonthDayHourMinuteSecond {
        TwoOfTwoAt(s, 12);
        assert TimeDigits(t, f) == s[8..14] by {
          assert s[8..10] + s[10..12] + s[12..14] == s[8..14];
        }
      } else {
        assert TimeDigits(t, f) == s[8..12] by {
          assert s[8..10] + s[10..12] == s[8..12];
        }
      }
      assert s[..8] + s[8..] == s;
    }
  }

  /** Writing a valid timestamp and parsing it back with the same format gives the
      timestamp again. */
  lemma StrptimeOfStrftime(t: DateTime, f: TimestampFormat)
    requires IsValid(t) && FitsFormat(t, f)
    ensures Strptime(Strftime(t, f), f) == Some(t)
  {
    var s := Strftime(t, f);
    assert AllDigits(s) by {
      forall k | 0 <= k < |s| ensures IsDigit(s[k]) {
        assert IsDigit(s[k]);
      }
    }
    assert Fields(s, f) == t;
  }
}
