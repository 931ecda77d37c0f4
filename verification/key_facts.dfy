/** What the extractor makes of keys that carry a compact timestamp, and where
    the pattern as written departs from the intended reading. The extractor's
    documentation names `DYYYYMMDD` and `YYYYMMDD`; the `HHMM` or `HHMMSS` time
    after the date, with an optional `T` between, is the form the date pattern
    is built for. */
module KeyFacts {
  import opened Wrappers
  import opened Text
  import opened DatePattern
  import opened Timestamps
  import opened Extraction

  /** A timestamp's `YYYYMMDD` as a date token. */
  function CompactDate(t: DateTime): DateToken
    requires IsValid(t)
  {
    DateToken(Two(t.year / 100) + Two(t.year % 100), [], Two(t.month), [], Two(t.day))
  }

  /** A timestamp's `HHMM` or `HHMMSS` as a time token. */
  function CompactTime(t: DateTime, f: TimestampFormat): TimeToken
    requires IsValid(t)
  {
    TimeToken(Two(t.hour), [], Two(t.minute), if f == YearMonthDayHourMinuteSecond then Two(t.second) else [])
  }

  lemma CompactDateFacts(t: DateTime)
    requires IsValid(t) && 1900 <= t.year <= 2099
    ensures CompactDate(t).WellFormed() && CompactDate(t).Text() == DateDigits(t)
  {
    var d := CompactDate(t);
    var century := Two(t.year / 100);
    assert t.year / 100 == 19 || t.year / 100 == 20;
    assert century[0] == DigitChar(t.year / 100 / 10) && century[1] == DigitChar(t.year / 100 % 10);
    assert d.year == century + Two(t.year % 100);
    assert d.year[2] == Two(t.year % 100)[0] && d.year[3] == Two(t.year % 100)[1];
    assert Two(t.month)[0] == DigitChar(t.month / 10);
    assert Two(t.day)[0] == DigitChar(t.day / 10);
  }

  lemma CompactTimeFacts(t: DateTime, f: TimestampFormat)
    requires IsValid(t) && f != YearMonthDay
    ensures CompactTime(t, f).WellFormed() && CompactTime(t, f).Text() == TimeDigits(t, f)
  {
    var c := CompactTime(t, f);
    assert Two(t.hour)[0] == DigitChar(t.hour / 10);
    assert Two(t.minute)[0] == DigitChar(t.minute / 10);
    if f == YearMonthDayHourMinuteSecond {
      assert Two(t.second)[0] == DigitChar(t.second / 10);
    }
  }

  /** A key of the intended form: text, the date, for the longer formats `mark`
      (`T`, `t` or nothing) and the time, then text. */
  function CompactKey(prefix: string, t: DateTime, f: TimestampFormat, mark: string, suffix: string): string
    requires IsValid(t)
  {
    prefix + DateDigits(t) + (if f == YearMonthDay then [] else mark + TimeDigits(t, f)) + suffix
  }

  /** Text before the date: no digit, so no date can start in it, and no newline. */
  predicate PlainPrefix(prefix: string) {
    forall k :: 0 <= k < |prefix| ==> !IsDigit(prefix[k]) && prefix[k] != '\n'
  }

  /** Text after the timestamp: no newline, and it does not go on with a digit or
      with a `T` that could start a time. */
  predicate PlainSuffix(suffix: string) {
    && (forall k :: 0 <= k < |suffix| ==> suffix[k] != '\n')
    && (|suffix| > 0 ==> !IsDigit(suffix[0]) && LowerChar(suffix[0]) != 't')
  }

  /** With no digit and no newline before it, the compact date at `|p|` is the
      first date token of the first line. */
  lemma CompactDateIsFirst(s: string, p: string, t: DateTime)
    requires IsValid(t) && 1900 <= t.year <= 2099
    requires forall k :: 0 <= k < |p| ==> !IsDigit(p[k]) && p[k] != '\n'
    requires |p| + 8 <= |s| && s[..|p|] == p && s[|p|..|p| + 8] == DateDigits(t)
    ensures DateTokenAt(s, |p|) == Some(CompactDate(t))
    ensures FirstDateStart(s, LineEnd(s, 0)) == Some(|p|)
  {
    var i := |p|;
    CompactDateFacts(t);
    assert StartsAt(s, i, CompactDate(t).Text());
    DateTokenUnique(s, i, CompactDate(t));
    forall k | 0 <= k < i ensures !DateStartsAt(s, k) && s[k] != '\n' {
      assert s[..i][k] == s[k];
      if DateStartsAt(s, k) {
        DateStartNeedsDigit(s, k);
      }
    }
    LineEndPastPlain(s, i);
    FirstDateStartIs(s, LineEnd(s, 0), i);
  }

  /** The first line reaches at least past a stretch with no newline. */
  lemma LineEndPastPlain(s: string, n: nat)
    requires n <= |s|
    requires forall k :: 0 <= k < n ==> s[k] != '\n'
    ensures n <= LineEnd(s, 0)
  {
  }

  /** The text after runs to the end when it has no newline. */
  lemma LineEndOfPlainTail(s: string, te: nat)
    requires te <= |s|
    requires forall k :: te <= k < |s| ==> s[k] != '\n'
    ensures LineEnd(s, te) == |s|
  {
  }

  /** After the compact date at `i` with nothing of a time after it. */
  lemma GroupsAfterCompactDateOnly(s: string, i: nat, t: DateTime, x: string)
    requires IsValid(t) && 1900 <= t.year <= 2099
    requires DateTokenAt(s, i) == Some(CompactDate(t))
    requires i + 8 + |x| == |s| && s[i + 8..] == x
    requires forall k :: 0 <= k < |x| ==> x[k] != '\n' && x[k] != 'T'
    requires |x| > 0 ==> !IsDigit(x[0]) && x[0] != 't'
    ensures GroupsAt(s, i, true) == DateMatch(s[..i], CompactDate(t), None, x)
  {
    CompactDateFacts(t);
    var e := i + 8;
    if e < |s| {
      assert s[e] == x[0];
    }
    assert TimeTokenAt(s, e) == None;
    forall k | e <= k < |s| ensures s[k] != '\n' {
      assert s[k] == x[k - e];
    }
    LineEndOfPlainTail(s, e);
    GroupsAtFrom(s, i, true, e, None, e);
  }

  /** After an eight-character date token at `i`: the optional `t`, a time token
      without separator, and the rest of the key up to its end. */
  lemma GroupsAfterDateTime(s: string, i: nat, mark: string, tt: TimeToken, x: string)
    requires DateStartsAt(s, i) && |DateTokenAt(s, i).value.Text()| == 8
    requires tt.WellFormed() && tt.sep == [] && (|tt.tail| == 0 || |tt.tail| == 2)
    requires mark == [] || mark == "t"
    requires i + 8 + |mark| + |tt.Text()| + |x| == |s|
    requires s[i + 8..i + 8 + |mark|] == mark
    requires s[i + 8 + |mark|..i + 8 + |mark| + |tt.Text()|] == tt.Text()
    requires s[i + 8 + |mark| + |tt.Text()|..] == x
    requires forall k :: 0 <= k < |x| ==> x[k] != '\n'
    requires |x| > 0 ==> !IsDigit(x[0])
    ensures GroupsAt(s, i, true) == DateMatch(s[..i], DateTokenAt(s, i).value, Some(tt), x)
  {
    var j := i + 8 + |mark|;
    TimeAfterDate(s, i, mark, tt, x);
    GroupsAtWithTime(s, i, j, tt);
  }

  /** `GroupsAt` once the time token after an eight-character date is known and
      nothing after it ends the line. */
  lemma GroupsAtWithTime(s: string, i: nat, j: nat, tt: TimeToken)
    requires DateStartsAt(s, i) && |DateTokenAt(s, i).value.Text()| == 8
    requires j == (if i + 8 < |s| && (s[i + 8] == 'T' || s[i + 8] == 't') then i + 9 else i + 8)
    requires TimeTokenAt(s, j) == Some(tt)
    requires j + |tt.Text()| <= |s| && LineEnd(s, j + |tt.Text()|) == |s|
    ensures GroupsAt(s, i, true) == DateMatch(s[..i], DateTokenAt(s, i).value, Some(tt), s[j + |tt.Text()|..])
  {
    assert TimeStart(s, i, true) == j;
    var te := TimeEnd(s, j);
    assert te == j + |tt.Text()|;
    assert s[te..LineEnd(s, te)] == s[te..];
  }

  /** The pieces `GroupsAt` looks at after the date in `GroupsAfterDateTime`. */
  lemma TimeAfterDate(s: string, i: nat, mark: string, tt: TimeToken, x: string)
    requires tt.WellFormed() && tt.sep == [] && (|tt.tail| == 0 || |tt.tail| == 2)
    requires mark == [] || mark == "t"
    requires i + 8 + |mark| + |tt.Text()| + |x| == |s|
    requires s[i + 8..i + 8 + |mark|] == mark
    requires s[i + 8 + |mark|..i + 8 + |mark| + |tt.Text()|] == tt.Text()
    requires s[i + 8 + |mark| + |tt.Text()|..] == x
    requires forall k :: 0 <= k < |x| ==> x[k] != '\n'
    requires |x| > 0 ==> !IsDigit(x[0])
    ensures i + 8 + |mark| == (if i + 8 < |s| && (s[i + 8] == 'T' || s[i + 8] == 't') then i + 9 else i + 8)
    ensures TimeTokenAt(s, i + 8 + |mark|) == Some(tt)
    ensures LineEnd(s, i + 8 + |mark| + |tt.Text()|) == |s|
  {
    var e := i + 8;
    var j := e + |mark|;
    var te := j + |tt.Text()|;
    if mark == [] {
      assert s[e] == tt.Text()[0] == tt.hour[0];
    } else {
      assert s[e] == mark[0];
    }
    if te < |s| {
      assert s[te] == x[0];
    }
    assert StartsAt(s, j, tt.Text());
    TimeTokenAtExactly(s, j, tt);
    forall k | te <= k < |s| ensures s[k] != '\n' {
      assert s[k] == x[k - te];
    }
    LineEndOfPlainTail(s, te);
  }

  /** The digits of a compact date and time parse back to the timestamp, and the
      series is chosen by the text around them. */
  lemma ReadMatchOfCompact(t: DateTime, f: TimestampFormat, p: string, x: string)
    requires IsValid(t) && FitsFormat(t, f) && 1900 <= t.year <= 2099
    ensures ReadMatch(DateMatch(p, CompactDate(t), if f == YearMonthDay then None else Some(CompactTime(t, f)), x))
      == Dated(t, Route(Strip(p + x)))
  {
    var m := DateMatch(p, CompactDate(t), if f == YearMonthDay then None else Some(CompactTime(t, f)), x);
    CompactText(t, f);
    var digits := DigitString(m);
    assert digits == Strftime(t, f) by {
      StripDigits(Strftime(t, f));
    }
    FormatForWidth(f);
    assert FormatFor(|digits|) == Some(f);
    StrptimeOfStrftime(t, f);
    ReadMatchOfParse(m, f, t);
  }

  /** A match whose digits have a format and parse is dated with the parse, in
      the series of its tag. */
  lemma ReadMatchOfParse(m: DateMatch, f: TimestampFormat, t: DateTime)
    requires FormatFor(|DigitString(m)|) == Some(f) && Strptime(DigitString(m), f) == Some(t)
    ensures ReadMatch(m) == Dated(t, Route(Tag(m)))
  {
  }

  /** A compact date, and time for the longer formats, spell the timestamp's
      digits. */
  lemma CompactText(t: DateTime, f: TimestampFormat)
    requires IsValid(t) && 1900 <= t.year <= 2099
    ensures CompactDate(t).Text() + (if f == YearMonthDay then "" else CompactTime(t, f).Text()) == Strftime(t, f)
  {
    CompactDateFacts(t);
    if f != YearMonthDay {
      CompactTimeFacts(t, f);
    }
  }

  /** Lower-casing a key of the intended form lower-cases the text around the
      timestamp and turns a `T` into `t`; the digits stay. */
  lemma LowerCompactKey(prefix: string, t: DateTime, f: TimestampFormat, mark: string, suffix: string)
    requires IsValid(t)
    requires mark == [] || mark == "T" || mark == "t"
    ensures Lower(CompactKey(prefix, t, f, mark, suffix))
      == Lower(prefix) + DateDigits(t) + (if f == YearMonthDay then [] else Lower(mark)) + TimeDigits(t, f) + Lower(suffix)
  {
    var d := DateDigits(t);
    var tm := TimeDigits(t, f);
    var middle := if f == YearMonthDay then [] else mark + tm;
    var lowMark := if f == YearMonthDay then [] else Lower(mark);
    assert Lower(middle) == lowMark + tm by {
      LowerOfDigits(tm);
      if f != YearMonthDay {
        LowerAppend(mark, tm);
      } else {
        assert tm == [];
      }
    }
    LowerOfDigits(d);
    LowerOfFourParts(prefix, d, middle, suffix);
    assert CompactKey(prefix, t, f, mark, suffix) == prefix + d + middle + suffix;
    RegroupMiddle(Lower(prefix), d, lowMark, tm, Lower(suffix));
  }

  lemma RegroupMiddle(a: string, b: string, c: string, d: string, e: string)
    ensures a + b + (c + d) + e == a + b + c + d + e
  {
  }

  /** Lower-casing four consecutive parts lower-cases each. */
  lemma LowerOfFourParts(a: string, b: string, c: string, d: string)
    ensures Lower(a + b + c + d) == Lower(a) + Lower(b) + Lower(c) + Lower(d)
  {
    LowerAppend(a, b);
    LowerAppend(a + b, c);
    LowerAppend(a + b + c, d);
  }

  /** The lazy match on a lower-cased key of the intended form. */
  lemma LazyMatchOfCompact(s: string, p: string, t: DateTime, f: TimestampFormat, mark: string, x: string)
    requires IsValid(t) && 1900 <= t.year <= 2099
    requires forall k :: 0 <= k < |p| ==> !IsDigit(p[k]) && p[k] != '\n'
    requires mark == [] || mark == "t"
    requires f == YearMonthDay ==> mark == []
    requires forall k :: 0 <= k < |x| ==> x[k] != '\n' && x[k] != 'T'
    requires |x| > 0 ==> !IsDigit(x[0]) && x[0] != 't'
    requires s == p + DateDigits(t) + mark + TimeDigits(t, f) + x
    ensures MatchDateLazy(s)
      == Some(DateMatch(p, CompactDate(t), if f == YearMonthDay then None else Some(CompactTime(t, f)), x))
  {
    var d := DateDigits(t);
    var tm := TimeDigits(t, f);
    var i := |p|;
    SlicesOfFive(s, p, d, mark, tm, x);
    CompactDateIsFirst(s, p, t);
    if f == YearMonthDay {
      GroupsAfterCompactDateOnly(s, i, t, x);
    } else {
      CompactTimeFacts(t, f);
      GroupsAfterDateTime(s, i, mark, CompactTime(t, f), x);
    }
  }

  /** Each part of a five-part concatenation is the slice at its offset. */
  lemma SlicesOfFive(s: string, a: string, b: string, c: string, d: string, e: string)
    requires s == a + b + c + d + e
    ensures s[..|a|] == a && s[|a|..|a| + |b|] == b
    ensures s[|a| + |b|..|a| + |b| + |c|] == c
    ensures s[|a| + |b| + |c|..|a| + |b| + |c| + |d|] == d
    ensures s[|a| + |b| + |c| + |d|..] == e
  {
  }

  /** Lower-casing keeps text without digits or newlines so, and turns no character
      into `T`. */
  lemma LowerOfPlainText(prefix: string, suffix: string)
    requires PlainPrefix(prefix) && PlainSuffix(suffix)
    ensures forall k :: 0 <= k < |prefix| ==> !IsDigit(Lower(prefix)[k]) && Lower(prefix)[k] != '\n'
    ensures forall k :: 0 <= k < |suffix| ==> Lower(suffix)[k] != '\n' && Lower(suffix)[k] != 'T'
    ensures |suffix| > 0 ==> !IsDigit(Lower(suffix)[0]) && Lower(suffix)[0] != 't'
  {
  }

  /** The extractor, read with the first date token and a `T` of either case,
      recovers the timestamp of every key of the form the date pattern is built
      for (text, the date, optionally a `T` and a time, text), and files it
      under the series the surrounding text names. */
  lemma ReadKeyRecoversTimestamp(prefix: string, t: DateTime, f: TimestampFormat, mark: string, suffix: string)
    requires IsValid(t) && FitsFormat(t, f) && 1900 <= t.year <= 2099
    requires mark == [] || mark == "T" || mark == "t"
    requires PlainPrefix(prefix) && PlainSuffix(suffix)
    ensures ReadKey(CompactKey(prefix, t, f, mark, suffix)) == Dated(t, Route(Strip(Lower(prefix) + Lower(suffix))))
  {
    var p := Lower(prefix);
    var x := Lower(suffix);
    var mk := if f == YearMonthDay then [] else Lower(mark);
    var s := Lower(CompactKey(prefix, t, f, mark, suffix));
    LowerCompactKey(prefix, t, f, mark, suffix);
    LowerOfPlainText(prefix, suffix);
    assert mk == [] || mk == "t";
    LazyMatchOfCompact(s, p, t, f, mk, x);
    ReadMatchOfCompact(t, f, p, x);
  }

  /** A tag without the letters l, h, v, e and s names no component and no
      uncertainty: its entries go to the plain line-of-sight series. */
  lemma RouteOfLetterFreeTag(tag: string)
    requires 'l' !in tag && 'h' !in tag && 'v' !in tag && 'e' !in tag && 's' !in tag
    ensures Route(tag) == BucketId(Los, false)
  {
    ContainsUsesChars(tag, "los", 'l');
    ContainsUsesChars(tag, "h", 'h');
    ContainsUsesChars(tag, "v", 'v');
    ContainsUsesChars(tag, "err", 'e');
    ContainsUsesChars(tag, "sigma", 's');
    ContainsUsesChars(tag, "std", 's');
  }

  /** No date token starts where there is no room for one or no 1 or 2. */
  lemma NoDateStart(s: string, k: nat)
    requires k + 8 > |s| || (s[k] != '1' && s[k] != '2')
    ensures !DateStartsAt(s, k)
  {
    if DateStartsAt(s, k) {
      DateStartNeedsDigit(s, k);
    }
  }

  /** The greedy match on a one-line key whose last date token has eight
      characters and no time after it. */
  lemma GreedyMatchWithoutTime(s: string, i: nat)
    requires forall k :: 0 <= k < |s| ==> s[k] != '\n'
    requires LastDateStart(s, |s|) == Some(i)
    requires |DateTokenAt(s, i).value.Text()| == 8
    requires i + 8 < |s| ==> s[i + 8] != 'T'
    requires TimeTokenAt(s, i + 8) == None
    ensures MatchDate(s) == Some(DateMatch(s[..i], DateTokenAt(s, i).value, None, s[i + 8..]))
  {
    LineEndOfPlainTail(s, 0);
    assert LastDateStart(s, LineEnd(s, 0)) == Some(i);
    LineEndOfPlainTail(s, i + 8);
    assert s[i + 8..LineEnd(s, i + 8)] == s[i + 8..];
    GroupsAtFrom(s, i, false, i + 8, None, i + 8);
  }

  /** Where the greedy pattern puts the date in `20200101123456`: at position 2. */
  lemma GreedyMatchOfCompactKey(s: string)
    requires s == "20200101123456"
    ensures MatchDate(s) == Some(DateMatch("20", DateToken("2001", [], "01", [], "12"), None, "3456"))
  {
    GreedyDateStartOfCompactKey(s);
    assert s[..2] == "20" && s[10..] == "3456";
    assert s[10] == '3';
    assert TimeTokenAt(s, 10) == None;
    GreedyMatchWithoutTime(s, 2);
  }

  lemma GreedyDateStartOfCompactKey(s: string)
    requires s == "20200101123456"
    ensures LastDateStart(s, |s|) == Some(2)
    ensures DateTokenAt(s, 2) == Some(DateToken("2001", [], "01", [], "12"))
  {
    var token := DateToken("2001", [], "01", [], "12");
    assert s[2..10] == token.Text();
    DateTokenUnique(s, 2, token);
    forall k | 2 < k <= 14 ensures !DateStartsAt(s, k) {
      if k == 5 {
        assert s[6] == '0';
        assert DateTokenAt(s, 5) == None;
      } else {
        NoDateStart(s, k);
      }
    }
    LastDateStartIs(s, 14, 2);
  }

  /** The source's reading of the 14-digit key for 2020-01-01 12:34:56: the greedy
      leading group skips to the last place a date can start, so the key is read
      as 2001-01-12, while the first-date reading recovers the timestamp. */
  lemma GreedyMatchMisreadsCompactKey()
    ensures ReadKeyAsWritten("20200101123456") == Dated(DateTime(2001, 1, 12, 0, 0, 0), BucketId(Los, false))
    ensures ReadKey("20200101123456") == Dated(DateTime(2020, 1, 1, 12, 34, 56), BucketId(Los, false))
  {
    var key := "20200101123456";
    assert AllDigits(key);
    LowerOfDigits(key);
    GreedyMatchOfCompactKey(key);
    ReadGreedyGroups(MatchDate(key).value);
    var intended := DateTime(2020, 1, 1, 12, 34, 56);
    IntendedKeyDigits(key, intended);
    CompactKeyRecovered(intended, YearMonthDayHourMinuteSecond, [], key);
  }

  /** 2020-01-01 12:34:56 written in the 14-digit form. */
  lemma IntendedKeyDigits(key: string, t: DateTime)
    requires key == "20200101123456" && t == DateTime(2020, 1, 1, 12, 34, 56)
    ensures IsValid(t) && CompactKey([], t, YearMonthDayHourMinuteSecond, [], []) == key
  {
    assert Two(20) == "20" && Two(1) == "01";
    assert Two(12) == "12" && Two(34) == "34" && Two(56) == "56";
    assert DateDigits(t) == "20200101";
    assert TimeDigits(t, YearMonthDayHourMinuteSecond) == "123456";
  }

  /** A match with a date and no time is read as the date its digits spell, in
      the series its tag selects. */
  lemma ReadDateOnlyMatch(m: DateMatch, stamp: DateTime)
    requires m.date.WellFormed() && m.time.None?
    requires IsValid(stamp) && FitsFormat(stamp, YearMonthDay)
    requires m.date.Digits() == DateDigits(stamp)
    ensures ReadMatch(m) == Dated(stamp, Route(Tag(m)))
  {
    StripDateToken(m.date);
    assert m.date.Text() + m.TimeText() == m.date.Text();
    assert DigitString(m) == Strftime(stamp, YearMonthDay);
    FormatForWidth(YearMonthDay);
    StrptimeOfStrftime(stamp, YearMonthDay);
    ReadMatchOfParse(m, YearMonthDay, stamp);
  }

  /** The groups the greedy pattern finds in `20200101123456` give 2001-01-12. */
  lemma ReadGreedyGroups(m: DateMatch)
    requires m == DateMatch("20", DateToken("2001", [], "01", [], "12"), None, "3456")
    ensures ReadMatch(m) == Dated(DateTime(2001, 1, 12, 0, 0, 0), BucketId(Los, false))
  {
    var stamp := DateTime(2001, 1, 12, 0, 0, 0);
    GreedyGroupsSpell(m.date, m.before + m.after, stamp);
    ReadDateOnlyMatch(m, stamp);
    RouteOfDigitTag(m.before + m.after);
  }

  lemma GreedyGroupsSpell(date: DateToken, around: string, stamp: DateTime)
    requires date == DateToken("2001", [], "01", [], "12") && around == "203456"
    requires stamp == DateTime(2001, 1, 12, 0, 0, 0)
    ensures date.WellFormed() && IsValid(stamp) && date.Digits() == DateDigits(stamp)
    ensures AllDigits(around)
  {
    assert Two(20) == "20" && Two(1) == "01" && Two(12) == "12";
  }

  /** Digits around the date leave a tag that selects the plain line-of-sight
      series. */
  lemma RouteOfDigitTag(around: string)
    requires AllDigits(around)
    ensures Route(Strip(around)) == BucketId(Los, false)
  {
    StripDigits(around);
    RouteOfLetterFreeTag(around);
  }

  /** A bare key of that form is read as its timestamp, in the plain
      line-of-sight series. */
  lemma CompactKeyRecovered(t: DateTime, f: TimestampFormat, mark: string, key: string)
    requires IsValid(t) && FitsFormat(t, f) && 1900 <= t.year <= 2099
    requires mark == [] || mark == "T" || mark == "t"
    requires key == CompactKey([], t, f, mark, [])
    ensures ReadKey(key) == Dated(t, BucketId(Los, false))
  {
    ReadKeyRecoversTimestamp([], t, f, mark, []);
    assert Lower([]) + Lower([]) == [];
    RouteOfLetterFreeTag([]);
  }

  /** The extractor as written reads a key of the date-only form at its date:
      with no digit before the date and none after it, the greedy leading group
      has no later date start to skip to, and there is no time to lose. The
      series is the one the text around the date names. */
  lemma ReadKeyAsWrittenOfDateKey(prefix: string, t: DateTime, suffix: string)
    requires IsValid(t) && FitsFormat(t, YearMonthDay) && 1900 <= t.year <= 2099
    requires PlainPrefix(prefix)
    requires forall k :: 0 <= k < |suffix| ==> !IsDigit(suffix[k]) && suffix[k] != '\n'
    ensures ReadKeyAsWritten(CompactKey(prefix, t, YearMonthDay, [], suffix))
      == Dated(t, Route(Strip(Lower(prefix) + Lower(suffix))))
  {
    var p := Lower(prefix);
    var x := Lower(suffix);
    LowerCompactKey(prefix, t, YearMonthDay, [], suffix);
    LowerOfDigitFreeText(prefix, suffix);
    GreedyMatchOfDateKey(Lower(CompactKey(prefix, t, YearMonthDay, [], suffix)), p, t, x);
    ReadMatchOfCompact(t, YearMonthDay, p, x);
  }

  /** The greedy match on a one-line key made of digit-free text, a compact date
      and digit-free text: the date is the compact one, with no time. */
  lemma GreedyMatchOfDateKey(s: string, p: string, t: DateTime, x: string)
    requires IsValid(t) && 1900 <= t.year <= 2099
    requires forall k :: 0 <= k < |p| ==> !IsDigit(p[k]) && p[k] != '\n'
    requires forall k :: 0 <= k < |x| ==> !IsDigit(x[k]) && x[k] != '\n' && x[k] != 'T'
    requires s == p + DateDigits(t) + [] + TimeDigits(t, YearMonthDay) + x
    ensures MatchDate(s) == Some(DateMatch(p, CompactDate(t), None, x))
  {
    var i := |p|;
    SlicesOfFive(s, p, DateDigits(t), [], TimeDigits(t, YearMonthDay), x);
    assert s[i..i + 8] == DateDigits(t) && s[i + 8..] == x;
    CompactDateIsFirst(s, p, t);
    CompactDateFacts(t);
    PlainAroundDate(s, p, DateDigits(t), x);
    NoDateStartBeforeDigitFreeTail(s, i);
    LastDateStartIs(s, |s|, i);
    if i + 8 < |s| {
      assert s[i + 8] == x[0];
    }
    assert TimeTokenAt(s, i + 8) == None;
    GreedyMatchWithoutTime(s, i);
  }

  /** Character facts about a key split at `i` into text before, eight digits
      and digit-free text after. */
  lemma PlainAroundDate(s: string, p: string, d: string, x: string)
    requires |p| + 8 + |x| == |s| && |d| == 8
    requires s[..|p|] == p && s[|p|..|p| + 8] == d && s[|p| + 8..] == x
    requires forall k :: 0 <= k < |p| ==> p[k] != '\n'
    requires AllDigits(d)
    requires forall k :: 0 <= k < |x| ==> !IsDigit(x[k]) && x[k] != '\n' && x[k] != 'T'
    ensures forall k :: 0 <= k < |s| ==> s[k] != '\n'
    ensures forall k :: |p| + 8 <= k < |s| ==> !IsDigit(s[k]) && s[k] != 'T'
  {
    var i := |p|;
    forall k | 0 <= k < |s| ensures s[k] != '\n' && (i + 8 <= k ==> !IsDigit(s[k]) && s[k] != 'T') {
      if k < i {
        assert s[k] == s[..i][k];
      } else if k < i + 8 {
        assert s[k] == s[i..i + 8][k - i];
      } else {
        assert s[k] == s[i + 8..][k - i - 8];
      }
    }
  }

  /** Lower-casing text without digits or newlines keeps it so. */
  lemma LowerOfDigitFreeText(prefix: string, suffix: string)
    requires PlainPrefix(prefix)
    requires forall k :: 0 <= k < |suffix| ==> !IsDigit(suffix[k]) && suffix[k] != '\n'
    ensures forall k :: 0 <= k < |prefix| ==> !IsDigit(Lower(prefix)[k]) && Lower(prefix)[k] != '\n'
    ensures forall k :: 0 <= k < |suffix| ==> !IsDigit(Lower(suffix)[k]) && Lower(suffix)[k] != '\n' && Lower(suffix)[k] != 'T'
  {
  }

  /** No date token starts after `i` when nothing from `i + 8` on is a digit: a
      date token is at least eight characters long and ends in a digit. */
  lemma NoDateStartBeforeDigitFreeTail(s: string, i: nat)
    requires forall k :: i + 8 <= k < |s| ==> !IsDigit(s[k])
    ensures forall k :: i < k <= |s| ==> !DateStartsAt(s, k)
  {
    forall k | i < k <= |s| ensures !DateStartsAt(s, k) {
      if DateStartsAt(s, k) {
        DateTokenEndsInDigit(s, k);
      }
    }
  }

  /** A date token spans at least eight characters and its last one is a digit. */
  lemma DateTokenEndsInDigit(s: string, k: nat)
    requires DateStartsAt(s, k)
    ensures var n := |DateTokenAt(s, k).value.Text()|;
      8 <= n && k + n <= |s| && IsDigit(s[k + n - 1])
  {
    var token := DateTokenAt(s, k).value;
    var n := |token.Text()|;
    DateTokenAtSound(s, k);
    assert token.Text()[n - 1] == token.day[1];
    assert s[k..k + n][n - 1] == s[k + n - 1];
  }

  /** The two forms the extractor's documentation names, `DYYYYMMDD` and
      `YYYYMMDD`, are read as written at their own date in the plain
      line-of-sight series. */
  lemma DocumentedKeyAsWritten(t: DateTime, prefix: string, key: string)
    requires IsValid(t) && FitsFormat(t, YearMonthDay) && 1900 <= t.year <= 2099
    requires prefix == "D" || prefix == []
    requires key == CompactKey(prefix, t, YearMonthDay, [], [])
    ensures ReadKeyAsWritten(key) == Dated(t, BucketId(Los, false))
  {
    ReadKeyAsWrittenOfDateKey(prefix, t, []);
    DocumentedPrefixTag(prefix);
  }

  /** The `D` of `DYYYYMMDD`, lower-cased, names no series component. */
  lemma DocumentedPrefixTag(prefix: string)
    requires prefix == "D" || prefix == []
    ensures Route(Strip(Lower(prefix) + Lower([]))) == BucketId(Los, false)
  {
    var tag := Lower(prefix) + Lower([]);
    assert tag == (if prefix == [] then [] else "d");
    StripKeepsPlainText(tag);
    RouteOfLetterFreeTag(tag);
  }

  /** In `20200101t1234` the only date token starts at 0. */
  lemma LowerCaseKeyDateStart(s: string)
    requires s == "20200101t1234"
    ensures LastDateStart(s, |s|) == Some(0)
    ensures DateTokenAt(s, 0) == Some(DateToken("2020", [], "01", [], "01"))
  {
    var token := DateToken("2020", [], "01", [], "01");
    assert s[0..8] == token.Text();
    DateTokenUnique(s, 0, token);
    forall k | 0 < k <= |s| ensures !DateStartsAt(s, k) {
      if k == 2 {
        assert s[6] == '0' && s[8] == 't';
        assert DateTokenAt(s, 2) == None;
      } else if k == 5 {
        assert s[6] == '0';
        assert DateTokenAt(s, 5) == None;
      } else {
        NoDateStart(s, k);
      }
    }
    LastDateStartIs(s, |s|, 0);
  }

  /** The pattern as compiled reads `20200101t1234` as a bare date: the lower-case
      `t` stops the optional `T`, so no time token follows the date. */
  lemma LowerCaseMatchOfKey(s: string)
    requires s == "20200101t1234"
    ensures MatchDate(s) == Some(DateMatch([], DateToken("2020", [], "01", [], "01"), None, "t1234"))
  {
    LowerCaseKeyDateStart(s);
    assert s[8] == 't';
    assert TimeTokenAt(s, 8) == None;
    GreedyMatchWithoutTime(s, 0);
    assert s[..0] == [] && s[8..] == "t1234";
  }

  /** The groups of that match give 2020-01-01 at midnight, in the plain
      line-of-sight series. */
  lemma ReadLostTimeGroups(m: DateMatch)
    requires m == DateMatch([], DateToken("2020", [], "01", [], "01"), None, "t1234")
    ensures ReadMatch(m) == Dated(DateTime(2020, 1, 1, 0, 0, 0), BucketId(Los, false))
  {
    var stamp := DateTime(2020, 1, 1, 0, 0, 0);
    assert m.date.WellFormed();
    assert m.date.Digits() == DateDigits(stamp);
    ReadDateOnlyMatch(m, stamp);
    TimeTagRoute(m.before + m.after);
  }

  /** The tag `t1234` names no component and no uncertainty. */
  lemma TimeTagRoute(tag: string)
    requires tag == "t1234"
    ensures Route(Strip(tag)) == BucketId(Los, false)
  {
    assert forall k :: 0 <= k < |tag| ==> !IsSeparator(tag[k]);
    StripKeepsPlainText(tag);
    RouteOfLetterFreeTag(tag);
  }

  lemma LowerOfTimeKey(key: string)
    requires key == "20200101T1234"
    ensures Lower(key) == "20200101t1234"
  {
    assert Lower(key)[8] == 't';
    assert forall k :: 0 <= k < |key| && k != 8 ==> IsDigit(key[k]);
  }

  /** 2020-01-01 12:34 written as date, `T` and time. */
  lemma TimeKeyDigits(key: string, t: DateTime)
    requires key == "20200101T1234" && t == DateTime(2020, 1, 1, 12, 34, 0)
    ensures IsValid(t) && CompactKey([], t, YearMonthDayHourMinute, "T", []) == key
  {
    assert Two(20) == "20" && Two(1) == "01";
    assert Two(12) == "12" && Two(34) == "34";
    assert DateDigits(t) == "20200101";
    assert TimeDigits(t, YearMonthDayHourMinute) == "1234";
  }

  /** The source's reading of `20200101T1234`: the key is lower-cased before a
      pattern that only knows an upper-case `T`, so the time is lost and the entry
      is filed at midnight, while the reading that accepts either case recovers
      12:34. */
  lemma LowerCaseKeyLosesTime()
    ensures ReadKeyAsWritten("20200101T1234") == Dated(DateTime(2020, 1, 1, 0, 0, 0), BucketId(Los, false))
    ensures ReadKey("20200101T1234") == Dated(DateTime(2020, 1, 1, 12, 34, 0), BucketId(Los, false))
  {
    var key := "20200101T1234";
    LowerOfTimeKey(key);
    LowerCaseMatchOfKey(Lower(key));
    ReadLostTimeGroups(MatchDate(Lower(key)).value);
    var intended := DateTime(2020, 1, 1, 12, 34, 0);
    TimeKeyDigits(key, intended);
    CompactKeyRecovered(intended, YearMonthDayHourMinute, "T", key);
  }

  /** A match with a date token that is no calendar date and no time is rejected
      with the digits of the date. */
  lemma ReadInvalidDateOnlyMatch(m: DateMatch)
    requires m.date.WellFormed() && m.time.None?
    requires Strptime(m.date.Digits(), YearMonthDay).None?
    ensures ReadMatch(m) == InvalidTimestamp(m.date.Digits())
  {
    StripDateToken(m.date);
    assert m.date.Text() + m.TimeText() == m.date.Text();
    assert DigitString(m) == m.date.Digits();
  }

  /** In `202001010030` the last date token starts at 2 and reads day 00. */
  lemma ZeroDayDateStart(s: string)
    requires s == "202001010030"
    ensures LastDateStart(s, |s|) == Some(2)
    ensures DateTokenAt(s, 2) == Some(DateToken("2001", [], "01", [], "00"))
  {
    var token := DateToken("2001", [], "01", [], "00");
    assert s[2..10] == token.Text();
    DateTokenUnique(s, 2, token);
    forall k | 2 < k <= |s| ensures !DateStartsAt(s, k) {
      NoDateStart(s, k);
    }
    LastDateStartIs(s, |s|, 2);
  }

  lemma ZeroDayMatch(s: string)
    requires s == "202001010030"
    ensures MatchDate(s) == Some(DateMatch("20", DateToken("2001", [], "01", [], "00"), None, "30"))
  {
    ZeroDayDateStart(s);
    assert s[10] == '3';
    assert TimeTokenAt(s, 10) == None;
    GreedyMatchWithoutTime(s, 2);
    assert s[..2] == "20" && s[10..] == "30";
  }

  lemma ReadZeroDayGroups(m: DateMatch)
    requires m == DateMatch("20", DateToken("2001", [], "01", [], "00"), None, "30")
    ensures ReadMatch(m) == InvalidTimestamp("20010100")
  {
    assert m.date.WellFormed();
    var digits := m.date.Digits();
    assert digits == "20010100";
    assert Fields(digits, YearMonthDay).day == 0;
    ReadInvalidDateOnlyMatch(m);
  }

  /** 2020-01-01 00:30 written in the 12-digit form. */
  lemma HalfPastMidnightDigits(key: string, t: DateTime)
    requires key == "202001010030" && t == DateTime(2020, 1, 1, 0, 30, 0)
    ensures IsValid(t) && CompactKey([], t, YearMonthDayHourMinute, [], []) == key
  {
    assert Two(20) == "20" && Two(1) == "01";
    assert Two(0) == "00" && Two(30) == "30";
    assert DateDigits(t) == "20200101";
    assert TimeDigits(t, YearMonthDayHourMinute) == "0030";
  }

  /** The source's reading of the 12-digit key for 2020-01-01 00:30: the greedy
      leading group lands on a date token with day 00, which `strptime` refuses,
      so the whole extraction fails; the first-date reading recovers the
      timestamp. */
  lemma GreedyMatchRejectsCompactKey()
    ensures ReadKeyAsWritten("202001010030") == InvalidTimestamp("20010100")
    ensures ReadKey("202001010030") == Dated(DateTime(2020, 1, 1, 0, 30, 0), BucketId(Los, false))
  {
    var key := "202001010030";
    assert AllDigits(key);
    LowerOfDigits(key);
    ZeroDayMatch(key);
    ReadZeroDayGroups(MatchDate(key).value);
    var intended := DateTime(2020, 1, 1, 0, 30, 0);
    HalfPastMidnightDigits(key, intended);
    CompactKeyRecovered(intended, YearMonthDayHourMinute, [], key);
  }

  /** A key made of a lower-case word and a compact timestamp is read as the
      timestamp, in the series the word selects. */
  lemma ReadKeyOfWordAndStamp(word: string, t: DateTime, f: TimestampFormat, mark: string)
    requires forall k :: 0 <= k < |word| ==> 'a' <= word[k] <= 'z'
    requires IsValid(t) && FitsFormat(t, f) && 1900 <= t.year <= 2099
    requires mark == [] || mark == "T" || mark == "t"
    ensures ReadKey(CompactKey(word, t, f, mark, [])) == Dated(t, Route(word))
  {
    WordTag(word);
    ReadKeyRecoversTimestamp(word, t, f, mark, []);
  }

  /** A lower-case word is its own tag. */
  lemma WordTag(word: string)
    requires forall k :: 0 <= k < |word| ==> 'a' <= word[k] <= 'z'
    ensures Strip(Lower(word) + Lower([])) == word
  {
    assert Lower(word) + Lower([]) == word;
    forall k | 0 <= k < |word| ensures !IsSeparator(word[k]) {
      assert 'a' <= word[k] <= 'z';
    }
    StripKeepsPlainText(word);
  }

  /** The words that name the six series. */
  lemma SeriesWords(los: string, h: string, v: string, losErr: string, hStd: string, vSigma: string)
    requires los == "los" && h == "h" && v == "v"
    requires losErr == "loserr" && hStd == "hstd" && vSigma == "vsigma"
    ensures Route(los) == BucketId(Los, false)
    ensures Route(h) == BucketId(H, false)
    ensures Route(v) == BucketId(V, false)
    ensures Route(losErr) == BucketId(Los, true)
    ensures Route(hStd) == BucketId(H, true)
    ensures Route(vSigma) == BucketId(V, true)
  {
    PlainSeriesWords(los, h, v);
    UncertaintySeriesWords(losErr, hStd, vSigma);
  }

  lemma PlainSeriesWords(los: string, h: string, v: string)
    requires los == "los" && h == "h" && v == "v"
    ensures Route(los) == BucketId(Los, false)
    ensures Route(h) == BucketId(H, false)
    ensures Route(v) == BucketId(V, false)
  {
    assert StartsAt(los, 0, "los");
    assert StartsAt(h, 0, "h");
    assert StartsAt(v, 0, "v");
    ContainsUsesChars(los, "err", 'e');
    ContainsUsesChars(los, "sigma", 'i');
    ContainsUsesChars(los, "std", 't');
    ContainsUsesChars(h, "los", 'l');
    ContainsUsesChars(h, "err", 'e');
    ContainsUsesChars(h, "sigma", 's');
    ContainsUsesChars(h, "std", 's');
    ContainsUsesChars(v, "los", 'l');
    ContainsUsesChars(v, "h", 'h');
    ContainsUsesChars(v, "err", 'e');
    ContainsUsesChars(v, "sigma", 's');
    ContainsUsesChars(v, "std", 's');
  }

  lemma UncertaintySeriesWords(losErr: string, hStd: string, vSigma: string)
    requires losErr == "loserr" && hStd == "hstd" && vSigma == "vsigma"
    ensures Route(losErr) == BucketId(Los, true)
    ensures Route(hStd) == BucketId(H, true)
    ensures Route(vSigma) == BucketId(V, true)
  {
    assert StartsAt(losErr, 0, "los") && StartsAt(losErr, 3, "err");
    assert StartsAt(hStd, 0, "h") && StartsAt(hStd, 1, "std");
    assert StartsAt(vSigma, 0, "v") && StartsAt(vSigma, 1, "sigma");
    ContainsUsesChars(hStd, "los", 'l');
    ContainsUsesChars(vSigma, "los", 'l');
    ContainsUsesChars(vSigma, "h", 'h');
  }

  /** The loop over one dated item files it and nothing else. */
  lemma FoldOfDatedItem<V, F>(key: string, v: V, read: string -> KeyReading, toFloat: V -> Option<F>, nan: F)
    requires read(key).Dated?
    ensures Fold([(key, v)], read, toFloat, nan)
      == Success(EmptyBuckets<F>().Add(read(key).bucket, (read(key).stamp, Coerce(v, toFloat, nan))))
  {
    assert [(key, v)][..0] == [];
  }

  /** The loop over one rejected item raises its exception. */
  lemma FoldOfRejectedItem<V, F>(key: string, v: V, read: string -> KeyReading, toFloat: V -> Option<F>, nan: F)
    requires IsRejected(read(key))
    ensures Fold([(key, v)], read, toFloat, nan) == Failure(Rejection(key, read(key)))
  {
    assert [(key, v)][..0] == [];
  }

  /** On a feature with the single attribute `202001010030`, the extraction as
      written raises on the key, while the corrected reading files the value at
      2020-01-01 00:30 in the line-of-sight series. */
  lemma GreedyPatternAbortsExtraction<V, F>(v: V, toFloat: V -> Option<F>, nan: F)
    ensures ExtractDateValueAttributesAsWritten([("202001010030", v)], toFloat, nan)
      == Failure(NotACalendarTimestamp("202001010030", "20010100"))
    ensures ExtractDateValueAttributes([("202001010030", v)], toFloat, nan).Success?
    ensures ExtractDateValueAttributes([("202001010030", v)], toFloat, nan).value.Get(BucketId(Los, false))
      == [(DateTime(2020, 1, 1, 0, 30, 0), Coerce(v, toFloat, nan))]
  {
    var key := "202001010030";
    GreedyMatchRejectsCompactKey();
    FoldOfRejectedItem(key, v, ReadKeyAsWritten, toFloat, nan);
    FoldOfDatedItem(key, v, ReadKey, toFloat, nan);
  }
}
