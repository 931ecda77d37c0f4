/** The date pattern shared by the time-series check and the extractor,
        `(.*)((19|20)\d{2}[\s\-\._]?[01]\d[\s\-\.]?[0123]\d)T?([012]\d[:\.]?[0-5]\d[0-5]?\d?)?(.*)`
    applied with `re.match`, and the groups Python's backtracking matcher hands back.

    How the groups are determined:
    - the leading `(.*)` is greedy and cannot cross a newline, so the date token
      starts at the LAST position before the first newline where one can start;
    - an optional separator inside a token is never a digit, so whenever one is
      present it has to be taken: a date token at a given position is unique;
    - everything after the date is optional or may be empty, so the time group is
      the longest time token that follows (and absent when none does);
    - the trailing `(.*)` runs to the next newline or the end. */
module DatePattern {
  import opened Wrappers
  import opened Text
  import opened Sequences

  /** `[\s\-\._]`, between year and month. */
  predicate IsYearMonthSeparator(c: char) {
    IsSpace(c) || c == '-' || c == '.' || c == '_'
  }

  /** `[\s\-\.]`, between month and day. */
  predicate IsMonthDaySeparator(c: char) {
    IsSpace(c) || c == '-' || c == '.'
  }

  /** `[:\.]`, between hour and minute. */
  predicate IsTimeSeparator(c: char) {
    c == ':' || c == '.'
  }

  /** An optional one-character part whose character, if any, satisfies `p`. */
  predicate OptionalChar(part: string, p: char -> bool) {
    |part| <= 1 && (|part| == 1 ==> p(part[0]))
  }

  /** The date group, cut into the pieces the pattern names. */
  datatype DateToken = DateToken(year: string, sep1: string, month: string, sep2: string, day: string) {

    function Text(): string {
      year + sep1 + month + sep2 + day
    }

    function Digits(): string {
      year + month + day
    }

    /** `(19|20)\d{2}[\s\-\._]?[01]\d[\s\-\.]?[0123]\d` */
    predicate WellFormed() {
      && |year| == 4
      && ((year[0] == '1' && year[1] == '9') || (year[0] == '2' && year[1] == '0'))
      && IsDigit(year[2]) && IsDigit(year[3])
      && OptionalChar(sep1, IsYearMonthSeparator)
      && |month| == 2 && '0' <= month[0] <= '1' && IsDigit(month[1])
      && OptionalChar(sep2, IsMonthDaySeparator)
      && |day| == 2 && '0' <= day[0] <= '3' && IsDigit(day[1])
    }
  }

  /** The time group: hour, optional separator, minute, and what `[0-5]?\d?`
      takes after the minute (no, one or two digits). */
  datatype TimeToken = TimeToken(hour: string, sep: string, minute: string, tail: string) {

    function Text(): string {
      hour + sep + minute + tail
    }

    function Digits(): string {
      hour + minute + tail
    }

    /** `[012]\d[:\.]?[0-5]\d[0-5]?\d?` */
    predicate WellFormed() {
      && |hour| == 2 && '0' <= hour[0] <= '2' && IsDigit(hour[1])
      && OptionalChar(sep, IsTimeSeparator)
      && |minute| == 2 && '0' <= minute[0] <= '5' && IsDigit(minute[1])
      && |tail| <= 2 && AllDigits(tail) && (|tail| == 2 ==> '0' <= tail[0] <= '5')
    }
  }

  /** The optional separator at `j`: taken when the character there satisfies `p`. */
  function SepAt(s: string, j: nat, p: char -> bool): (r: string)
    requires j <= |s|
    ensures OptionalChar(r, p) && j + |r| <= |s| && r == s[j..j + |r|]
    ensures j < |s| && p(s[j]) ==> |r| == 1
  {
    if j < |s| && p(s[j]) then s[j..j + 1] else []
  }

  /** Adjacent slices of `s` concatenate to the slice spanning them. */
  lemma SliceConcat5(s: string, a: nat, b: nat, c: nat, d: nat, e: nat, f: nat)
    requires a <= b <= c <= d <= e <= f <= |s|
    ensures s[a..b] + s[b..c] + s[c..d] + s[d..e] + s[e..f] == s[a..f]
  {
    assert s[a..b] + s[b..c] == s[a..c];
    assert s[a..c] + s[c..d] == s[a..d];
    assert s[a..d] + s[d..e] == s[a..e];
    assert s[a..e] + s[e..f] == s[a..f];
  }

  lemma SliceConcat4(s: string, a: nat, b: nat, c: nat, d: nat, e: nat)
    requires a <= b <= c <= d <= e <= |s|
    ensures s[a..b] + s[b..c] + s[c..d] + s[d..e] == s[a..e]
  {
    assert s[a..b] + s[b..c] == s[a..c];
    assert s[a..c] + s[c..d] == s[a..d];
    assert s[a..d] + s[d..e] == s[a..e];
  }

  /** The date token starting at `i`, if any. */
  function DateTokenAt(s: string, i: nat): Option<DateToken>
  {
    if i + 4 > |s| then None
    else
      var year := s[i..i + 4];
      if !((year[0] == '1' && year[1] == '9') || (year[0] == '2' && year[1] == '0'))
        || !IsDigit(year[2]) || !IsDigit(year[3]) then None
      else
        var sep1 := SepAt(s, i + 4, IsYearMonthSeparator);
        var m := i + 4 + |sep1|;
        if m + 2 > |s| || !('0' <= s[m] <= '1') || !IsDigit(s[m + 1]) then None
        else
          var sep2 := SepAt(s, m + 2, IsMonthDaySeparator);
          var d := m + 2 + |sep2|;
          if d + 2 > |s| || !('0' <= s[d] <= '3') || !IsDigit(s[d + 1]) then None
          else
            Some(DateToken(year, sep1, s[m..m + 2], sep2, s[d..d + 2]))
  }

  /** What `[0-5]?\d?` takes at `e`, greedily: a digit in 0-5 and then any digit,
      or a lone digit, or nothing. */
  function TailAt(s: string, e: nat): (tail: string)
    requires e <= |s|
    ensures |tail| <= 2 && e + |tail| <= |s| && tail == s[e..e + |tail|]
    ensures AllDigits(tail) && (|tail| == 2 ==> '0' <= tail[0] <= '5')
  {
    if e < |s| && '0' <= s[e] <= '5' then
      (if e + 1 < |s| && IsDigit(s[e + 1]) then s[e..e + 2] else s[e..e + 1])
    else if e < |s| && IsDigit(s[e]) then s[e..e + 1]
    else []
  }

  /** What the date parser returns is a well-formed date token, and it is really
      there: its text occurs in `s` at `i`. */
  lemma DateTokenAtSound(s: string, i: nat)
    requires DateTokenAt(s, i).Some?
    ensures DateTokenAt(s, i).value.WellFormed()
    ensures StartsAt(s, i, DateTokenAt(s, i).value.Text())
  {
    var t := DateTokenAt(s, i).value;
    var m := i + 4 + |t.sep1|;
    var d := m + 2 + |t.sep2|;
    SliceConcat5(s, i, i + 4, m, m + 2, d, d + 2);
  }

  /** The longest time token starting at `j`, if any. */
  function TimeTokenAt(s: string, j: nat): (r: Option<TimeToken>)
    ensures r.Some? ==> r.value.WellFormed() && StartsAt(s, j, r.value.Text())
  {
    if j + 2 > |s| || !('0' <= s[j] <= '2') || !IsDigit(s[j + 1]) then None
    else
      var sep := SepAt(s, j + 2, IsTimeSeparator);
      var m := j + 2 + |sep|;
      if m + 2 > |s| || !('0' <= s[m] <= '5') || !IsDigit(s[m + 1]) then None
      else
        var tail := TailAt(s, m + 2);
        TimeTokenParts(s, j, sep, tail);
        Some(TimeToken(s[j..j + 2], sep, s[m..m + 2], tail))
  }

  /** The pieces `TimeTokenAt` cuts out form a well-formed time token that is
      really there. */
  lemma TimeTokenParts(s: string, j: nat, sep: string, tail: string)
    requires j + 2 <= |s| && '0' <= s[j] <= '2' && IsDigit(s[j + 1])
    requires OptionalChar(sep, IsTimeSeparator) && j + 2 + |sep| <= |s| && sep == s[j + 2..j + 2 + |sep|]
    requires var m := j + 2 + |sep|; m + 2 <= |s| && '0' <= s[m] <= '5' && IsDigit(s[m + 1])
    requires var m := j + 2 + |sep|; tail == TailAt(s, m + 2)
    ensures var m := j + 2 + |sep|;
      var t := TimeToken(s[j..j + 2], sep, s[m..m + 2], tail);
      t.WellFormed() && StartsAt(s, j, t.Text())
  {
    var m := j + 2 + |sep|;
    var t := TimeToken(s[j..j + 2], sep, s[m..m + 2], tail);
    assert t.hour[0] == s[j] && t.hour[1] == s[j + 1];
    assert t.minute[0] == s[m] && t.minute[1] == s[m + 1];
    assert t.WellFormed();
    SliceConcat4(s, j, j + 2, m, m + 2, m + 2 + |tail|);
    assert t.Text() == s[j..m + 2 + |tail|];
  }

  /** The regex's groups: text before the date, the date, the time when present,
      and the text after. */
  datatype DateMatch = DateMatch(before: string, date: DateToken, time: Option<TimeToken>, after: string) {

    /** Group 4, read as `''` when the time group did not take part. */
    function TimeText(): string {
      if time.Some? then time.value.Text() else ""
    }

    /** The matched text: the groups laid end to end, with `mark` (the
        uncaptured `T?`) between the date and the time. */
    function Joined(mark: string): string {
      before + date.Text() + mark + TimeText() + after
    }
  }

  predicate DateStartsAt(s: string, i: nat) {
    DateTokenAt(s, i).Some?
  }

  /** The greatest position `i <= hi` where a date token starts. */
  function LastDateStart(s: string, hi: nat): (r: Option<nat>)
    ensures r.Some? ==> r.value <= hi && DateStartsAt(s, r.value)
    ensures r.Some? ==> forall k :: r.value < k <= hi ==> !DateStartsAt(s, k)
    ensures r.None? ==> forall k :: 0 <= k <= hi ==> !DateStartsAt(s, k)
  {
    var p := (k: nat) => DateStartsAt(s, k);
    var r := LastSatisfying(hi, p);
    assert r.None? ==> forall k :: 0 <= k <= hi ==> !DateStartsAt(s, k) by {
      forall k | 0 <= k <= hi && r.None? ensures !DateStartsAt(s, k) {
        assert !p(k);
      }
    }
    assert r.Some? ==> forall k :: r.value < k <= hi ==> !DateStartsAt(s, k) by {
      forall k | r.Some? && r.value < k <= hi ensures !DateStartsAt(s, k) {
        assert !p(k);
      }
    }
    assert r.Some? ==> p(r.value);
    r
  }

  /** The least position `i <= hi` where a date token starts. */
  function FirstDateStart(s: string, hi: nat): (r: Option<nat>)
    ensures r.Some? ==> r.value <= hi && DateStartsAt(s, r.value)
    ensures r.Some? ==> forall k :: 0 <= k < r.value ==> !DateStartsAt(s, k)
    ensures r.None? ==> forall k :: 0 <= k <= hi ==> !DateStartsAt(s, k)
  {
    var p := (k: nat) => DateStartsAt(s, k);
    var r := FirstSatisfying(0, hi, p);
    assert r.None? ==> forall k :: 0 <= k <= hi ==> !DateStartsAt(s, k) by {
      forall k | 0 <= k <= hi && r.None? ensures !DateStartsAt(s, k) {
        assert !p(k);
      }
    }
    assert r.Some? ==> forall k :: 0 <= k < r.value ==> !DateStartsAt(s, k) by {
      forall k | r.Some? && 0 <= k < r.value ensures !DateStartsAt(s, k) {
        assert !p(k);
      }
    }
    assert r.Some? ==> p(r.value);
    r
  }

  /** A date token starts with the digit 1 or 2 and is at least eight characters long. */
  lemma DateStartNeedsDigit(s: string, i: nat)
    requires DateStartsAt(s, i)
    ensures i + 8 <= |s| && (s[i] == '1' || s[i] == '2')
  {
    var t := DateTokenAt(s, i).value;
    DateTokenAtSound(s, i);
    assert s[i..i + |t.Text()|][0] == s[i];
  }

  /** The last date start is the one no later start follows. */
  lemma LastDateStartIs(s: string, hi: nat, i: nat)
    requires i <= hi && DateStartsAt(s, i)
    requires forall k :: i < k <= hi ==> !DateStartsAt(s, k)
    ensures LastDateStart(s, hi) == Some(i)
  {
  }

  /** The first date start is the one no earlier start precedes. */
  lemma FirstDateStartIs(s: string, hi: nat, i: nat)
    requires i <= hi && DateStartsAt(s, i)
    requires forall k :: 0 <= k < i ==> !DateStartsAt(s, k)
    ensures FirstDateStart(s, hi) == Some(i)
  {
  }

  /** The pattern matches: a date token starts where the leading `(.*)` can reach. */
  predicate HasDateToken(s: string) {
    exists i :: 0 <= i <= LineEnd(s, 0) && DateStartsAt(s, i)
  }

  /** Where the time group may start: after the date token at `i` and the optional
      `T` (either case when `ignoreCase`). */
  function TimeStart(s: string, i: nat, ignoreCase: bool): (t: nat)
    requires DateStartsAt(s, i)
    ensures t <= |s|
  {
    DateTokenAtSound(s, i);
    var e := i + |DateTokenAt(s, i).value.Text()|;
    if e < |s| && (s[e] == 'T' || (ignoreCase && s[e] == 't')) then e + 1 else e
  }

  /** Where the text after the groups starts: past the time token at `t`, if any. */
  function TimeEnd(s: string, t: nat): (te: nat)
    requires t <= |s|
    ensures t <= te <= |s|
  {
    var time := TimeTokenAt(s, t);
    if time.Some? then t + |time.value.Text()| else t
  }

  /** The groups once the date token is known to start at `i`: the optional `T`,
      then the longest time token, then the rest of the line. */
  function GroupsAt(s: string, i: nat, ignoreCase: bool): (m: DateMatch)
    requires DateStartsAt(s, i)
    ensures m.before == s[..i] && m.date == DateTokenAt(s, i).value
    ensures forall k :: 0 <= k < |m.after| ==> m.after[k] != '\n'
  {
    var t := TimeStart(s, i, ignoreCase);
    var te := TimeEnd(s, t);
    DateMatch(s[..i], DateTokenAt(s, i).value, TimeTokenAt(s, t), s[te..LineEnd(s, te)])
  }

  /** `tiled` is `s` up to a newline or its end: a prefix of `s` that is either
      all of it or followed by a newline. */
  predicate TilesLine(s: string, tiled: string) {
    tiled <= s && (|tiled| < |s| ==> s[|tiled|] == '\n')
  }

  /** The groups of `GroupsAt` tile `s` from its start to a newline or the end:
      the text before, the date token, the `T` taken right after it, the time
      (empty when absent) and the text after, laid end to end. */
  lemma GroupsTileLine(s: string, i: nat, ignoreCase: bool)
    requires DateStartsAt(s, i)
    ensures TilesLine(s, GroupsAt(s, i, ignoreCase).Joined(MarkAt(s, i + |DateTokenAt(s, i).value.Text()|, ignoreCase)))
  {
    var t := TimeStart(s, i, ignoreCase);
    var te := TimeEnd(s, t);
    SpansTileLine(s, i, ignoreCase);
    JoinedTilesLine(s, GroupsAt(s, i, ignoreCase), s[..i], DateTokenAt(s, i).value, TimeTokenAt(s, t),
      s[te..LineEnd(s, te)], MarkAt(s, i + |DateTokenAt(s, i).value.Text()|, ignoreCase));
  }

  /** The spans `GroupsAt` cuts out of `s` (before the date, the date, the `T`,
      the time and the rest of the line) tile `s` up to a newline or the end. */
  lemma SpansTileLine(s: string, i: nat, ignoreCase: bool)
    requires DateStartsAt(s, i)
    ensures var t := TimeStart(s, i, ignoreCase);
      var te := TimeEnd(s, t);
      TilesLine(s, s[..i] + DateTokenAt(s, i).value.Text() + MarkAt(s, i + |DateTokenAt(s, i).value.Text()|, ignoreCase)
        + TimeTextAt(s, t) + s[te..LineEnd(s, te)])
  {
    var date := DateTokenAt(s, i).value;
    DateTokenAtSound(s, i);
    var e := i + |date.Text()|;
    var mark := MarkAt(s, e, ignoreCase);
    MarkAtSound(s, e, ignoreCase);
    var t := TimeStart(s, i, ignoreCase);
    assert t == e + |mark|;
    TimeGroupAt(s, t);
    var te := TimeEnd(s, t);
    PiecesTileLine(s, i, e, t, te, date.Text(), mark, TimeTextAt(s, t), s[te..LineEnd(s, te)]);
  }

  /** A match whose pieces tile `s` up to a newline or the end is itself such a
      tiling, once joined. */
  lemma JoinedTilesLine(s: string, m: DateMatch, before: string, date: DateToken, time: Option<TimeToken>, after: string, mark: string)
    requires m == DateMatch(before, date, time, after)
    requires TilesLine(s, before + date.Text() + mark + (if time.Some? then time.value.Text() else "") + after)
    ensures TilesLine(s, m.Joined(mark))
  {
  }

  /** Pieces that follow one another in `s` from `i` (`a` up to `e`, `b` up to
      `t`, `c` up to `te`), the last running to the end of its line, tile `s`
      with `s[..i]` up to a newline or the end. */
  lemma PiecesTileLine(s: string, i: nat, e: nat, t: nat, te: nat, a: string, b: string, c: string, d: string)
    requires StartsAt(s, i, a) && e == i + |a|
    requires StartsAt(s, e, b) && t == e + |b|
    requires StartsAt(s, t, c) && te == t + |c|
    requires d == s[te..LineEnd(s, te)]
    ensures TilesLine(s, s[..i] + a + b + c + d)
  {
    var n := LineEnd(s, te);
    SliceConcat5(s, 0, i, e, t, te, n);
    assert s[0..i] == s[..i];
    assert s[..i] + a + b + c + d == s[..n];
  }

  /** The text of the time group read at `t`, `''` when there is none. */
  function TimeTextAt(s: string, t: nat): string {
    var time := TimeTokenAt(s, t);
    if time.Some? then time.value.Text() else ""
  }

  /** The time group read at `t` occurs there, and the text after starts past it. */
  lemma TimeGroupAt(s: string, t: nat)
    requires t <= |s|
    ensures StartsAt(s, t, TimeTextAt(s, t)) && TimeEnd(s, t) == t + |TimeTextAt(s, t)|
  {
    if TimeTokenAt(s, t).None? {
      assert s[t..t] == "";
    }
  }

  /** Group `T?` at `e`: the `T` (either case when `ignoreCase`) when one is
      there, since the optional group is greedy and nothing after it needs it. */
  function MarkAt(s: string, e: nat, ignoreCase: bool): (mark: string)
    ensures |mark| <= 1
  {
    if e < |s| && (s[e] == 'T' || (ignoreCase && s[e] == 't')) then [s[e]] else []
  }

  /** What `GroupsAt` computes, step by step, once the position `j` where the time
      may start and the time token there are known. */
  lemma GroupsAtFrom(s: string, i: nat, ignoreCase: bool, j: nat, time: Option<TimeToken>, te: nat)
    requires DateStartsAt(s, i)
    requires var e := i + |DateTokenAt(s, i).value.Text()|;
      j == (if e < |s| && (s[e] == 'T' || (ignoreCase && s[e] == 't')) then e + 1 else e)
    requires TimeTokenAt(s, j) == time
    requires te == (if time.Some? then j + |time.value.Text()| else j)
    requires te <= |s|
    ensures GroupsAt(s, i, ignoreCase) == DateMatch(s[..i], DateTokenAt(s, i).value, time, s[te..LineEnd(s, te)])
  {
    assert TimeStart(s, i, ignoreCase) == j;
    assert TimeEnd(s, j) == te;
  }

  /** The optional `T` taken at `e` is really there. */
  lemma MarkAtSound(s: string, e: nat, ignoreCase: bool)
    requires e <= |s|
    ensures StartsAt(s, e, MarkAt(s, e, ignoreCase))
  {
  }

  /** The time group is the longest time token after the date and mark, and is
      absent only when no time token starts there. */
  lemma TimeGroupIsLongest(s: string, i: nat, ignoreCase: bool)
    requires DateStartsAt(s, i)
    ensures var m := GroupsAt(s, i, ignoreCase);
      var e := i + |DateTokenAt(s, i).value.Text()|;
      var j := e + |MarkAt(s, e, ignoreCase)|;
      forall t: TimeToken :: t.WellFormed() && StartsAt(s, j, t.Text()) ==>
        m.time.Some? && |t.Text()| <= |m.time.value.Text()|
  {
    var e := i + |DateTokenAt(s, i).value.Text()|;
    var j := e + |MarkAt(s, e, ignoreCase)|;
    assert TimeStart(s, i, ignoreCase) == j;
    var time := GroupsAt(s, i, ignoreCase).time;
    assert time == TimeTokenAt(s, j);
    forall t: TimeToken | t.WellFormed() && StartsAt(s, j, t.Text())
      ensures time.Some? && |t.Text()| <= |time.value.Text()|
    {
      TimeTokenLongest(s, j, t);
    }
  }

  /** `re.match` of the date pattern against `s`, as the extractor compiles it (no
      IGNORECASE), with its groups. */
  function MatchDate(s: string): (r: Option<DateMatch>)
    ensures r.Some? <==> HasDateToken(s)
  {
    match LastDateStart(s, LineEnd(s, 0))
    case None => None
    case Some(i) => Some(GroupsAt(s, i, false))
  }

  /** The pattern with a lazy leading group `(.*?)` and compiled with IGNORECASE:
      the date token is the FIRST one on the first line, and `T` may be `t`. */
  function MatchDateLazy(s: string): (r: Option<DateMatch>)
    ensures r.Some? <==> HasDateToken(s)
  {
    match FirstDateStart(s, LineEnd(s, 0))
    case None => None
    case Some(i) => Some(GroupsAt(s, i, true))
  }

  /** An occurrence of `a + b` is an occurrence of `a` followed by one of `b`. */
  lemma StartsAtSplit(s: string, i: nat, a: string, b: string)
    requires StartsAt(s, i, a + b)
    ensures StartsAt(s, i, a) && StartsAt(s, i + |a|, b)
  {
    assert s[i..i + |a|] == (a + b)[..|a|];
    assert s[i + |a|..i + |a| + |b|] == (a + b)[|a|..];
  }

  /** The date parser is complete: wherever a well-formed date token occurs, the
      parser finds exactly that token. So the date group at a position is unique. */
  lemma DateTokenUnique(s: string, i: nat, t: DateToken)
    requires t.WellFormed() && StartsAt(s, i, t.Text())
    ensures DateTokenAt(s, i) == Some(t)
  {
    var m := i + 4 + |t.sep1|;
    var d := m + 2 + |t.sep2|;
    DateTokenPieces(s, i, t);
    SepAtOf(s, i + 4, t.sep1, IsYearMonthSeparator);
    SepAtOf(s, m + 2, t.sep2, IsMonthDaySeparator);
    DateTokenAtOfPieces(s, i, t);
  }

  /** The date parser reads back a well-formed token from its pieces in place. */
  lemma DateTokenAtOfPieces(s: string, i: nat, t: DateToken)
    requires t.WellFormed()
    requires var m := i + 4 + |t.sep1|;
      var d := m + 2 + |t.sep2|;
      && d + 2 <= |s|
      && s[i..i + 4] == t.year && SepAt(s, i + 4, IsYearMonthSeparator) == t.sep1
      && s[m..m + 2] == t.month && SepAt(s, m + 2, IsMonthDaySeparator) == t.sep2
      && s[d..d + 2] == t.day
    ensures DateTokenAt(s, i) == Some(t)
  {
    var m := i + 4 + |t.sep1|;
    var d := m + 2 + |t.sep2|;
    assert s[m] == t.month[0] && s[m + 1] == t.month[1];
    assert s[d] == t.day[0] && s[d + 1] == t.day[1];
  }

  /** Where each piece of a date token sits once its text is known to be at `i`. */
  lemma DateTokenPieces(s: string, i: nat, t: DateToken)
    requires t.WellFormed() && StartsAt(s, i, t.Text())
    ensures var m := i + 4 + |t.sep1|;
      var d := m + 2 + |t.sep2|;
      && d + 2 <= |s|
      && s[i..i + 4] == t.year && StartsAt(s, i + 4, t.sep1)
      && s[m..m + 2] == t.month && StartsAt(s, m + 2, t.sep2)
      && s[d..d + 2] == t.day
  {
    StartsAtSplit(s, i, t.year + t.sep1 + t.month + t.sep2, t.day);
    StartsAtSplit(s, i, t.year + t.sep1 + t.month, t.sep2);
    StartsAtSplit(s, i, t.year + t.sep1, t.month);
    StartsAtSplit(s, i, t.year, t.sep1);
  }

  /** An optional separator in place, followed by a character that is no
      separator, is what `SepAt` takes. */
  lemma SepAtOf(s: string, j: nat, sep: string, p: char -> bool)
    requires OptionalChar(sep, p) && StartsAt(s, j, sep)
    requires j + |sep| < |s| && !p(s[j + |sep|])
    ensures SepAt(s, j, p) == sep
  {
    if |sep| == 1 {
      assert s[j] == sep[0];
    }
  }

  /** What `[0-5]?\d?` can take at `e` is never longer than what the greedy
      reading takes. */
  lemma TailAtLongest(s: string, e: nat, tail: string)
    requires e <= |s|
    requires |tail| <= 2 && AllDigits(tail) && (|tail| == 2 ==> '0' <= tail[0] <= '5')
    requires StartsAt(s, e, tail)
    ensures |tail| <= |TailAt(s, e)|
  {
    if |tail| >= 1 {
      assert s[e] == tail[0];
    }
    if |tail| == 2 {
      assert s[e + 1] == tail[1];
    }
  }

  /** The time parser returns the longest well-formed time token at `j`: whenever
      one occurs there, the parser finds one at least as long, with the same hour,
      separator and minute. */
  lemma TimeTokenLongest(s: string, j: nat, t: TimeToken)
    requires t.WellFormed() && StartsAt(s, j, t.Text())
    ensures TimeTokenAt(s, j).Some?
    ensures var r := TimeTokenAt(s, j).value;
      r.hour == t.hour && r.sep == t.sep && r.minute == t.minute && |t.Text()| <= |r.Text()|
  {
    StartsAtSplit(s, j, t.hour + t.sep + t.minute, t.tail);
    StartsAtSplit(s, j, t.hour + t.sep, t.minute);
    StartsAtSplit(s, j, t.hour, t.sep);
    var m := j + 2 + |t.sep|;
    assert s[j] == t.hour[0] && s[j + 1] == t.hour[1];
    assert s[m] == t.minute[0] && s[m + 1] == t.minute[1];
    if |t.sep| == 1 {
      assert s[j + 2] == t.sep[0];
    }
    assert SepAt(s, j + 2, IsTimeSeparator) == t.sep;
    TailAtLongest(s, m + 2, t.tail);
    var r := TimeToken(t.hour, t.sep, t.minute, TailAt(s, m + 2));
    assert |t.Text()| == |t.hour| + |t.sep| + |t.minute| + |t.tail|;
    assert |r.Text()| == |t.hour| + |t.sep| + |t.minute| + |r.tail|;
    assert TimeTokenAt(s, j) == Some(r);
  }

  /** A time token without separator, with no seconds tail or a two-digit one,
      and not followed by a further digit, is exactly what the time parser reads. */
  lemma TimeTokenAtExactly(s: string, j: nat, t: TimeToken)
    requires t.WellFormed() && t.sep == [] && (|t.tail| == 0 || |t.tail| == 2)
    requires StartsAt(s, j, t.Text())
    requires j + |t.Text()| < |s| ==> !IsDigit(s[j + |t.Text()|])
    ensures TimeTokenAt(s, j) == Some(t)
  {
    TimeTokenLongest(s, j, t);
    var r := TimeTokenAt(s, j).value;
    assert |t.tail| <= |r.tail|;
    StartsAtSplit(s, j, r.hour + r.sep + r.minute, r.tail);
    StartsAtSplit(s, j, t.hour + t.sep + t.minute, t.tail);
    assert r.tail == t.tail;
  }

  /** The groups `MatchDate` hands back are the ones the pattern defines: the text
      before the date has no newline and ends where the date token starts, no date
      token starts later on the first line (the leading `(.*)` is greedy), the date
      and the time are well-formed, and the text after runs up to a newline or the
      end. */
  lemma MatchDateGroups(s: string)
    requires MatchDate(s).Some?
    ensures var m := MatchDate(s).value;
      && |m.before| <= LineEnd(s, 0)
      && m.before == s[..|m.before|]
      && (forall k :: 0 <= k < |m.before| ==> m.before[k] != '\n')
      && DateTokenAt(s, |m.before|) == Some(m.date)
      && (forall k :: |m.before| < k <= LineEnd(s, 0) ==> !DateStartsAt(s, k))
      && m.date.WellFormed()
      && (m.time.Some? ==> m.time.value.WellFormed())
      && (forall k :: 0 <= k < |m.after| ==> m.after[k] != '\n')
      && m == GroupsAt(s, |m.before|, false)
  {
    var i := LastDateStart(s, LineEnd(s, 0)).value;
    var m := MatchDate(s).value;
    assert m == GroupsAt(s, i, false);
    assert |m.before| == i;
    forall k | 0 <= k < i ensures m.before[k] != '\n' {
      assert m.before[k] == s[k];
    }
    DateTokenAtSound(s, i);
  }

  /** The match's groups, with the `T` taken between the date and the time,
      tile the key up to a newline or the end. */
  lemma MatchDateTilesLine(s: string, m: DateMatch)
    requires MatchDate(s) == Some(m)
    ensures TilesLine(s, m.Joined(MarkAt(s, |m.before| + |m.date.Text()|, false)))
  {
    MatchDateAtStart(s);
    GroupsPlaced(s, |m.before|, false, m);
  }

  /** The match is `GroupsAt` at the position where its text before ends. */
  lemma MatchDateAtStart(s: string)
    requires MatchDate(s).Some?
    ensures var m := MatchDate(s).value;
      DateStartsAt(s, |m.before|) && m == GroupsAt(s, |m.before|, false)
  {
    var i := LastDateStart(s, LineEnd(s, 0)).value;
    assert MatchDate(s).value == GroupsAt(s, i, false);
  }

  /** `GroupsTileLine` in terms of the match's own groups. */
  lemma GroupsPlaced(s: string, i: nat, ignoreCase: bool, m: DateMatch)
    requires DateStartsAt(s, i) && m == GroupsAt(s, i, ignoreCase)
    ensures TilesLine(s, m.Joined(MarkAt(s, |m.before| + |m.date.Text()|, ignoreCase)))
  {
    assert |m.before| + |m.date.Text()| == i + |DateTokenAt(s, i).value.Text()|;
    GroupsTileLine(s, i, ignoreCase);
  }

  /** The lazy match's groups: the same shape, but no date token starts before
      the one it takes. */
  lemma MatchDateLazyGroups(s: string)
    requires MatchDateLazy(s).Some?
    ensures var m := MatchDateLazy(s).value;
      && |m.before| <= LineEnd(s, 0)
      && m.before == s[..|m.before|]
      && DateTokenAt(s, |m.before|) == Some(m.date)
      && (forall k :: 0 <= k < |m.before| ==> !DateStartsAt(s, k))
      && m.date.WellFormed()
      && (m.time.Some? ==> m.time.value.WellFormed())
      && m == GroupsAt(s, |m.before|, true)
  {
    var i := FirstDateStart(s, LineEnd(s, 0)).value;
    DateTokenAtSound(s, i);
  }

  lemma TwoDigits(s: string)
    requires |s| == 2 && IsDigit(s[0]) && IsDigit(s[1])
    ensures AllDigits(s)
  {
    forall k | 0 <= k < 2 ensures IsDigit(s[k]) {
      assert k == 0 || k == 1;
    }
  }

  lemma StripDigits(s: string)
    requires AllDigits(s)
    ensures Strip(s) == s
  {
    StripKeepsPlainText(s);
  }

  lemma StripOptionalSeparator(sep: string)
    requires |sep| <= 1 && (|sep| == 1 ==> IsSeparator(sep[0]))
    ensures Strip(sep) == []
  {
    StripDropsSeparators(sep);
  }

  /** Deleting the separators from date and time text leaves their digits. */
  lemma StripDateToken(t: DateToken)
    requires t.WellFormed()
    ensures Strip(t.Text()) == t.Digits()
  {
    forall k | 0 <= k < 4 ensures IsDigit(t.year[k]) {
      assert k == 0 || k == 1 || IsDigit(t.year[k]);
    }
    TwoDigits(t.month);
    TwoDigits(t.day);
    var a := t.year + t.sep1;
    var b := a + t.month;
    var c := b + t.sep2;
    assert Strip(a) == t.year by {
      StripAppend(t.year, t.sep1);
      StripDigits(t.year);
      StripOptionalSeparator(t.sep1);
    }
    assert Strip(b) == t.year + t.month by {
      StripAppend(a, t.month);
      StripDigits(t.month);
    }
    assert Strip(c) == t.year + t.month by {
      StripAppend(b, t.sep2);
      StripOptionalSeparator(t.sep2);
    }
    StripAppend(c, t.day);
    StripDigits(t.day);
  }

  lemma StripTimeToken(t: TimeToken)
    requires t.WellFormed()
    ensures Strip(t.Text()) == t.Digits()
  {
    TwoDigits(t.hour);
    TwoDigits(t.minute);
    StripDigits(t.hour);
    StripDigits(t.minute);
    StripDigits(t.tail);
    StripOptionalSeparator(t.sep);
    StripAppend(t.hour + t.sep + t.minute, t.tail);
    StripAppend(t.hour + t.sep, t.minute);
    StripAppend(t.hour, t.sep);
  }

  /** The characters of a date token are digits and separators: no letter of
      either case. */
  lemma DateTextHasNoLetters(t: DateToken)
    requires t.WellFormed()
    ensures forall k :: 0 <= k < |t.Text()| ==> !IsUpper(t.Text()[k]) && !('a' <= t.Text()[k] <= 'z')
  {
    forall k | 0 <= k < |t.Text()| ensures !IsUpper(t.Text()[k]) && !('a' <= t.Text()[k] <= 'z') {
      var n1 := |t.year|;
      var n2 := n1 + |t.sep1|;
      var n3 := n2 + |t.month|;
      var n4 := n3 + |t.sep2|;
      if k < n1 {
        assert t.Text()[k] == t.year[k];
      } else if k < n2 {
        assert t.Text()[k] == t.sep1[k - n1];
      } else if k < n3 {
        assert t.Text()[k] == t.month[k - n2];
      } else if k < n4 {
        assert t.Text()[k] == t.sep2[k - n3];
      } else {
        assert t.Text()[k] == t.day[k - n4];
      }
    }
  }

  /** A date token in a string is still there, unchanged, once the string is
      lower-cased. */
  lemma DateTokenAtOfLower(s: string, i: nat)
    requires DateTokenAt(s, i).Some?
    ensures DateTokenAt(Lower(s), i) == DateTokenAt(s, i)
  {
    var t := DateTokenAt(s, i).value;
    DateTokenAtSound(s, i);
    DateTextHasNoLetters(t);
    var n := |t.Text()|;
    forall k | 0 <= k < n ensures Lower(s)[i + k] == t.Text()[k] {
      assert s[i..i + n][k] == s[i + k];
    }
    assert Lower(s)[i..i + n] == t.Text();
    DateTokenUnique(Lower(s), i, t);
  }

  /** A date token in a lower-cased string was already there before. */
  lemma DateTokenAtBeforeLower(s: string, i: nat)
    requires DateTokenAt(Lower(s), i).Some?
    ensures DateTokenAt(s, i) == DateTokenAt(Lower(s), i)
  {
    var t := DateTokenAt(Lower(s), i).value;
    DateTokenAtSound(Lower(s), i);
    DateTextHasNoLetters(t);
    var n := |t.Text()|;
    forall k | 0 <= k < n ensures s[i + k] == t.Text()[k] {
      assert Lower(s)[i..i + n][k] == Lower(s)[i + k];
    }
    assert s[i..i + n] == t.Text();
    DateTokenUnique(s, i, t);
  }

  /** Lower-casing a string does not change whether the pattern matches it. */
  lemma HasDateTokenOfLower(s: string)
    ensures HasDateToken(Lower(s)) <==> HasDateToken(s)
  {
    if HasDateToken(s) {
      LowerKeepsDateToken(s);
    }
    if HasDateToken(Lower(s)) {
      LowerAddsNoDateToken(s);
    }
  }

  lemma LowerKeepsDateToken(s: string)
    requires HasDateToken(s)
    ensures HasDateToken(Lower(s))
  {
    var i :| 0 <= i <= LineEnd(s, 0) && DateStartsAt(s, i);
    DateTokenAtOfLower(s, i);
    LineEndOfLower(s, 0);
    assert 0 <= i <= LineEnd(Lower(s), 0) && DateStartsAt(Lower(s), i);
  }

  lemma LowerAddsNoDateToken(s: string)
    requires HasDateToken(Lower(s))
    ensures HasDateToken(s)
  {
    var i :| 0 <= i <= LineEnd(Lower(s), 0) && DateStartsAt(Lower(s), i);
    DateTokenAtBeforeLower(s, i);
    LineEndOfLower(s, 0);
    assert 0 <= i <= LineEnd(s, 0) && DateStartsAt(s, i);
  }
}
