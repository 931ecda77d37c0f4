/** `extractDateValueAttributes`: one feature's attributes reshaped into six
    series of (timestamp, value) pairs. A key whose lower-cased text carries a date
    contributes one entry; the text around the date decides the series. */
module Extraction {
  import opened Wrappers
  import opened Text
  import opened Sequences
  import opened VectorLayer
  import opened DatePattern
  import opened Timestamps

  /** Line of sight, horizontal, vertical. */
  datatype Component = Los | H | V

  /** One of the six series: a component, plain or its `_sigma` uncertainty. */
  datatype BucketId = BucketId(component: Component, sigma: bool)

  /** The series a tag selects: `_sigma` when the tag names an uncertainty; `los`
      when the tag is empty or mentions `los`, else `h` when it contains the letter
      h anywhere, else `v` when it contains v anywhere, else `los` again. */
  function Route(tag: string): (id: BucketId)
    ensures id.sigma <==> HasUncertaintyKeyword(tag)
    ensures id.component == H <==> |tag| > 0 && !Contains(tag, "los") && Contains(tag, "h")
    ensures id.component == V <==>
      |tag| > 0 && !Contains(tag, "los") && !Contains(tag, "h") && Contains(tag, "v")
    ensures id.component == Los <==>
      |tag| == 0 || Contains(tag, "los") || (!Contains(tag, "h") && !Contains(tag, "v"))
  {
    var sigma := HasUncertaintyKeyword(tag);
    if |tag| == 0 || Contains(tag, "los") then BucketId(Los, sigma)
    else if Contains(tag, "h") then BucketId(H, sigma)
    else if Contains(tag, "v") then BucketId(V, sigma)
    else BucketId(Los, sigma)
  }

  type Entry<F> = (DateTime, F)

  /** The six series, each in the order its entries were added. */
  datatype Buckets<F> = Buckets(
    los: seq<Entry<F>>, h: seq<Entry<F>>, v: seq<Entry<F>>,
    losSigma: seq<Entry<F>>, hSigma: seq<Entry<F>>, vSigma: seq<Entry<F>>)
  {
    function Get(id: BucketId): seq<Entry<F>> {
      match id
      case BucketId(Los, false) => los
      case BucketId(H, false) => h
      case BucketId(V, false) => v
      case BucketId(Los, true) => losSigma
      case BucketId(H, true) => hSigma
      case BucketId(V, true) => vSigma
    }

    /** Number of entries over all six series. */
    function Size(): nat {
      |los| + |h| + |v| + |losSigma| + |hSigma| + |vSigma|
    }

    /** Appends `e` to series `id`; the other five are untouched. */
    function Add(id: BucketId, e: Entry<F>): (b: Buckets<F>)
      ensures b.Get(id) == Get(id) + [e]
      ensures forall other :: other != id ==> b.Get(other) == Get(other)
      ensures b.Size() == Size() + 1
    {
      match id
      case BucketId(Los, false) => this.(los := los + [e])
      case BucketId(H, false) => this.(h := h + [e])
      case BucketId(V, false) => this.(v := v + [e])
      case BucketId(Los, true) => this.(losSigma := losSigma + [e])
      case BucketId(H, true) => this.(hSigma := hSigma + [e])
      case BucketId(V, true) => this.(vSigma := vSigma + [e])
    }
  }

  function EmptyBuckets<F>(): (b: Buckets<F>)
    ensures forall id :: b.Get(id) == []
    ensures b.Size() == 0
  {
    Buckets([], [], [], [], [], [])
  }

  /** What the loop body makes of one key. */
  datatype KeyReading =
    | NotDated                                  // no match: the key is skipped
    | Dated(stamp: DateTime, bucket: BucketId)
    | UnsupportedLength(length: nat)            // the length table has no entry: `KeyError`
    | InvalidTimestamp(digits: string)          // `strptime` refuses the digits: `ValueError`

  predicate IsRejected(r: KeyReading) {
    r.UnsupportedLength? || r.InvalidTimestamp?
  }

  /** The digits of date and time: group 2 and group 4 with separators deleted. */
  function DigitString(m: DateMatch): string {
    Strip(m.date.Text() + m.TimeText())
  }

  /** The text around the date and time with separators deleted. */
  function Tag(m: DateMatch): string {
    Strip(m.before + m.after)
  }

  /** The loop body after a successful match: the format chosen by digit count,
      the parse, and the series chosen by the tag. */
  function ReadMatch(m: DateMatch): (r: KeyReading)
    ensures r != NotDated
    ensures r.UnsupportedLength? <==> FormatFor(|DigitString(m)|).None?
    ensures r.UnsupportedLength? ==> r.length == |DigitString(m)|
    ensures r.InvalidTimestamp? <==>
      FormatFor(|DigitString(m)|).Some? && Strptime(DigitString(m), FormatFor(|DigitString(m)|).value).None?
    ensures r.InvalidTimestamp? ==> r.digits == DigitString(m)
    ensures r.Dated? ==> r.bucket == Route(Tag(m))
    ensures r.Dated? ==> Strptime(DigitString(m), FormatFor(|DigitString(m)|).value) == Some(r.stamp)
  {
    var digits := DigitString(m);
    var f := FormatFor(|digits|);
    if f.None? then UnsupportedLength(|digits|)
    else
      var t := Strptime(digits, f.value);
      if t.None? then InvalidTimestamp(digits)
      else Dated(t.value, Route(Tag(m)))
  }

  /** One key as the source reads it: the date pattern, greedy and
      case-sensitive, matched against the lower-cased key. */
  function ReadKeyAsWritten(key: string): (r: KeyReading)
    ensures r.NotDated? <==> !HasDateToken(Lower(key))
  {
    match MatchDate(Lower(key))
    case None => NotDated
    case Some(m) => ReadMatch(m)
  }

  /** One key, read with the first date token on the line and a `T` of either
      case before the time. */
  function ReadKey(key: string): (r: KeyReading)
    ensures r.NotDated? <==> !HasDateToken(Lower(key))
  {
    match MatchDateLazy(Lower(key))
    case None => NotDated
    case Some(m) => ReadMatch(m)
  }

  /** The digits of a well-formed match: eight for the date, and for a time four
      more plus whatever `[0-5]?\d?` took. */
  lemma DigitStringLength(m: DateMatch)
    requires m.date.WellFormed() && (m.time.Some? ==> m.time.value.WellFormed())
    ensures |DigitString(m)| == 8 + (if m.time.Some? then 4 + |m.time.value.tail| else 0)
  {
    StripDateToken(m.date);
    StripAppend(m.date.Text(), m.TimeText());
    if m.time.Some? {
      StripTimeToken(m.time.value);
    } else {
      assert Strip(m.TimeText()) == [];
    }
  }

  /** The length table leaves out a single case the pattern lets through: a time
      whose seconds have one digit, thirteen digits in all, for which the lookup
      raises `KeyError`. */
  lemma OnlyThirteenDigitsLackAFormat(key: string)
    ensures ReadKeyAsWritten(key).UnsupportedLength? ==> ReadKeyAsWritten(key).length == 13
    ensures ReadKey(key).UnsupportedLength? ==> ReadKey(key).length == 13
  {
    var s := Lower(key);
    if MatchDate(s).Some? {
      MatchDateGroups(s);
      DigitStringLength(MatchDate(s).value);
    }
    if MatchDateLazy(s).Some? {
      MatchDateLazyGroups(s);
      DigitStringLength(MatchDateLazy(s).value);
    }
  }

  datatype ExtractError =
    | NoFormatForLength(key: string, length: nat)
    | NotACalendarTimestamp(key: string, digits: string)

  /** The exception a rejected key raises. */
  function Rejection(key: string, r: KeyReading): ExtractError
    requires IsRejected(r)
  {
    if r.UnsupportedLength? then NoFormatForLength(key, r.length)
    else NotACalendarTimestamp(key, r.digits)
  }

  /** `float(value)`, falling back to `nan` where the conversion raises. */
  function Coerce<V, F>(value: V, toFloat: V -> Option<F>, nan: F): F {
    match toFloat(value)
    case Some(x) => x
    case None => nan
  }

  /** The loop of `extractDateValueAttributes` with the per-key step `read` as a
      parameter: keys are read in iteration order, a dated key's entry goes to the
      end of its series, and the first rejected key ends the loop with its
      exception. */
  function Fold<V, F>(attributes: Dict<V>, read: string -> KeyReading, toFloat: V -> Option<F>, nan: F)
    : Result<Buckets<F>, ExtractError>
  {
    if |attributes| == 0 then Success(EmptyBuckets())
    else
      var last := attributes[|attributes| - 1];
      match Fold(attributes[..|attributes| - 1], read, toFloat, nan)
      case Failure(e) => Failure(e)
      case Success(b) =>
        var reading := read(last.0);
        if reading.NotDated? then Success(b)
        else if IsRejected(reading) then Failure(Rejection(last.0, reading))
        else Success(b.Add(reading.bucket, (reading.stamp, Coerce(last.1, toFloat, nan))))
  }

  /** The reference series: for each key in iteration order that is read as dated
      and routed to `id`, its timestamp and its coerced value. */
  function Entries<V, F>(attributes: Dict<V>, read: string -> KeyReading, id: BucketId, toFloat: V -> Option<F>, nan: F)
    : seq<Entry<F>>
  {
    if |attributes| == 0 then []
    else
      EntryOf(attributes[0], read, id, toFloat, nan) + Entries(attributes[1..], read, id, toFloat, nan)
  }

  /** The contribution of one item to series `id`. */
  function EntryOf<V, F>(item: (string, V), read: string -> KeyReading, id: BucketId, toFloat: V -> Option<F>, nan: F)
    : seq<Entry<F>>
  {
    var reading := read(item.0);
    if reading.Dated? && reading.bucket == id then [(reading.stamp, Coerce(item.1, toFloat, nan))] else []
  }

  lemma {:induction false} EntriesSnoc<V, F>(
    attributes: Dict<V>, item: (string, V), read: string -> KeyReading, id: BucketId, toFloat: V -> Option<F>, nan: F)
    ensures Entries(attributes + [item], read, id, toFloat, nan)
      == Entries(attributes, read, id, toFloat, nan) + EntryOf(item, read, id, toFloat, nan)
  {
    if |attributes| == 0 {
      assert attributes + [item] == [item];
    } else {
      assert (attributes + [item])[1..] == attributes[1..] + [item];
      EntriesSnoc(attributes[1..], item, read, id, toFloat, nan);
    }
  }

  /** The loop succeeds exactly when no key is rejected; when it fails, it fails
      with the exception of the first rejected key. */
  lemma {:induction false} FoldFailsOnFirstRejectedKey<V, F>(
    attributes: Dict<V>, read: string -> KeyReading, toFloat: V -> Option<F>, nan: F)
    ensures var r := Fold(attributes, read, toFloat, nan);
      r.Success? <==> forall k :: 0 <= k < |attributes| ==> !IsRejected(read(attributes[k].0))
    ensures var r := Fold(attributes, read, toFloat, nan);
      r.Failure? ==>
        (exists k :: 0 <= k < |attributes| && IsRejected(read(attributes[k].0))
          && (forall j :: 0 <= j < k ==> !IsRejected(read(attributes[j].0)))
          && r.error == Rejection(attributes[k].0, read(attributes[k].0)))
  {
    if |attributes| > 0 {
      var n := |attributes| - 1;
      var prefix := attributes[..n];
      FoldFailsOnFirstRejectedKey(prefix, read, toFloat, nan);
      assert forall k :: 0 <= k < n ==> prefix[k] == attributes[k];
      var r := Fold(attributes, read, toFloat, nan);
      if Fold(prefix, read, toFloat, nan).Failure? {
        var k :| 0 <= k < n && IsRejected(read(prefix[k].0))
          && (forall j :: 0 <= j < k ==> !IsRejected(read(prefix[j].0)))
          && r.error == Rejection(prefix[k].0, read(prefix[k].0));
        assert IsRejected(read(attributes[k].0));
      } else if IsRejected(read(attributes[n].0)) {
        assert r.Failure?;
      }
    }
  }

  /** On success each series holds exactly the reference entries for it. */
  lemma {:induction false} FoldBuildsEntries<V, F>(
    attributes: Dict<V>, read: string -> KeyReading, toFloat: V -> Option<F>, nan: F)
    requires Fold(attributes, read, toFloat, nan).Success?
    ensures forall id ::
      Fold(attributes, read, toFloat, nan).value.Get(id) == Entries(attributes, read, id, toFloat, nan)
  {
    if |attributes| > 0 {
      var n := |attributes| - 1;
      var prefix := attributes[..n];
      var item := attributes[n];
      FoldBuildsEntries(prefix, read, toFloat, nan);
      assert prefix + [item] == attributes;
      forall id ensures Fold(attributes, read, toFloat, nan).value.Get(id) == Entries(attributes, read, id, toFloat, nan) {
        EntriesSnoc(prefix, item, read, id, toFloat, nan);
      }
    }
  }

  /** On success there is one entry for every key `read` does not skip. */
  lemma {:induction false} FoldKeepsEveryDatedKey<V, F>(
    attributes: Dict<V>, read: string -> KeyReading, dated: ((string, V)) -> bool, toFloat: V -> Option<F>, nan: F)
    requires forall item :: dated(item) <==> !read(item.0).NotDated?
    requires Fold(attributes, read, toFloat, nan).Success?
    ensures Fold(attributes, read, toFloat, nan).value.Size() == |Filter(attributes, dated)|
  {
    if |attributes| > 0 {
      var n := |attributes| - 1;
      var prefix := attributes[..n];
      var item := attributes[n];
      FoldKeepsEveryDatedKey(prefix, read, dated, toFloat, nan);
      assert prefix + [item] == attributes;
      FilterAppend(prefix, [item], dated);
    }
  }

  predicate IsDatedItem<V>(item: (string, V)) {
    HasDateToken(Lower(item.0))
  }

  /** `extractDateValueAttributes` exactly as written: every key read with the
      greedy, case-sensitive pattern. */
  function ExtractDateValueAttributesAsWritten<V, F>(attributes: Dict<V>, toFloat: V -> Option<F>, nan: F)
    : (r: Result<Buckets<F>, ExtractError>)
    ensures r.Success? <==> forall k :: 0 <= k < |attributes| ==> !IsRejected(ReadKeyAsWritten(attributes[k].0))
    ensures r.Failure? ==>
      (exists k :: 0 <= k < |attributes| && IsRejected(ReadKeyAsWritten(attributes[k].0))
        && (forall j :: 0 <= j < k ==> !IsRejected(ReadKeyAsWritten(attributes[j].0)))
        && r.error == Rejection(attributes[k].0, ReadKeyAsWritten(attributes[k].0)))
    ensures r.Success? ==> forall id :: r.value.Get(id) == Entries(attributes, ReadKeyAsWritten, id, toFloat, nan)
    ensures r.Success? ==> r.value.Size() == |Filter(attributes, IsDatedItem)|
  {
    var r := Fold(attributes, ReadKeyAsWritten, toFloat, nan);
    FoldFailsOnFirstRejectedKey(attributes, ReadKeyAsWritten, toFloat, nan);
    if r.Failure? then r
    else
      FoldBuildsEntries(attributes, ReadKeyAsWritten, toFloat, nan);
      FoldKeepsEveryDatedKey(attributes, ReadKeyAsWritten, IsDatedItem, toFloat, nan);
      r
  }

  /** `extractDateValueAttributes` as evidently intended: every key read with the
      first date token on its line and a `T` of either case (the corrections of
      `ReadKey`). The dict is given as its items in iteration order, with `float`
      as `toFloat` and NaN as `nan`. It fails exactly when a key
      is rejected, with the exception of the first one; otherwise every key that
      matches the date pattern adds one entry, and each series holds the entries
      of the keys routed to it, in iteration order. */
  function ExtractDateValueAttributes<V, F>(attributes: Dict<V>, toFloat: V -> Option<F>, nan: F)
    : (r: Result<Buckets<F>, ExtractError>)
    ensures r.Success? <==> forall k :: 0 <= k < |attributes| ==> !IsRejected(ReadKey(attributes[k].0))
    ensures r.Failure? ==>
      (exists k :: 0 <= k < |attributes| && IsRejected(ReadKey(attributes[k].0))
        && (forall j :: 0 <= j < k ==> !IsRejected(ReadKey(attributes[j].0)))
        && r.error == Rejection(attributes[k].0, ReadKey(attributes[k].0)))
    ensures r.Success? ==> forall id :: r.value.Get(id) == Entries(attributes, ReadKey, id, toFloat, nan)
    ensures r.Success? ==> r.value.Size() == |Filter(attributes, IsDatedItem)|
  {
    var r := Fold(attributes, ReadKey, toFloat, nan);
    FoldFailsOnFirstRejectedKey(attributes, ReadKey, toFloat, nan);
    if r.Failure? then r
    else
      FoldBuildsEntries(attributes, ReadKey, toFloat, nan);
      FoldKeepsEveryDatedKey(attributes, ReadKey, IsDatedItem, toFloat, nan);
      r
  }
}
