/** Searches and order-preserving selection over sequences, the shapes of the
    source's `for` loops. */
module Sequences {
  import opened Wrappers

  /** The greatest `k <= hi` with `p(k)`: a search that starts at `hi` and walks
      down, the way a greedy `(.*)` gives back characters one at a time. */
  function LastSatisfying(hi: nat, p: nat -> bool): (r: Option<nat>)
    ensures r.Some? ==> r.value <= hi && p(r.value)
    ensures r.Some? ==> forall k :: r.value < k <= hi ==> !p(k)
    ensures r.None? ==> forall k :: 0 <= k <= hi ==> !p(k)
  {
    if p(hi) then Some(hi)
    else if hi == 0 then None
    else LastSatisfying(hi - 1, p)
  }

  /** The least `k` with `lo <= k <= hi` and `p(k)`: a search that starts at `lo`
      and walks up, the way a lazy `(.*?)` takes characters one at a time. */
  function FirstSatisfying(lo: nat, hi: nat, p: nat -> bool): (r: Option<nat>)
    ensures r.Some? ==> lo <= r.value <= hi && p(r.value)
    ensures r.Some? ==> forall k :: lo <= k < r.value ==> !p(k)
    ensures r.None? ==> forall k :: lo <= k <= hi ==> !p(k)
    decreases hi - lo
  {
    if hi < lo then None
    else if p(lo) then Some(lo)
    else FirstSatisfying(lo + 1, hi, p)
  }

  /** The position of the first element of `s` satisfying `p`, or `|s|` when none
      does: a `for` loop that breaks at the first hit. */
  function FirstIndex<T>(s: seq<T>, p: T -> bool): (k: nat)
    ensures k <= |s|
    ensures k < |s| ==> p(s[k])
    ensures forall j :: 0 <= j < k ==> !p(s[j])
  {
    if |s| == 0 then 0
    else if p(s[0]) then 0
    else 1 + FirstIndex(s[1..], p)
  }

  /** The elements of `s` that satisfy `p`, in their order in `s`. */
  function Filter<T>(s: seq<T>, p: T -> bool): (r: seq<T>)
    ensures |r| <= |s|
    ensures forall k :: 0 <= k < |r| ==> r[k] in s && p(r[k])
    ensures forall k :: 0 <= k < |s| && p(s[k]) ==> s[k] in r
  {
    if |s| == 0 then []
    else if p(s[0]) then [s[0]] + Filter(s[1..], p)
    else Filter(s[1..], p)
  }

  /** Filtering a concatenation filters each part and keeps them in order. */
  lemma {:induction false} FilterAppend<T>(a: seq<T>, b: seq<T>, p: T -> bool)
    ensures Filter(a + b, p) == Filter(a, p) + Filter(b, p)
  {
    if |a| == 0 {
      assert a + b == b;
    } else {
      assert (a + b)[1..] == a[1..] + b;
      FilterAppend(a[1..], b, p);
    }
  }

  /** `idx` lists positions of `s`, strictly increasing, that spell out `r`. */
  ghost predicate Embeds<T>(idx: seq<nat>, r: seq<T>, s: seq<T>) {
    && |idx| == |r|
    && (forall k :: 0 <= k < |idx| ==> idx[k] < |s| && s[idx[k]] == r[k])
    && (forall j, k :: 0 <= j < k < |idx| ==> idx[j] < idx[k])
  }

  /** Every position of `s` whose element satisfies `p` is listed in `idx`. */
  ghost predicate Covers<T>(idx: seq<nat>, s: seq<T>, p: T -> bool) {
    forall j :: 0 <= j < |s| && p(s[j]) ==> j in idx
  }

  function Shift(idx: seq<nat>): (r: seq<nat>)
    ensures |r| == |idx|
    ensures forall k :: 0 <= k < |idx| ==> r[k] == idx[k] + 1
  {
    seq(|idx|, k requires 0 <= k < |idx| => idx[k] + 1)
  }

  lemma EmbedsShift<T>(idx: seq<nat>, r: seq<T>, s: seq<T>)
    requires |s| > 0 && Embeds(idx, r, s[1..])
    ensures Embeds(Shift(idx), r, s)
    ensures forall k :: 0 <= k < |idx| ==> Shift(idx)[k] > 0
  {
    forall k | 0 <= k < |idx| ensures s[Shift(idx)[k]] == r[k] {
      assert s[1..][idx[k]] == s[idx[k] + 1];
    }
  }

  lemma EmbedsCons<T>(idx: seq<nat>, r: seq<T>, s: seq<T>)
    requires |s| > 0 && Embeds(idx, r, s)
    requires forall k :: 0 <= k < |idx| ==> idx[k] > 0
    ensures Embeds([0] + idx, [s[0]] + r, s)
  {
    var full := [0] + idx;
    forall j, k | 0 <= j < k < |full| ensures full[j] < full[k] {
      if j > 0 {
        assert full[j] == idx[j - 1] && full[k] == idx[k - 1];
      }
    }
  }

  /** The positions of `s` whose elements satisfy `p`, in increasing order. */
  function FilterPositions<T>(s: seq<T>, p: T -> bool): (idx: seq<nat>)
    ensures |idx| == |Filter(s, p)|
  {
    if |s| == 0 then []
    else if p(s[0]) then [0] + Shift(FilterPositions(s[1..], p))
    else Shift(FilterPositions(s[1..], p))
  }

  /** The positions spell out the filter's result, in order. */
  lemma {:induction false} FilterPositionsEmbed<T>(s: seq<T>, p: T -> bool)
    ensures Embeds(FilterPositions(s, p), Filter(s, p), s)
  {
    if |s| > 0 {
      var rest := FilterPositions(s[1..], p);
      FilterPositionsEmbed(s[1..], p);
      EmbedsShift(rest, Filter(s[1..], p), s);
      if p(s[0]) {
        EmbedsCons(Shift(rest), Filter(s[1..], p), s);
      }
    }
  }

  /** Every position whose element satisfies `p` is among the positions. */
  lemma {:induction false} FilterPositionsCover<T>(s: seq<T>, p: T -> bool)
    ensures Covers(FilterPositions(s, p), s, p)
  {
    if |s| > 0 {
      var rest := FilterPositions(s[1..], p);
      var shifted := Shift(rest);
      FilterPositionsCover(s[1..], p);
      forall j | 0 < j < |s| && p(s[j]) ensures j in shifted {
        assert s[1..][j - 1] == s[j];
        assert j - 1 in rest;
        var k :| 0 <= k < |rest| && rest[k] == j - 1;
        assert shifted[k] == j;
      }
      if p(s[0]) {
        var full := [0] + shifted;
        forall j | 0 <= j < |s| && p(s[j]) ensures j in full {
          if j > 0 {
            assert j in shifted;
          } else {
            assert full[0] == 0;
          }
        }
      }
    }
  }

  /** The filter's result is exactly the selected elements taken at increasing
      positions of `s`: every selected position is used, in order. */
  lemma FilterKeepsOrder<T>(s: seq<T>, p: T -> bool)
    ensures exists idx :: Embeds(idx, Filter(s, p), s) && Covers(idx, s, p)
  {
    FilterPositionsEmbed(s, p);
    FilterPositionsCover(s, p);
  }
}
