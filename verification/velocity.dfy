/** `getVectorVelocityFieldName`: which field of a layer holds the velocity.
    A field is a candidate when its name matches the velocity pattern and names no
    uncertainty; several candidates are narrowed by a walk over a fixed preference
    list. */
module Velocity {
  import opened Wrappers
  import opened Text
  import opened VectorLayer
  import opened Sequences

  /** The case-insensitive literal `lit` (given in lower case) at position `i`. */
  predicate LiteralAt(s: string, i: nat, lit: string) {
    i + |lit| <= |s| && Lower(s[i..i + |lit|]) == lit
  }

  /** `a.?b`: `a`, then at most one character other than a newline, then `b`. */
  predicate GapAt(s: string, i: nat, a: string, b: string) {
    && LiteralAt(s, i, a)
    && (|| LiteralAt(s, i + |a|, b)
        || (i + |a| < |s| && s[i + |a|] != '\n' && LiteralAt(s, i + |a| + 1, b)))
  }

  /** The alternation `vel|deformation.?rate|mean.?deformation` at position `i`. */
  predicate KeywordAt(s: string, i: nat) {
    || LiteralAt(s, i, "vel")
    || GapAt(s, i, "deformation", "rate")
    || GapAt(s, i, "mean", "deformation")
  }

  /** `re.match(r'(.*)(vel|deformation.?rate|mean.?deformation)(.*)', name, re.IGNORECASE)`
      succeeds: the keyword starts somewhere the leading `(.*)` can reach, that is,
      before the first newline. The trailing `(.*)` may match the empty string, so
      it never makes the match fail. */
  predicate HasVelocityKeyword(name: string) {
    exists i :: 0 <= i <= LineEnd(name, 0) && KeywordAt(name, i)
  }

  /** The uncertainty test is case-sensitive, on the name as written. */
  predicate IsCandidate(name: string) {
    HasVelocityKeyword(name) && !HasUncertaintyKeyword(name)
  }

  /** The `matches` list: the candidate names, kept in field order. */
  function Candidates(names: seq<string>): (c: seq<string>)
    ensures forall x :: x in c <==> x in names && IsCandidate(x)
  {
    Filter(names, IsCandidate)
  }

  /** The candidates are the candidate names taken at increasing positions of the
      field list, and no candidate position is skipped. */
  lemma CandidatesKeepFieldOrder(names: seq<string>)
    ensures exists idx :: Embeds(idx, Candidates(names), names) && Covers(idx, names, IsCandidate)
  {
    FilterKeepsOrder(names, IsCandidate);
  }

  /** The tie-break preferences, in the order the source tries them. */
  const Preferences: seq<string> := ["velocity", "VEL", "mean_velocity", "deformation rate"]

  /** Some candidate contains `sub` (case-sensitive). */
  predicate OccursIn(sub: string, cands: seq<string>) {
    exists k :: 0 <= k < |cands| && Contains(cands[k], sub)
  }

  /** The inner `for match in matches` loop: position of the first candidate that
      contains `sub`, or `|cands|` when none does. */
  function FirstContaining(cands: seq<string>, sub: string): (k: nat)
    ensures k <= |cands|
    ensures k < |cands| ==> Contains(cands[k], sub)
    ensures forall j :: 0 <= j < k ==> !Contains(cands[j], sub)
  {
    if |cands| == 0 then 0
    else if Contains(cands[0], sub) then 0
    else 1 + FirstContaining(cands[1..], sub)
  }

  /** The outer `for ... else: break` loop: each preference that occurs in some
      candidate replaces the choice by the first candidate containing it; the
      first preference that occurs nowhere ends the walk. */
  function PreferenceWalk(prefs: seq<string>, cands: seq<string>, chosen: string): (r: string)
    ensures r == chosen || r in cands
  {
    if |prefs| == 0 then chosen
    else
      var k := FirstContaining(cands, prefs[0]);
      if k < |cands| then PreferenceWalk(prefs[1..], cands, cands[k]) else chosen
  }

  /** Length of the longest prefix of `prefs` whose every element occurs in some
      candidate. */
  function PresentPrefixLength(prefs: seq<string>, cands: seq<string>): (n: nat)
    ensures n <= |prefs|
    ensures forall j :: 0 <= j < n ==> OccursIn(prefs[j], cands)
    ensures n < |prefs| ==> !OccursIn(prefs[n], cands)
  {
    if |prefs| == 0 || !OccursIn(prefs[0], cands) then 0
    else 1 + PresentPrefixLength(prefs[1..], cands)
  }

  lemma FirstContainingFindsOccurrence(cands: seq<string>, sub: string)
    ensures FirstContaining(cands, sub) < |cands| <==> OccursIn(sub, cands)
  {
  }

  /** The walk ends on the first candidate containing the last preference of the
      longest all-present prefix, and leaves the starting choice alone when even
      the first preference occurs nowhere. */
  lemma {:induction false} PreferenceWalkPicksLastPresent(prefs: seq<string>, cands: seq<string>, chosen: string)
    ensures var n := PresentPrefixLength(prefs, cands);
      PreferenceWalk(prefs, cands, chosen)
        == if n == 0 then chosen else cands[FirstContaining(cands, prefs[n - 1])]
  {
    if |prefs| > 0 {
      FirstContainingFindsOccurrence(cands, prefs[0]);
      if OccursIn(prefs[0], cands) {
        var k := FirstContaining(cands, prefs[0]);
        PreferenceWalkPicksLastPresent(prefs[1..], cands, cands[k]);
        var n' := PresentPrefixLength(prefs[1..], cands);
        if n' > 0 {
          assert prefs[1..][n' - 1] == prefs[n'];
        }
      }
    }
  }

  /** The choice among the candidates: none, the only one, or the tie-break with
      the first candidate as the starting choice. */
  function SelectVelocityField(cands: seq<string>): (r: Option<string>)
    ensures r.None? <==> |cands| == 0
    ensures |cands| == 1 ==> r == Some(cands[0])
    ensures r.Some? ==> r.value in cands
  {
    if |cands| == 0 then None
    else if |cands| > 1 then Some(PreferenceWalk(Preferences, cands, cands[0]))
    else Some(cands[0])
  }

  const NoVelocityFieldMessage: string :=
    "<span style=\"color:red;\">Invalid Layer: Please select a vector layer with valid velocity field.</span>"

  /** `getVectorVelocityFieldName`: the chosen field name (or `None`) and a
      message that is empty exactly when a field was found. */
  function GetVectorVelocityFieldName(layer: Layer): (r: (Option<string>, string))
    ensures r.0.None? <==> forall x :: x in GetVectorFields(layer) ==> !IsCandidate(x)
    ensures r.0.None? ==> r.1 == NoVelocityFieldMessage
    ensures r.0.Some? ==> r.1 == "" && r.0.value in GetVectorFields(layer) && IsCandidate(r.0.value)
  {
    var cands := Candidates(GetVectorFields(layer));
    var name := SelectVelocityField(cands);
    assert name.None? ==> forall x :: x in GetVectorFields(layer) ==> x !in cands;
    (name, if name.None? then NoVelocityFieldMessage else "")
  }

  /** The tie-break as a rule over the candidate list, with no loop in sight: when
      two or more candidates remain, the result is the first candidate if
      `velocity` occurs in none of them, and otherwise the first candidate
      containing the last preference of the longest prefix of the preference list
      whose every element occurs in some candidate. */
  lemma TieBreakRule(layer: Layer)
    requires |Candidates(GetVectorFields(layer))| >= 2
    ensures var cands := Candidates(GetVectorFields(layer));
      var n := PresentPrefixLength(Preferences, cands);
      && (!OccursIn("velocity", cands) ==> GetVectorVelocityFieldName(layer).0 == Some(cands[0]))
      && (OccursIn("velocity", cands) ==>
            n >= 1 && GetVectorVelocityFieldName(layer).0 == Some(cands[FirstContaining(cands, Preferences[n - 1])]))
  {
    var cands := Candidates(GetVectorFields(layer));
    PreferenceWalkPicksLastPresent(Preferences, cands, cands[0]);
  }
}
