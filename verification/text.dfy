/** Character classes and string operations that the field-name rules are built from.
    Strings are sequences of characters; case folding and the `\s`/`\d` classes are
    modelled on the ASCII range. */
module Text {

  /** `\d` */
  predicate IsDigit(c: char) {
    '0' <= c <= '9'
  }

  predicate AllDigits(s: string) {
    forall k :: 0 <= k < |s| ==> IsDigit(s[k])
  }

  /** `\s`: the ASCII characters for which Python's `str.isspace` holds
      (tab, newline, vertical tab, form feed, carriage return, the four
      information separators and the space). */
  predicate IsSpace(c: char) {
    (9 <= c as int <= 13) || (28 <= c as int <= 32)
  }

  /** The class `[\s:\.\-_]` that the extractor deletes from date and tag text. */
  predicate IsSeparator(c: char) {
    IsSpace(c) || c == ':' || c == '.' || c == '-' || c == '_'
  }

  predicate IsUpper(c: char) {
    'A' <= c <= 'Z'
  }

  /** `str.lower` on one character. */
  function LowerChar(c: char): (r: char)
    ensures IsUpper(c) ==> r as int == c as int + 32
    ensures !IsUpper(c) ==> r == c
  {
    if IsUpper(c) then (c as int + 32) as char else c
  }

  /** `str.lower`. */
  function Lower(s: string): (r: string)
    ensures |r| == |s|
    ensures forall k :: 0 <= k < |s| ==> r[k] == LowerChar(s[k])
  {
    seq(|s|, k requires 0 <= k < |s| => LowerChar(s[k]))
  }

  /** Lower-casing works character by character, so it distributes over
      concatenation. */
  lemma LowerAppend(a: string, b: string)
    ensures Lower(a + b) == Lower(a) + Lower(b)
  {
  }

  /** Lower-casing leaves a string of digits unchanged. */
  lemma LowerOfDigits(s: string)
    requires AllDigits(s)
    ensures Lower(s) == s
  {
  }

  /** `sub` occurs in `s` starting at position `i`. */
  predicate StartsAt(s: string, i: nat, sub: string) {
    i + |sub| <= |s| && s[i..i + |sub|] == sub
  }

  /** Python's `sub in s`. */
  predicate Contains(s: string, sub: string) {
    exists i :: 0 <= i <= |s| && StartsAt(s, i, sub)
  }

  /** `any(ele in s for ele in ['err', 'sigma', 'std'])`: `s` names an uncertainty. */
  predicate HasUncertaintyKeyword(s: string) {
    Contains(s, "err") || Contains(s, "sigma") || Contains(s, "std")
  }

  /** An occurrence of `sub` uses only characters of `s`; so a string missing one
      character of `sub` does not contain `sub`. */
  lemma ContainsUsesChars(s: string, sub: string, c: char)
    requires c in sub && c !in s
    ensures !Contains(s, sub)
  {
    var k :| 0 <= k < |sub| && sub[k] == c;
    forall i | 0 <= i <= |s|
      ensures !StartsAt(s, i, sub)
    {
      if i + |sub| <= |s| {
        assert s[i..i + |sub|][k] == s[i + k];
      }
    }
  }

  /** `re.sub(r'[\s:\.\-_]?', '', s)`: every separator character is deleted. */
  function Strip(s: string): (r: string)
    ensures |r| <= |s|
    ensures forall k :: 0 <= k < |r| ==> !IsSeparator(r[k])
    ensures forall k :: 0 <= k < |r| ==> r[k] in s
  {
    if |s| == 0 then []
    else if IsSeparator(s[0]) then Strip(s[1..])
    else [s[0]] + Strip(s[1..])
  }

  /** Deleting separators commutes with concatenation. */
  lemma {:induction false} StripAppend(a: string, b: string)
    ensures Strip(a + b) == Strip(a) + Strip(b)
  {
    if |a| == 0 {
      assert a + b == b;
    } else {
      assert (a + b)[1..] == a[1..] + b;
      StripAppend(a[1..], b);
    }
  }

  /** A string without separators is left unchanged. */
  lemma {:induction false} StripKeepsPlainText(s: string)
    requires forall k :: 0 <= k < |s| ==> !IsSeparator(s[k])
    ensures Strip(s) == s
  {
    if |s| > 0 {
      StripKeepsPlainText(s[1..]);
      assert [s[0]] + s[1..] == s;
    }
  }

  /** A string made only of separators disappears. */
  lemma {:induction false} StripDropsSeparators(s: string)
    requires forall k :: 0 <= k < |s| ==> IsSeparator(s[k])
    ensures Strip(s) == []
  {
    if |s| > 0 {
      StripDropsSeparators(s[1..]);
    }
  }

  /** Position of the first newline at or after `from`, or the end of `s`: where a
      `(.*)` started at `from` has to stop, since `.` does not match a newline. */
  function LineEnd(s: string, from: nat): (e: nat)
    requires from <= |s|
    ensures from <= e <= |s|
    ensures forall k :: from <= k < e ==> s[k] != '\n'
    ensures e < |s| ==> s[e] == '\n'
    decreases |s| - from
  {
    if from == |s| || s[from] == '\n' then from else LineEnd(s, from + 1)
  }

  /** Lower-casing does not move newlines, so it does not move line ends. */
  lemma {:induction false} LineEndOfLower(s: string, from: nat)
    requires from <= |s|
    ensures LineEnd(Lower(s), from) == LineEnd(s, from)
    decreases |s| - from
  {
    if from < |s| && s[from] != '\n' {
      LineEndOfLower(s, from + 1);
    }
  }
}
