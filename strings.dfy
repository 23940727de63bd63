/**
 * The three string operations the reply selector relies on: ASCII case
 * folding (standing in for JavaScript's String.prototype.toLowerCase), a
 * prefix test (a regular expression anchored with `^`) and a substring test
 * (String.prototype.includes).
 */
module Strings {

  predicate IsAsciiUpper(c: char) {
    'A' <= c <= 'Z'
  }

  /** Folds an ASCII capital letter to its small letter; every other character is kept. */
  function LowerChar(c: char): (d: char)
    ensures !IsAsciiUpper(d)
    ensures d == c || IsAsciiUpper(c)
    ensures IsAsciiUpper(c) ==> 'a' <= d <= 'z' && d as int - c as int == 'a' as int - 'A' as int
  {
    if IsAsciiUpper(c) then (c as int - 'A' as int + 'a' as int) as char else c
  }

  /** Case folding of a whole message, one character at a time. */
  function ToLower(s: string): (r: string)
    ensures |r| == |s|
    ensures forall k :: 0 <= k < |s| ==> r[k] == LowerChar(s[k])
  {
    seq(|s|, k requires 0 <= k < |s| => LowerChar(s[k]))
  }

  /** Folding twice is folding once. */
  lemma ToLowerIdempotent(s: string)
    ensures ToLower(ToLower(s)) == ToLower(s)
  {
  }

  /** A folded message holds no ASCII capital letter. */
  lemma ToLowerHasNoUpper(s: string)
    ensures forall k :: 0 <= k < |ToLower(s)| ==> !IsAsciiUpper(ToLower(s)[k])
  {
  }

  /** A message without ASCII capitals is its own folding. */
  lemma ToLowerKeepsLower(s: string)
    requires forall k :: 0 <= k < |s| ==> !IsAsciiUpper(s[k])
    ensures ToLower(s) == s
  {
  }

  /** `p` is a prefix of `s`: the test made by a regular expression anchored at `^`. */
  predicate StartsWith(s: string, p: string)
    ensures StartsWith(s, p) <==> |p| <= |s| && forall k :: 0 <= k < |p| ==> s[k] == p[k]
  {
    |p| <= |s| && s[..|p|] == p
  }

  /** A character that differs from the pattern's at the same index rules the prefix out. */
  lemma PrefixMismatch(s: string, p: string, k: nat)
    requires k < |p| && k < |s| && s[k] != p[k]
    ensures !StartsWith(s, p)
  {
  }

  /** `p` occurs somewhere in `s`: the test made by `s.includes(p)`. */
  predicate Contains(s: string, p: string)
    ensures Contains(s, p) ==> |p| <= |s|
    ensures p == [] ==> Contains(s, p)
    ensures StartsWith(s, p) ==> Contains(s, p)
    decreases |s|
  {
    |p| <= |s| && (s[..|p|] == p || Contains(s[1..], p))
  }

  /** The occurrence-at-an-index reading of `includes`, used as a reference for Contains. */
  ghost predicate OccursAt(s: string, p: string, k: int) {
    0 <= k && k + |p| <= |s| && s[k..k + |p|] == p
  }

  /** An occurrence at index k makes `s` contain `p`. */
  lemma {:induction false} ContainsAt(s: string, p: string, k: nat)
    requires OccursAt(s, p, k)
    ensures Contains(s, p)
    decreases k
  {
    if k > 0 {
      assert s[1..][k - 1..k - 1 + |p|] == s[k..k + |p|];
      ContainsAt(s[1..], p, k - 1);
    }
  }

  /** Every containment has an index at which `p` occurs. */
  lemma {:induction false} ContainsHasIndex(s: string, p: string) returns (k: nat)
    requires Contains(s, p)
    ensures OccursAt(s, p, k)
    decreases |s|
  {
    if s[..|p|] == p {
      k := 0;
    } else {
      var j := ContainsHasIndex(s[1..], p);
      assert s[1..][j..j + |p|] == s[j + 1..j + 1 + |p|];
      k := j + 1;
    }
  }

  /** Contains agrees with the occurrence-at-an-index reading, in both directions. */
  lemma ContainsIff(s: string, p: string)
    ensures Contains(s, p) <==> exists k :: OccursAt(s, p, k)
  {
    if Contains(s, p) {
      var k := ContainsHasIndex(s, p);
    }
    if exists k :: OccursAt(s, p, k) {
      var k :| OccursAt(s, p, k);
      ContainsAt(s, p, k);
    }
  }

  /** A message that contains `p + q` also contains `p`. */
  lemma ContainsPrefixOfPattern(s: string, p: string, q: string)
    requires Contains(s, p + q)
    ensures Contains(s, p)
  {
    var k := ContainsHasIndex(s, p + q);
    assert s[k..k + |p|] == s[k..k + |p + q|][..|p|];
    ContainsAt(s, p, k);
  }

  /** A pattern holding a character that `s` lacks does not occur in `s`. */
  lemma {:induction false} MissingCharNotContained(s: string, p: string, c: char)
    requires c in p && c !in s
    ensures !Contains(s, p)
    decreases |s|
  {
    if |p| <= |s| {
      MissingCharNotContained(s[1..], p, c);
    }
  }

  /** A one-character pattern occurs exactly when that character is in `s`. */
  lemma {:induction false} ContainsChar(s: string, c: char)
    ensures Contains(s, [c]) <==> c in s
    decreases |s|
  {
    if s != [] {
      ContainsChar(s[1..], c);
      assert s == [s[0]] + s[1..];
    }
  }

  /** The empty message contains no non-empty pattern and starts with none. */
  lemma EmptyMatchesNothing(p: string)
    requires p != []
    ensures !Contains([], p) && !StartsWith([], p)
  {
  }
}
