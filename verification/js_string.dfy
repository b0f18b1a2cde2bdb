/**
 * The few JavaScript string operations the application relies on:
 * `String.prototype.trim`, `startsWith`, `endsWith` and `split(",")[1]`.
 * Strings are sequences of characters; JavaScript counts UTF-16 code units,
 * which agrees with this model for text in the Basic Multilingual Plane.
 */
module JsString {

  /** The characters `trim` removes: ECMAScript WhiteSpace and LineTerminator. */
  predicate IsWhitespace(c: char) {
    c == '\t' || c == '\n' || c == '\U{000B}' || c == '\U{000C}' || c == '\r' || c == ' '
    || c == '\U{00A0}' || c == '\U{1680}' || ('\U{2000}' <= c <= '\U{200A}')
    || c == '\U{2028}' || c == '\U{2029}' || c == '\U{202F}' || c == '\U{205F}'
    || c == '\U{3000}' || c == '\U{FEFF}'
  }

  predicate AllWhitespace(s: string) {
    forall i :: 0 <= i < |s| ==> IsWhitespace(s[i])
  }

  /** Neither end of `s` is whitespace (vacuously true of the empty string). */
  predicate Trimmed(s: string) {
    |s| == 0 || (!IsWhitespace(s[0]) && !IsWhitespace(s[|s| - 1]))
  }

  /** The first index at or after `i` that is not whitespace, or `|s|`. */
  function SkipForward(s: string, i: nat): (k: nat)
    requires i <= |s|
    ensures i <= k <= |s|
    ensures forall j :: i <= j < k ==> IsWhitespace(s[j])
    ensures k < |s| ==> !IsWhitespace(s[k])
    decreases |s| - i
  {
    if i < |s| && IsWhitespace(s[i]) then SkipForward(s, i + 1) else i
  }

  /** The least index `k <= j` such that `s[k..j]` is all whitespace. */
  function SkipBackward(s: string, j: nat): (k: nat)
    requires j <= |s|
    ensures k <= j
    ensures forall m :: k <= m < j ==> IsWhitespace(s[m])
    ensures 0 < k ==> !IsWhitespace(s[k - 1])
  {
    if 0 < j && IsWhitespace(s[j - 1]) then SkipBackward(s, j - 1) else j
  }

  /** `String.prototype.trim`: the middle of `s` between its whitespace margins. */
  function Trim(s: string): (r: string)
    ensures Trimmed(r)
    ensures |r| <= |s|
    ensures r == [] <==> AllWhitespace(s)
  {
    var i := SkipForward(s, 0);
    if i == |s| then []
    else
      var j := SkipBackward(s, |s|);
      assert !IsWhitespace(s[i]);
      assert i < j;
      s[i..j]
  }

  /** A scan forward over whitespace stops exactly at the first non-whitespace index. */
  lemma {:induction false} SkipForwardStops(s: string, i: nat, k: nat)
    requires i <= k <= |s|
    requires forall j :: i <= j < k ==> IsWhitespace(s[j])
    requires k < |s| ==> !IsWhitespace(s[k])
    ensures SkipForward(s, i) == k
    decreases k - i
  {
    if i < k {
      SkipForwardStops(s, i + 1, k);
    }
  }

  /** A scan backward over whitespace stops exactly after the last non-whitespace index. */
  lemma {:induction false} SkipBackwardStops(s: string, j: nat, k: nat)
    requires k <= j <= |s|
    requires forall m :: k <= m < j ==> IsWhitespace(s[m])
    requires 0 < k ==> !IsWhitespace(s[k - 1])
    ensures SkipBackward(s, j) == k
    decreases j - k
  {
    if k < j {
      SkipBackwardStops(s, j - 1, k);
    }
  }

  /** Every string is its trim surrounded by two whitespace margins. */
  lemma TrimSplits(s: string)
    ensures var i := SkipForward(s, 0);
      && i + |Trim(s)| <= |s|
      && s[i..i + |Trim(s)|] == Trim(s)
      && (forall k :: 0 <= k < i ==> IsWhitespace(s[k]))
      && (forall k :: i + |Trim(s)| <= k < |s| ==> IsWhitespace(s[k]))
  {
    var i := SkipForward(s, 0);
    if i < |s| {
      var j := SkipBackward(s, |s|);
      assert i < j by {
        assert !IsWhitespace(s[i]);
      }
      assert |Trim(s)| == j - i;
    }
  }

  /**
   * `trim` is determined by its specification: whatever whitespace margins
   * surround a middle part with non-whitespace ends, trimming yields exactly
   * that middle part.
   */
  lemma TrimUnique(a: string, m: string, b: string)
    requires AllWhitespace(a) && AllWhitespace(b) && Trimmed(m)
    ensures Trim(a + m + b) == m
  {
    var s := a + m + b;
    if |m| == 0 {
      SkipForwardStops(s, 0, |s|);
    } else {
      SkipForwardStops(s, 0, |a|);
      SkipBackwardStops(s, |s|, |a| + |m|);
      assert s[|a|..|a| + |m|] == m;
    }
  }

  /** Trimming twice is trimming once. */
  lemma TrimIdempotent(s: string)
    ensures Trim(Trim(s)) == Trim(s)
  {
    TrimUnique([], Trim(s), []);
    assert [] + Trim(s) + [] == Trim(s);
  }

  predicate StartsWith(s: string, prefix: string) {
    |prefix| <= |s| && s[..|prefix|] == prefix
  }

  predicate EndsWith(s: string, suffix: string) {
    |suffix| <= |s| && s[|s| - |suffix|..] == suffix
  }

  /** The index of the first occurrence of `c` at or after `from`, if any. */
  function IndexOf(s: string, c: char, from: nat): (r: int)
    requires from <= |s|
    ensures r == -1 || from <= r < |s|
    ensures r == -1 ==> forall k :: from <= k < |s| ==> s[k] != c
    ensures r != -1 ==> s[r] == c && forall k :: from <= k < r ==> s[k] != c
    decreases |s| - from
  {
    if from == |s| then -1
    else if s[from] == c then from
    else IndexOf(s, c, from + 1)
  }

  /**
   * `r` is the field of `s` that starts right after the first `sep` and runs
   * up to the next `sep` or to the end of `s`.
   */
  predicate FollowsFirstSeparator(s: string, sep: char, r: string) {
    exists i :: 0 <= i < |s| && s[i] == sep && sep !in s[..i]
                && i + 1 + |r| <= |s| && s[i + 1..i + 1 + |r|] == r
                && (i + 1 + |r| == |s| || s[i + 1 + |r|] == sep)
  }

  /**
   * `s.split(sep)[1]` for a string that contains `sep`: the field between the
   * first and the second occurrence of `sep` (or the end of `s`).
   */
  function SecondField(s: string, sep: char): (r: string)
    requires sep in s
    ensures sep !in r
    ensures |r| < |s|
    ensures FollowsFirstSeparator(s, sep, r)
  {
    var i := IndexOf(s, sep, 0);
    assert i != -1 by {
      var k :| 0 <= k < |s| && s[k] == sep;
    }
    var j := IndexOf(s, sep, i + 1);
    var end := if j == -1 then |s| else j;
    var r := s[i + 1..end];
    assert sep !in r by {
      forall k | 0 <= k < |r| ensures r[k] != sep {
        assert r[k] == s[i + 1 + k];
      }
    }
    r
  }

  /**
   * A data URL `p + "," + d` with no further comma splits back into its
   * data part `d`.
   */
  lemma SecondFieldOfPair(p: string, sep: char, d: string)
    requires sep !in p && sep !in d
    ensures sep in p + [sep] + d
    ensures SecondField(p + [sep] + d, sep) == d
  {
    var s := p + [sep] + d;
    assert s[|p|] == sep;
    assert forall k :: 0 <= k < |p| ==> s[k] == p[k];
    var i := IndexOf(s, sep, 0);
    assert i == |p|;
    assert forall k :: |p| + 1 <= k < |s| ==> s[k] == d[k - |p| - 1];
    assert IndexOf(s, sep, i + 1) == -1;
    assert s[i + 1..] == d;
  }
}
