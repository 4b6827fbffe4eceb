/**
 * The pieces of ECMAScript's String.prototype the session code relies on:
 * `slice` with its negative-index and clamping rules, `trim`, and a
 * prefix test. Strings are sequences of characters.
 */
module JsString {

  /** `p` is a prefix of `s`. */
  predicate StartsWith(s: string, p: string) {
    |p| <= |s| && s[..|p|] == p
  }

  /**
   * ECMAScript's treatment of one `slice` argument: a negative index counts
   * back from the end, and the result is clamped to `0..len`.
   */
  function RelativeIndex(rel: int, len: nat): (k: nat)
    ensures k <= len
    ensures 0 <= rel <= len ==> k == rel
    ensures len < rel ==> k == len
    ensures -(len as int) <= rel < 0 ==> k == len + rel
    ensures rel < -(len as int) ==> k == 0
  {
    if rel < 0 then
      if len + rel < 0 then 0 else len + rel
    else
      if rel > len then len else rel
  }

  /** `s.slice(start, end)`: the characters between the two resolved indices, or none. */
  function Slice(s: string, start: int, end: int): (r: string)
    ensures var from, to := RelativeIndex(start, |s|), RelativeIndex(end, |s|);
      && |r| == (if from < to then to - from else 0)
      && forall i :: 0 <= i < |r| ==> r[i] == s[from + i]
  {
    var from, to := RelativeIndex(start, |s|), RelativeIndex(end, |s|);
    if from < to then s[from..to] else []
  }

  /** `s.slice(start)`: the end argument is absent and defaults to the length. */
  function SliceFrom(s: string, start: int): (r: string)
    ensures r == s[RelativeIndex(start, |s|)..]
  {
    Slice(s, start, |s|)
  }

  /** `s.slice(0, n)` for n >= 0 is the first n characters, or all of s when it is shorter. */
  lemma SlicePrefix(s: string, n: nat)
    ensures Slice(s, 0, n) == if n < |s| then s[..n] else s
  {
  }

  /**
   * `s.slice(-n)` for n > 0 is the last n characters, or all of s when it is
   * shorter. (For n == 0, `-0` is not negative and the slice is all of s.)
   */
  lemma SliceSuffix(s: string, n: nat)
    requires 0 < n
    ensures SliceFrom(s, -(n as int)) == if n < |s| then s[|s| - n..] else s
  {
  }

  /**
   * The code points String.prototype.trim removes (ECMAScript's WhiteSpace
   * and LineTerminator productions): tab, line feed, vertical tab, form
   * feed, carriage return, the Unicode space separators, U+2028, U+2029 and
   * the byte order mark U+FEFF.
   */
  predicate IsJsWhitespace(c: char)
    ensures (c as int) < 0x80 ==>
      (IsJsWhitespace(c) <==> c == ' ' || c == '\t' || c == '\n' || c == '\r' || c as int == 0x0B || c as int == 0x0C)
    ensures IsJsWhitespace(c) ==> !('0' <= c <= '9' || 'A' <= c <= 'Z' || 'a' <= c <= 'z')
  {
    var n := c as int;
    || n == 0x09 || n == 0x0A || n == 0x0B || n == 0x0C || n == 0x0D
    || n == 0x20 || n == 0xA0 || n == 0x1680
    || (0x2000 <= n <= 0x200A)
    || n == 0x2028 || n == 0x2029 || n == 0x202F || n == 0x205F
    || n == 0x3000 || n == 0xFEFF
  }

  /** Every character of `s[lo..hi]` is whitespace. */
  predicate AllWhitespace(s: string, lo: int, hi: int)
    requires 0 <= lo <= hi <= |s|
  {
    forall i :: lo <= i < hi ==> IsJsWhitespace(s[i])
  }

  /** Number of whitespace characters at the front of `s`. */
  function LeadingWhitespace(s: string): (k: nat)
    ensures k <= |s|
    ensures AllWhitespace(s, 0, k)
    ensures k < |s| ==> !IsJsWhitespace(s[k])
  {
    if |s| > 0 && IsJsWhitespace(s[0]) then
      var k := 1 + LeadingWhitespace(s[1..]);
      assert forall i :: 1 <= i < k ==> s[i] == s[1..][i - 1];
      k
    else 0
  }

  /** Index just past the last non-whitespace character of `s` (0 when there is none). */
  function ContentEnd(s: string): (k: nat)
    ensures k <= |s|
    ensures AllWhitespace(s, k, |s|)
    ensures 0 < k ==> !IsJsWhitespace(s[k - 1])
  {
    if |s| > 0 && IsJsWhitespace(s[|s| - 1]) then
      var k := ContentEnd(s[..|s| - 1]);
      assert forall i :: k <= i < |s| - 1 ==> s[i] == s[..|s| - 1][i];
      k
    else |s|
  }

  /** `s` neither starts nor ends with whitespace. */
  predicate NoEdgeWhitespace(s: string) {
    |s| == 0 || (!IsJsWhitespace(s[0]) && !IsJsWhitespace(s[|s| - 1]))
  }

  /**
   * `r` is what is left of `s` once its leading and trailing whitespace is
   * cut off: `s` is some whitespace, then `r`, then some whitespace, and `r`
   * has no whitespace at either end.
   */
  ghost predicate IsTrimmedFrom(s: string, r: string) {
    && NoEdgeWhitespace(r)
    && exists i :: 0 <= i <= |s| - |r|
         && s[i..i + |r|] == r
         && AllWhitespace(s, 0, i)
         && AllWhitespace(s, i + |r|, |s|)
  }

  /** `s.trim()`. */
  function Trim(s: string): (r: string)
    ensures IsTrimmedFrom(s, r)
  {
    var lo, hi := LeadingWhitespace(s), ContentEnd(s);
    if lo < hi then
      var r := s[lo..hi];
      assert s[lo..lo + |r|] == r;
      assert r[0] == s[lo] && r[|r| - 1] == s[hi - 1];
      r
    else
      // the whole of `s` is whitespace
      assert AllWhitespace(s, 0, |s|) by {
        forall i | 0 <= i < |s| ensures IsJsWhitespace(s[i]) {
          if lo <= i && i < hi { assert false; }
        }
      }
      assert s[0..0] == [];
      []
  }

  /** The leading whitespace ends at the first non-whitespace character. */
  lemma LeadingWhitespaceAt(s: string, i: nat)
    requires i <= |s| && AllWhitespace(s, 0, i)
    requires i == |s| || !IsJsWhitespace(s[i])
    ensures LeadingWhitespace(s) == i
  {
  }

  /** The content ends just after the last non-whitespace character. */
  lemma ContentEndAt(s: string, j: nat)
    requires j <= |s| && AllWhitespace(s, j, |s|)
    requires j == 0 || !IsJsWhitespace(s[j - 1])
    ensures ContentEnd(s) == j
  {
  }

  /** Trimming has exactly one possible outcome: any `r` satisfying the description is `s.trim()`. */
  lemma TrimUnique(s: string, r: string)
    requires IsTrimmedFrom(s, r)
    ensures r == Trim(s)
  {
    var i :| 0 <= i <= |s| - |r| && s[i..i + |r|] == r && AllWhitespace(s, 0, i) && AllWhitespace(s, i + |r|, |s|);
    if |r| == 0 {
      assert AllWhitespace(s, 0, |s|) by {
        forall k | 0 <= k < |s| ensures IsJsWhitespace(s[k]) {
          if k < i { assert AllWhitespace(s, 0, i); } else { assert AllWhitespace(s, i, |s|); }
        }
      }
      LeadingWhitespaceAt(s, |s|);
    } else {
      assert r[0] == s[i] && r[|r| - 1] == s[i + |r| - 1];
      LeadingWhitespaceAt(s, i);
      ContentEndAt(s, i + |r|);
    }
  }

  /** A string without whitespace at either end is its own trim. */
  lemma TrimFixesUntrimmed(s: string)
    requires NoEdgeWhitespace(s)
    ensures Trim(s) == s
  {
    assert s[0..0 + |s|] == s;
    assert AllWhitespace(s, 0, 0) && AllWhitespace(s, |s|, |s|);
    assert IsTrimmedFrom(s, s);
    TrimUnique(s, s);
  }

  /** Trimming twice is trimming once. */
  lemma TrimIdempotent(s: string)
    ensures Trim(Trim(s)) == Trim(s)
  {
    TrimFixesUntrimmed(Trim(s));
  }

  /** Trimming keeps a first character that is not whitespace. */
  lemma TrimKeepsHead(s: string)
    requires |s| > 0 && !IsJsWhitespace(s[0])
    ensures |Trim(s)| > 0 && Trim(s)[0] == s[0]
  {
    LeadingWhitespaceAt(s, 0);
    assert ContentEnd(s) > 0 by {
      if ContentEnd(s) == 0 {
        assert AllWhitespace(s, 0, |s|);
      }
    }
  }

  /** Whitespace added around a string does not change its trim. */
  lemma TrimIgnoresPadding(pre: string, value: string, post: string)
    requires AllWhitespace(pre, 0, |pre|) && AllWhitespace(post, 0, |post|)
    ensures Trim(pre + value + post) == Trim(value)
  {
    PaddedTrimmed(pre, value, post, Trim(value));
    TrimUnique(pre + value + post, Trim(value));
  }

  /** What is left of `value` after trimming is also what is left of `value` padded with whitespace. */
  lemma PaddedTrimmed(pre: string, value: string, post: string, t: string)
    requires AllWhitespace(pre, 0, |pre|) && AllWhitespace(post, 0, |post|)
    requires IsTrimmedFrom(value, t)
    ensures IsTrimmedFrom(pre + value + post, t)
  {
    var i :| 0 <= i <= |value| - |t| && value[i..i + |t|] == t
             && AllWhitespace(value, 0, i) && AllWhitespace(value, i + |t|, |value|);
    PaddedContent(pre, value, post, i, |t|);
    var padded := pre + value + post;
    assert padded[|pre| + i..|pre| + i + |t|] == t;
  }

  /** Content between whitespace stays between whitespace when more whitespace is added around it. */
  lemma PaddedContent(pre: string, value: string, post: string, i: nat, n: nat)
    requires AllWhitespace(pre, 0, |pre|) && AllWhitespace(post, 0, |post|)
    requires i + n <= |value| && AllWhitespace(value, 0, i) && AllWhitespace(value, i + n, |value|)
    ensures var padded, j := pre + value + post, |pre| + i;
      && padded[j..j + n] == value[i..i + n]
      && AllWhitespace(padded, 0, j)
      && AllWhitespace(padded, j + n, |padded|)
  {
    var padded, j := pre + value + post, |pre| + i;
    forall k | j <= k < j + n ensures padded[k] == value[k - |pre|] {
    }
    forall k | 0 <= k < j ensures IsJsWhitespace(padded[k]) {
      if k < |pre| { assert padded[k] == pre[k]; } else { assert padded[k] == value[k - |pre|]; }
    }
    forall k | j + n <= k < |padded| ensures IsJsWhitespace(padded[k]) {
      if k < |pre| + |value| { assert padded[k] == value[k - |pre|]; }
      else { assert padded[k] == post[k - |pre| - |value|]; }
    }
  }
}
