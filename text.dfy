/**
 * String trimming as done by `String.prototype.trim` in the quote form handler.
 * Strings are sequences of Unicode scalar values.
 */
module Text {

  /**
   * The ECMAScript WhiteSpace and LineTerminator code points, which are what
   * `trim` strips: TAB, LF, VT, FF, CR, SPACE, NO-BREAK SPACE, ZERO WIDTH
   * NO-BREAK SPACE, the space separators of Unicode category Zs, and the line
   * and paragraph separators. All of them lie in the Basic Multilingual Plane.
   */
  predicate IsSpace(c: char) {
    var n := c as int;
    (0x09 <= n <= 0x0D) || n == 0x20 || n == 0xA0 || n == 0x1680
    || (0x2000 <= n <= 0x200A) || n == 0x2028 || n == 0x2029
    || n == 0x202F || n == 0x205F || n == 0x3000 || n == 0xFEFF
  }

  /** The first index at or after `i` that does not hold whitespace, or `|s|` when there is none. */
  function SkipLeading(s: string, i: nat): (j: nat)
    requires i <= |s|
    ensures i <= j <= |s|
    ensures forall k :: i <= k < j ==> IsSpace(s[k])
    ensures j < |s| ==> !IsSpace(s[j])
    decreases |s| - i
  {
    if i < |s| && IsSpace(s[i]) then SkipLeading(s, i + 1) else i
  }

  /**
   * The end of `s[lo..j]` once its trailing whitespace is dropped: the least
   * `e` at or above `lo` such that everything from `e` to `j` is whitespace.
   */
  function SkipTrailing(s: string, lo: nat, j: nat): (e: nat)
    requires lo <= j <= |s|
    ensures lo <= e <= j
    ensures forall k :: e <= k < j ==> IsSpace(s[k])
    ensures lo < e ==> !IsSpace(s[e - 1])
  {
    if lo < j && IsSpace(s[j - 1]) then SkipTrailing(s, lo, j - 1) else j
  }

  /**
   * `s.trim()`: the infix of `s` left after removing whitespace at both ends.
   * Everything removed is whitespace, the result neither starts nor ends with
   * whitespace, and it is empty exactly when `s` is all whitespace.
   */
  function Trim(s: string): (r: string)
    ensures exists i :: (
              0 <= i <= |s| - |r| && r == s[i..][..|r|] &&
              (forall k :: 0 <= k < i ==> IsSpace(s[k])) &&
              (forall k :: i + |r| <= k < |s| ==> IsSpace(s[k])))
    ensures r != [] ==> !IsSpace(r[0]) && !IsSpace(r[|r| - 1])
    ensures r == [] <==> forall k :: 0 <= k < |s| ==> IsSpace(s[k])
  {
    var i := SkipLeading(s, 0);
    var j := SkipTrailing(s, i, |s|);
    assert s[i..j] == s[i..][..j - i];
    s[i..j]
  }

  /** A string with no whitespace at either end is left as it is by `trim`. */
  lemma {:induction false} TrimFixed(s: string)
    requires s != [] ==> !IsSpace(s[0]) && !IsSpace(s[|s| - 1])
    ensures Trim(s) == s
  {
    assert SkipLeading(s, 0) == 0;
    assert SkipTrailing(s, 0, |s|) == |s|;
  }

  /** Trimming twice is the same as trimming once. */
  lemma {:induction false} TrimIdempotent(s: string)
    ensures Trim(Trim(s)) == Trim(s)
  {
    TrimFixed(Trim(s));
  }
}
