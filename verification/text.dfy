/** Python's whitespace handling as used by the scan pipeline: `str.strip()`
    with no argument removes leading and trailing characters for which
    `str.isspace()` holds. */
module Text {

  /** The characters for which Python's `str.isspace()` is true: the ASCII
      controls TAB, LF, VT, FF, CR, the separators U+001C..U+001F, SPACE,
      NEL, NO-BREAK SPACE and the Unicode space separators. */
  predicate IsSpace(c: char) {
    || c == ' '
    || ('\t' <= c <= '\r')
    || ('\U{1C}' <= c <= '\U{1F}')
    || c == '\U{85}'
    || c == '\U{A0}'
    || c == '\U{1680}'
    || ('\U{2000}' <= c <= '\U{200A}')
    || c == '\U{2028}'
    || c == '\U{2029}'
    || c == '\U{202F}'
    || c == '\U{205F}'
    || c == '\U{3000}'
  }

  /** Every character of `s` is whitespace (vacuously true of ""). */
  predicate AllSpace(s: string) {
    forall i :: 0 <= i < |s| ==> IsSpace(s[i])
  }

  /** `s` neither starts nor ends with whitespace: what `strip()` leaves. */
  predicate Stripped(s: string) {
    s == [] || (!IsSpace(s[0]) && !IsSpace(s[|s| - 1]))
  }

  /** Every character of `s` before index `lo` is whitespace. */
  predicate SpaceBefore(s: string, lo: int) {
    forall i :: 0 <= i < lo && i < |s| ==> IsSpace(s[i])
  }

  /** Every character of `s` from index `hi` on is whitespace. */
  predicate SpaceFrom(s: string, hi: int) {
    forall i :: 0 <= hi <= i < |s| ==> IsSpace(s[i])
  }

  /** The number of whitespace characters `s` starts with: all of them
      are whitespace and the next one, if any, is not. */
  function LeadingSpaces(s: string): (n: nat)
    ensures n <= |s| && SpaceBefore(s, n)
    ensures n < |s| ==> !IsSpace(s[n])
  {
    if |s| > 0 && IsSpace(s[0]) then 1 + LeadingSpaces(s[1..]) else 0
  }

  /** The index just past the last non-whitespace character of `s` (0 when
      there is none): everything from there on is whitespace. */
  function ContentEnd(s: string): (n: nat)
    ensures n <= |s| && SpaceFrom(s, n)
    ensures n > 0 ==> !IsSpace(s[n - 1])
  {
    if |s| > 0 && IsSpace(s[|s| - 1]) then ContentEnd(s[..|s| - 1]) else |s|
  }

  /** `str.strip()`: `s` with its leading and trailing whitespace removed.
      The result is the piece of `s` after the leading whitespace, with only
      whitespace after it; it is empty exactly when `s` is all whitespace,
      and neither starts nor ends with whitespace. */
  function Strip(s: string): (r: string)
    ensures Stripped(r)
    ensures r == [] <==> AllSpace(s)
    ensures var lo := LeadingSpaces(s);
      lo + |r| <= |s| && r == s[lo..lo + |r|] && SpaceFrom(s, lo + |r|)
  {
    var lo := LeadingSpaces(s);
    var hi := ContentEnd(s);
    assert lo < |s| ==> lo < hi;
    assert lo == |s| ==> AllSpace(s);
    if lo < hi then s[lo..hi] else []
  }

  /** `strip()` is determined by its description: any piece `s[lo..hi]`
      that has only whitespace before and after it and no whitespace at its
      own edges is the stripped string. */
  lemma StripUnique(s: string, lo: nat, hi: nat)
    requires lo <= hi <= |s|
    requires SpaceBefore(s, lo) && SpaceFrom(s, hi) && Stripped(s[lo..hi])
    ensures Strip(s) == s[lo..hi]
  {
    if lo < hi {
      assert s[lo..hi][0] == s[lo] && s[lo..hi][hi - lo - 1] == s[hi - 1];
    }
  }

  /** A string without edge whitespace is left alone by `strip()`. */
  lemma StripKeepsStripped(s: string)
    requires Stripped(s)
    ensures Strip(s) == s
  {
    StripUnique(s, 0, |s|);
  }

  /** `strip()` is idempotent. */
  lemma StripIdempotent(s: string)
    ensures Strip(Strip(s)) == Strip(s)
  {
    StripKeepsStripped(Strip(s));
  }
}
