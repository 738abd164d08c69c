/** The fixed-offset extraction applied to each scanned code: the code is
    cut at `start` for at most `length` characters, and a `start` at or past
    the end of the code yields the empty string. */
module Extraction {

  function Min(a: int, b: int): int {
    if a <= b then a else b
  }

  function Max(a: int, b: int): int {
    if a <= b then b else a
  }

  /** Python's slice `s[i:j]` for non-negative bounds: both bounds are
      clipped to `|s|`, and an empty range gives "". */
  function Slice(s: string, i: nat, j: nat): (r: string)
    ensures |r| == Max(0, Min(j, |s|) - i)
    ensures forall k :: 0 <= k < |r| ==> r[k] == s[i + k]
  {
    var lo := Min(i, |s|);
    var hi := Min(j, |s|);
    if lo <= hi then s[lo..hi] else []
  }

  /** The extraction step of the scan pipeline, with its explicit bounds
      check in front of the slice. */
  function Extract(barcode: string, start: nat, length: nat): (r: string)
    ensures start >= |barcode| ==> r == []
    ensures start < |barcode| ==> r == barcode[start..Min(start + length, |barcode|)]
    ensures |r| <= length
    ensures start < |barcode| && length >= 1 ==> |r| >= 1
    ensures start < |barcode| ==> barcode == barcode[..start] + r + barcode[start + |r|..]
  {
    if start < |barcode| then Slice(barcode, start, start + length) else []
  }

  /** The bounds check is redundant: the slice alone already gives "" when
      `start` is at or past the end, so the extraction is exactly Python's
      `barcode[start:start+length]`. */
  lemma ExtractIsSlice(barcode: string, start: nat, length: nat)
    ensures Extract(barcode, start, length) == Slice(barcode, start, start + length)
  {
  }

  /** Character-level description of the extraction: it holds
      `min(length, |barcode| - start)` characters (none when `start` is past
      the end), and its k-th character is the code's `(start + k)`-th. */
  lemma ExtractChars(barcode: string, start: nat, length: nat)
    ensures var r := Extract(barcode, start, length);
      && |r| == Max(0, Min(length, |barcode| - start))
      && forall k :: 0 <= k < |r| ==> r[k] == barcode[start + k]
  {
  }

  /** A longer cut extends a shorter one from the same offset. */
  lemma ExtractMonotone(barcode: string, start: nat, length: nat, longer: nat)
    requires length <= longer
    ensures var short := Extract(barcode, start, length);
      short == Extract(barcode, start, longer)[..|short|]
  {
  }

  /** Characters appended after the cut window do not change the result. */
  lemma ExtractIgnoresTail(barcode: string, tail: string, start: nat, length: nat)
    requires start + length <= |barcode|
    ensures Extract(barcode + tail, start, length) == Extract(barcode, start, length)
  {
  }

  /** The two worked examples: "ABC123456" cut at 0 for 6 gives "ABC123";
      "12" cut at 5 for 3 gives "". */
  lemma Examples()
    ensures Extract("ABC123456", 0, 6) == "ABC123"
    ensures Extract("12", 5, 3) == ""
  {
  }
}
