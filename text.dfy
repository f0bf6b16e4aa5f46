/**
 * Whitespace trimming of command output, as Go's `strings.TrimSpace`
 * does it: scan forward from the front past white space to find where
 * the value starts, scan backward from the end to find where it stops,
 * and keep what lies in between. White space is what `unicode.IsSpace`
 * accepts.
 */
module Text {

  /** Go's `unicode.IsSpace`: the ASCII white space characters
      '\t', '\n', '\v', '\f', '\r', ' ', and the Unicode White_Space
      characters U+0085, U+00A0, U+1680, U+2000-U+200A, U+2028, U+2029,
      U+202F, U+205F and U+3000. */
  predicate IsSpace(c: char) {
    || c == ' '
    || '\t' <= c <= '\r'
    || c == '\U{0085}' || c == '\U{00A0}' || c == '\U{1680}'
    || '\U{2000}' <= c <= '\U{200A}'
    || c == '\U{2028}' || c == '\U{2029}' || c == '\U{202F}'
    || c == '\U{205F}' || c == '\U{3000}'
  }

  predicate AllSpace(s: string) {
    forall i :: 0 <= i < |s| ==> IsSpace(s[i])
  }

  /** Neither the first nor the last character is white space. */
  predicate NoOuterSpace(s: string) {
    s == [] || (!IsSpace(s[0]) && !IsSpace(s[|s| - 1]))
  }

  /** The forward scan: from index `i`, the first index that does not
      hold white space (or the end of `s`). */
  function SpanStart(s: string, i: nat): (start: nat)
    requires i <= |s|
    ensures i <= start <= |s|
    ensures forall j :: i <= j < start ==> IsSpace(s[j])
    ensures start == |s| || !IsSpace(s[start])
    decreases |s| - i
  {
    if i < |s| && IsSpace(s[i]) then SpanStart(s, i + 1) else i
  }

  /** The backward scan: from `stop0` down to no lower than `start`, the
      first position whose preceding character is not white space. */
  function SpanStop(s: string, start: nat, stop0: nat): (stop: nat)
    requires start <= stop0 <= |s|
    ensures start <= stop <= stop0
    ensures forall j :: stop <= j < stop0 ==> IsSpace(s[j])
    ensures stop == start || !IsSpace(s[stop - 1])
    decreases stop0
  {
    if stop0 > start && IsSpace(s[stop0 - 1]) then SpanStop(s, start, stop0 - 1) else stop0
  }

  /** `t` occurs in `s` at index `start`, with only white space before
      and after it. */
  predicate PaddedAt(s: string, t: string, start: nat) {
    && start + |t| <= |s| && t == s[start..start + |t|]
    && (forall j :: 0 <= j < start ==> IsSpace(s[j]))
    && (forall j :: start + |t| <= j < |s| ==> IsSpace(s[j]))
  }

  /** `strings.TrimSpace`: the result is a contiguous piece of `s` with
      only white space before and after it, and it neither starts nor
      ends with white space. */
  function TrimSpace(s: string): (r: string)
    ensures NoOuterSpace(r)
    ensures exists start: nat :: PaddedAt(s, r, start)
  {
    var start := SpanStart(s, 0);
    var stop := SpanStop(s, start, |s|);
    assert PaddedAt(s, s[start..stop], start);
    s[start..stop]
  }

  /** The forward scan is determined by its contract: an index with only
      white space before it and none at it is where the scan stops. */
  lemma SpanStartUnique(s: string, i: nat, k: nat)
    requires i <= k <= |s|
    requires forall j :: i <= j < k ==> IsSpace(s[j])
    requires k == |s| || !IsSpace(s[k])
    ensures SpanStart(s, i) == k
  {
  }

  /** The backward scan is determined by its contract in the same way. */
  lemma SpanStopUnique(s: string, start: nat, stop0: nat, k: nat)
    requires start <= k <= stop0 <= |s|
    requires forall j :: k <= j < stop0 ==> IsSpace(s[j])
    requires k == start || !IsSpace(s[k - 1])
    ensures SpanStop(s, start, stop0) == k
  {
  }

  /** Incidental white space around a value is invisible after trimming:
      TrimSpace(p + t + q) is t whenever p and q are white space and t
      has no white space at either end. */
  lemma TrimSpaceDropsPadding(p: string, t: string, q: string)
    requires AllSpace(p) && AllSpace(q) && NoOuterSpace(t)
    ensures TrimSpace(p + t + q) == t
  {
    var u := p + t + q;
    if t == [] {
      SpanStartUnique(u, 0, |u|);
      SpanStopUnique(u, |u|, |u|, |u|);
    } else {
      SpanStartUnique(u, 0, |p|);
      SpanStopUnique(u, |p|, |u|, |p| + |t|);
      assert u[|p|..|p| + |t|] == t;
    }
  }

  /** Trimming twice is trimming once. */
  lemma TrimSpaceIdempotent(s: string)
    ensures TrimSpace(TrimSpace(s)) == TrimSpace(s)
  {
    var t := TrimSpace(s);
    assert [] + t + [] == t;
    TrimSpaceDropsPadding([], t, []);
  }
}
