/** Facts about sequences shared by the filters and pages of the model. */
module Seqs {
  import opened Wrappers

  /** `a` is obtained from `b` by deleting elements: it keeps `b`'s order. */
  predicate IsSubsequence<T(==)>(a: seq<T>, b: seq<T>)
    decreases |b|
  {
    a == [] || (b != [] && ((a[0] == b[0] && IsSubsequence(a[1..], b[1..])) || IsSubsequence(a, b[1..])))
  }

  /** How `Array.prototype.slice` resolves one bound: a negative bound counts
      from the end, and both are clamped to the sequence. */
  function SliceIndex(i: int, len: nat): (r: nat)
    ensures r <= len
    ensures 0 <= i ==> r == Min(i, len)
    ensures i < 0 ==> r == Max(len + i, 0)
  {
    if i < 0 then (if len + i < 0 then 0 else len + i) else if i < len then i else len
  }

  /** `Array.prototype.slice(start, end)` for integer bounds. */
  function JsSlice<T>(s: seq<T>, start: int, end: int): (r: seq<T>)
    ensures |r| == Max(0, SliceIndex(end, |s|) - SliceIndex(start, |s|))
    ensures forall k :: 0 <= k < |r| ==> r[k] == s[SliceIndex(start, |s|) + k]
  {
    var lo := SliceIndex(start, |s|);
    var hi := SliceIndex(end, |s|);
    if lo < hi then s[lo..hi] else []
  }

  /** `slice(offset, offset + limit)` with non-negative numbers is the page of
      at most `limit` elements that starts at `offset`. */
  lemma PageOfNaturals<T>(s: seq<T>, offset: nat, limit: nat)
    ensures |JsSlice(s, offset, offset + limit)| == Min(limit, Max(0, |s| - offset))
    ensures JsSlice(s, offset, offset + limit) == s[Min(offset, |s|)..Min(offset + limit, |s|)]
  {
  }

  /** A negative limit does not mean "none": `slice(0, -n)` drops the last `n` elements. */
  lemma NegativeLimitDropsTail<T>(s: seq<T>, n: nat)
    requires 0 < n <= |s|
    ensures JsSlice(s, 0, -(n as int)) == s[..|s| - n]
  {
  }

  /** The last `n` elements of `s` (all of them when there are fewer):
      `Array.prototype.slice(-n)` for a positive `n`. */
  function LastN<T>(s: seq<T>, n: nat): (r: seq<T>)
    ensures |r| == Min(n, |s|)
    ensures forall k :: 0 <= k < |r| ==> r[k] == s[|s| - |r| + k]
  {
    if |s| <= n then s else s[|s| - n..]
  }

  /** `LastN` is `slice(-n)`. */
  lemma LastNIsSlice<T>(s: seq<T>, n: nat)
    requires n > 0
    ensures LastN(s, n) == JsSlice(s, -(n as int), |s|)
  {
  }
}
