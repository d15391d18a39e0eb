/**
 * `Array.prototype.slice` with non-negative bounds, and `Math.ceil` of a
 * quotient of natural numbers.
 */
module Slices {
  /** `s.slice(start, end)`: both bounds are clamped to the length; a reversed window is empty. */
  function Slice<T>(s: seq<T>, start: nat, end: nat): (r: seq<T>)
    ensures start <= end <= |s| ==> r == s[start..end]
    ensures start <= |s| < end ==> r == s[start..]
    ensures |s| <= start || end <= start ==> r == []
    ensures |r| <= if end < start then 0 else end - start
  {
    var lo := if start < |s| then start else |s|;
    var hi := if end < |s| then end else |s|;
    if lo < hi then s[lo..hi] else []
  }

  /** `Math.ceil(n / d)` for a positive divisor. */
  function CeilDiv(n: nat, d: nat): (r: nat)
    requires d > 0
    ensures r * d >= n
    ensures r > 0 ==> (r - 1) * d < n
    ensures r == 0 <==> n == 0
  {
    (n + d - 1) / d
  }
}
