/**
 * `array.slice(-k)` as the live temperature views use it to keep their most
 * recent points (ECMA-262 section 23.1.3.28, Array.prototype.slice): with a
 * negative start, the last `k` elements, or the whole array when it has at
 * most `k`; `slice(-0)` is `slice(0)`, the whole array.
 */
module Window {

  function Min(a: int, b: int): int {
    if a <= b then a else b
  }

  /** `s.slice(-k)`. */
  function SliceLast<T>(s: seq<T>, k: nat): (r: seq<T>)
    ensures |r| <= |s| && r == s[|s| - |r|..]
    ensures k == 0 ==> r == s
    ensures k > 0 ==> |r| == Min(|s|, k)
  {
    if k == 0 || |s| <= k then s else s[|s| - k..]
  }

  /** A suffix of `y` at least as long as `y`'s last-`k` window has the same window. */
  lemma SuffixSameWindow<T>(x: seq<T>, y: seq<T>, k: nat)
    requires 0 < k
    requires |x| <= |y| && x == y[|y| - |x|..]
    requires Min(|y|, k) <= |x|
    ensures SliceLast(x, k) == SliceLast(y, k)
  {
    if |y| <= k {
      assert |x| == |y|;
    } else {
      assert x[|x| - k..] == y[|y| - k..];
    }
  }

  /**
   * Cutting to the last `k` before appending changes nothing once the result
   * is cut again: a window that is updated one step at a time holds the last
   * `k` of everything it was given.
   */
  lemma SliceLastAppend<T>(p: seq<T>, d: seq<T>, k: nat)
    requires 0 < k
    ensures SliceLast(SliceLast(p, k) + d, k) == SliceLast(p + d, k)
  {
    var w := SliceLast(p, k);
    assert w + d == (p + d)[|p| - |w|..];
    SuffixSameWindow(w + d, p + d, k);
  }
}
