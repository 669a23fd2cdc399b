/** `Array.prototype.slice(-k)`, which both the export and the analysis panel use
    to take the newest entries of the history. */
module Seqs {

  function MinInt(a: int, b: int): int {
    if a <= b then a else b
  }

  /** `s.slice(-k)` for k >= 1: the last k elements, or all of them when there are
      fewer. (`slice(-0)` would be the whole array; no caller passes 0.) */
  function LastN<T>(s: seq<T>, k: nat): (r: seq<T>)
    requires k >= 1
    ensures |r| == MinInt(k, |s|)
    ensures r == s[|s| - |r|..]
  {
    if |s| <= k then s else s[|s| - k..]
  }

  /** The window slides: appending an element drops the oldest one once the window is
      full, and otherwise only grows it. */
  lemma LastNSnoc<T>(s: seq<T>, x: T, k: nat)
    requires k >= 1
    ensures LastN(s + [x], k) == (if |s| < k then s else LastN(s, k)[1..]) + [x]
  {
    var t := s + [x];
    if |s| >= k {
      assert t[|t| - k..] == s[|s| - k + 1..] + [x];
    }
  }

  /** The window of a window is the window: taking fewer newest elements of it gives
      the same as taking them from the whole sequence. */
  lemma LastNOfLastN<T>(s: seq<T>, j: nat, k: nat)
    requires 1 <= j <= k
    ensures LastN(LastN(s, k), j) == LastN(s, j)
  {
  }
}
