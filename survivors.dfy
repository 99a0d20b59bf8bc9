/** Survivor filtering of step5.py:67-74 and the count at step5.py:87:
    every per-cell array is indexed by the boolean flags, which keeps the
    flagged cells in their original order. */
module Survivors {

  /** np.count_nonzero(cell_valids). */
  function CountTrue(keep: seq<bool>): nat {
    if keep == [] then 0
    else CountTrue(keep[..|keep| - 1]) + (if keep[|keep| - 1] then 1 else 0)
  }

  /** The positions of the set flags, in ascending order: survivor k is
      the cell at position Kept(keep)[k]. */
  function Kept(keep: seq<bool>): (idx: seq<nat>)
    ensures |idx| == CountTrue(keep)
    ensures forall k, m :: 0 <= k < m < |idx| ==> idx[k] < idx[m]
    ensures forall k :: 0 <= k < |idx| ==> idx[k] < |keep| && keep[idx[k]]
    ensures forall i :: 0 <= i < |keep| && keep[i] ==> i in idx
  {
    if keep == [] then []
    else
      var front := Kept(keep[..|keep| - 1]);
      assert forall i :: 0 <= i < |keep| - 1 ==> keep[..|keep| - 1][i] == keep[i];
      if keep[|keep| - 1] then front + [|keep| - 1] else front
  }

  /** a[cell_valids] for a per-cell array a. */
  function Select<T>(s: seq<T>, keep: seq<bool>): seq<T>
    requires |s| == |keep|
  {
    if s == [] then []
    else Select(s[..|s| - 1], keep[..|keep| - 1]) + (if keep[|keep| - 1] then [s[|s| - 1]] else [])
  }

  /** Filtering keeps exactly the flagged elements, in their original
      order: element k of the result is element Kept(keep)[k] of s. */
  lemma {:induction false} SelectKept<T>(s: seq<T>, keep: seq<bool>)
    requires |s| == |keep|
    ensures |Select(s, keep)| == CountTrue(keep)
    ensures forall k :: 0 <= k < |Select(s, keep)| ==> Select(s, keep)[k] == s[Kept(keep)[k]]
  {
    if s != [] {
      var n := |s| - 1;
      var front, kept := Select(s[..n], keep[..n]), Kept(keep[..n]);
      SelectKept(s[..n], keep[..n]);
      var all, keptAll := Select(s, keep), Kept(keep);
      assert all == front + (if keep[n] then [s[n]] else []);
      assert keptAll == kept + (if keep[n] then [n] else []);
      forall k | 0 <= k < |all| ensures all[k] == s[keptAll[k]] {
        if k < |front| {
          assert all[k] == front[k] && keptAll[k] == kept[k];
          assert s[..n][kept[k]] == s[kept[k]];
        }
      }
    }
  }
}
