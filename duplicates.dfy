/** Duplicate removal of step5.py:59-65. np.unique turns the enumerated
    pairs into distinct pairs in ascending order, each with the number of
    times it was enumerated; each pair whose overlap and correlation both
    exceed 0.5 clears the validity flag of its lighter member. */
module Duplicates {
  import opened Ordering
  import opened CellData
  import opened CellPairs
  import opened Arith

  /** Lexicographic order on pairs, the row order np.unique(axis=0) uses. */
  predicate PairLess(p: Pair, q: Pair) {
    p.0 < q.0 || (p.0 == q.0 && p.1 < q.1)
  }

  lemma PairLessIsStrictTotalOrder()
    ensures StrictTotalOrder(PairLess)
  {
  }

  /** pair_id: the distinct enumerated pairs in ascending order. */
  function PairIds(pairs: seq<Pair>): (ids: seq<Pair>)
    ensures StrictlySorted(ids, PairLess)
    ensures forall p :: p in ids <==> p in pairs
  {
    PairLessIsStrictTotalOrder();
    Unique(pairs, PairLess)
  }

  /** The overlap test `c / mean(l_a, l_b) > 0.5` in floating point. The mean
      of two zero lengths is 0, and c / 0.0 is +inf when c > 0 (true) and
      NaN when c == 0 (false). */
  predicate Overlaps(c: nat, la: nat, lb: nat) {
    if la + lb == 0 then c > 0
    else RatioExceeds(c as real, ((la + lb) as real) / 2.0, 0.5)
  }

  /** The floating-point overlap test is exactly the integer test
      4c > l_a + l_b. */
  lemma OverlapIsIntegerTest(c: nat, la: nat, lb: nat)
    ensures Overlaps(c, la, lb) <==> 4 * c > la + lb
  {
    if la + lb > 0 {
      var mean := ((la + lb) as real) / 2.0;
      RatioAbove(c as real, mean, 0.5);
    }
  }

  /** pi[np.argmin(cell_w[pi])]: np.argmin returns the first minimum, so
      on equal weights the first member of the pair loses. */
  function Loser(p: Pair, wa: real, wb: real): (x: nat)
    ensures (x == p.0 && wa <= wb) || (x == p.1 && wb < wa)
  {
    if wa <= wb then p.0 else p.1
  }

  predicate InRange(ids: seq<Pair>, n: nat) {
    forall k :: 0 <= k < |ids| ==> ids[k].0 < n && ids[k].1 < n
  }

  /** The member of pair p whose flag a triggering p clears. */
  function LoserOf(cells: seq<Cell>, p: Pair): nat
    requires p.0 < |cells| && p.1 < |cells|
  {
    Loser(p, TotalWeight(cells[p.0]), TotalWeight(cells[p.1]))
  }

  /** Both tests of step5.py:62-64. `corr` stands for "the Pearson
      correlation of the two series exceeds 0.5". */
  predicate Triggers(cells: seq<Cell>, corr: (seq<real>, seq<real>) -> bool, p: Pair, c: nat)
    requires p.0 < |cells| && p.1 < |cells|
  {
    Overlaps(c, cells[p.0].length, cells[p.1].length) && corr(cells[p.0].series, cells[p.1].series)
  }

  /** The flags after the first k entries of (ids, counts), in order. */
  function Resolve(valids: seq<bool>, cells: seq<Cell>, corr: (seq<real>, seq<real>) -> bool,
                   ids: seq<Pair>, counts: seq<nat>, k: nat): (r: seq<bool>)
    requires |valids| == |cells| && |ids| == |counts| && k <= |ids| && InRange(ids, |cells|)
    ensures |r| == |valids|
  {
    if k == 0 then valids
    else
      var prev := Resolve(valids, cells, corr, ids, counts, k - 1);
      if Triggers(cells, corr, ids[k - 1], counts[k - 1]) then prev[LoserOf(cells, ids[k - 1]) := false]
      else prev
  }

  /** The loop of step5.py:61-65, clearing flags in place. */
  method RemoveDuplicates(valids: array<bool>, cells: seq<Cell>, corr: (seq<real>, seq<real>) -> bool,
                          ids: seq<Pair>, counts: seq<nat>)
    requires valids.Length == |cells| && |ids| == |counts| && InRange(ids, |cells|)
    modifies valids
    ensures valids[..] == Resolve(old(valids[..]), cells, corr, ids, counts, |ids|)
  {
    for k := 0 to |ids|
      invariant valids[..] == Resolve(old(valids[..]), cells, corr, ids, counts, k)
    {
      var p := ids[k];
      var overlap := Overlaps(counts[k], cells[p.0].length, cells[p.1].length);
      var correlation := corr(cells[p.0].series, cells[p.1].series);
      if overlap && correlation {
        valids[Loser(p, TotalWeight(cells[p.0]), TotalWeight(cells[p.1]))] := false;
      }
    }
  }

  /** The (pair, count) entries of the loop, as a set. */
  function Entries(ids: seq<Pair>, counts: seq<nat>): set<(Pair, nat)>
    requires |ids| == |counts|
  {
    set k | 0 <= k < |ids| :: (ids[k], counts[k])
  }

  /** Some entry among the first k triggers and clears cell i. */
  ghost predicate ClearedBy(cells: seq<Cell>, corr: (seq<real>, seq<real>) -> bool,
                            ids: seq<Pair>, counts: seq<nat>, k: nat, i: nat)
    requires |ids| == |counts| && k <= |ids| && InRange(ids, |cells|)
  {
    exists m :: 0 <= m < k && Triggers(cells, corr, ids[m], counts[m]) && LoserOf(cells, ids[m]) == i
  }

  /** A flag survives exactly when it was set and no triggering entry
      names its cell as the loser. */
  lemma {:induction false} ResolveClosedForm(valids: seq<bool>, cells: seq<Cell>, corr: (seq<real>, seq<real>) -> bool,
                                             ids: seq<Pair>, counts: seq<nat>, k: nat, i: nat)
    requires |valids| == |cells| && |ids| == |counts| && k <= |ids| && InRange(ids, |cells|) && i < |cells|
    ensures Resolve(valids, cells, corr, ids, counts, k)[i] ==
              (valids[i] && !ClearedBy(cells, corr, ids, counts, k, i))
  {
    if k > 0 {
      ResolveClosedForm(valids, cells, corr, ids, counts, k - 1, i);
      var m := k - 1;
      if Triggers(cells, corr, ids[m], counts[m]) && LoserOf(cells, ids[m]) == i {
        assert ClearedBy(cells, corr, ids, counts, k, i);
      } else if ClearedBy(cells, corr, ids, counts, k, i) {
        var w :| 0 <= w < k && Triggers(cells, corr, ids[w], counts[w]) && LoserOf(cells, ids[w]) == i;
        assert w < k - 1;
        assert ClearedBy(cells, corr, ids, counts, k - 1, i);
      }
    }
  }

  /** Duplicate removal only clears flags, and a cell in no triggering
      pair keeps its flag. */
  lemma ResolveOnlyClears(valids: seq<bool>, cells: seq<Cell>, corr: (seq<real>, seq<real>) -> bool,
                          ids: seq<Pair>, counts: seq<nat>, i: nat)
    requires |valids| == |cells| && |ids| == |counts| && InRange(ids, |cells|) && i < |cells|
    ensures Resolve(valids, cells, corr, ids, counts, |ids|)[i] ==> valids[i]
    ensures (forall m :: 0 <= m < |ids| && i in {ids[m].0, ids[m].1} ==> !Triggers(cells, corr, ids[m], counts[m])) ==>
              Resolve(valids, cells, corr, ids, counts, |ids|)[i] == valids[i]
  {
    ResolveClosedForm(valids, cells, corr, ids, counts, |ids|, i);
  }

  /** The final flags depend only on the set of (pair, count) entries, not
      on the order in which the loop visits them. */
  lemma ResolveOrderIndependent(valids: seq<bool>, cells: seq<Cell>, corr: (seq<real>, seq<real>) -> bool,
                                ids1: seq<Pair>, counts1: seq<nat>, ids2: seq<Pair>, counts2: seq<nat>)
    requires |valids| == |cells| && |ids1| == |counts1| && |ids2| == |counts2|
    requires InRange(ids1, |cells|) && InRange(ids2, |cells|)
    requires Entries(ids1, counts1) == Entries(ids2, counts2)
    ensures Resolve(valids, cells, corr, ids1, counts1, |ids1|) == Resolve(valids, cells, corr, ids2, counts2, |ids2|)
  {
    forall i | 0 <= i < |cells|
      ensures Resolve(valids, cells, corr, ids1, counts1, |ids1|)[i] == Resolve(valids, cells, corr, ids2, counts2, |ids2|)[i]
    {
      ResolveClosedForm(valids, cells, corr, ids1, counts1, |ids1|, i);
      ResolveClosedForm(valids, cells, corr, ids2, counts2, |ids2|, i);
      ClearedByEntries(cells, corr, ids1, counts1, ids2, counts2, i);
      ClearedByEntries(cells, corr, ids2, counts2, ids1, counts1, i);
    }
  }

  lemma ClearedByEntries(cells: seq<Cell>, corr: (seq<real>, seq<real>) -> bool,
                         ids1: seq<Pair>, counts1: seq<nat>, ids2: seq<Pair>, counts2: seq<nat>, i: nat)
    requires |ids1| == |counts1| && |ids2| == |counts2|
    requires InRange(ids1, |cells|) && InRange(ids2, |cells|)
    requires Entries(ids1, counts1) <= Entries(ids2, counts2)
    ensures ClearedBy(cells, corr, ids1, counts1, |ids1|, i) ==> ClearedBy(cells, corr, ids2, counts2, |ids2|, i)
  {
    if ClearedBy(cells, corr, ids1, counts1, |ids1|, i) {
      var m :| 0 <= m < |ids1| && Triggers(cells, corr, ids1[m], counts1[m]) && LoserOf(cells, ids1[m]) == i;
      assert (ids1[m], counts1[m]) in Entries(ids1, counts1);
      var m2 :| 0 <= m2 < |ids2| && (ids2[m2], counts2[m2]) == (ids1[m], counts1[m]);
      assert Triggers(cells, corr, ids2[m2], counts2[m2]) && LoserOf(cells, ids2[m2]) == i;
    }
  }
}
