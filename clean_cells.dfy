/** One colour channel of clean_cells (step5.py:23-115) without the file
    reads and writes: the raw cells, the mask and the dimensions come in as
    values, and the catalogue that step5.py:100-115 writes comes out as a
    value. The Pearson test is the predicate `corr` and clean_signal the
    function `clean`. */
module CleanCells {
  import opened Grid
  import opened Ordering
  import opened CellData
  import opened MaskValidity
  import opened VoxelIndex
  import opened CellPairs
  import opened Duplicates
  import opened Survivors
  import opened Baselines
  import opened Ownership

  /** What step5.py:100-115 writes for a channel (dimensions and the
      background aside): the survivor count n, the surviving cells with
      their coordinates, weights and NaN-cleaned series, the ownership
      volume, and the corrected series and baselines of each survivor. */
  datatype Catalogue = Catalogue(n: nat, cells: seq<Cell>, volumeId: seq<int>, volumeWeight: seq<real>,
                                 corrected: seq<Series>, baselines: seq<Series>)

  /** cell_valids after step5.py:43-45. */
  function InitialFlags(d: Dims, mask: seq<bool>, thr: real, cells: seq<Cell>): (flags: seq<bool>)
    requires |mask| == d.Size() && AllWellFormed(d, cells)
    ensures |flags| == |cells|
  {
    seq(|cells|, i requires 0 <= i < |cells| => MaskValid(d, mask, thr, cells[i]))
  }

  /** pair_cells of step5.py:56, for the given flags. */
  function ChannelPairs(d: Dims, cells: seq<Cell>, flags: seq<bool>): seq<Pair>
    requires AllWellFormed(d, cells) && |flags| == |cells|
  {
    AllPairs(Buckets(d, cells, flags))
  }

  /** Every distinct pair names two cells of the channel. */
  lemma PairsInRange(d: Dims, cells: seq<Cell>, flags: seq<bool>)
    requires AllWellFormed(d, cells) && |flags| == |cells|
    ensures InRange(PairIds(ChannelPairs(d, cells, flags)), |cells|)
  {
    var bs := Buckets(d, cells, flags);
    forall v | 0 <= v < |bs| ensures AscendingBelow(bs[v], |cells|) {
      BucketAscending(d, cells, flags, v, |cells|);
    }
    var ids := PairIds(ChannelPairs(d, cells, flags));
    forall k | 0 <= k < |ids| ensures ids[k].0 < |cells| && ids[k].1 < |cells| {
      PairsOrdered(bs, |cells|, ids[k]);
    }
  }

  /** cell_valids after the duplicate loop of step5.py:61-65. */
  function FinalFlags(d: Dims, mask: seq<bool>, thr: real, cells: seq<Cell>,
                      corr: (seq<real>, seq<real>) -> bool): (keep: seq<bool>)
    requires |mask| == d.Size() && AllWellFormed(d, cells)
    ensures |keep| == |cells|
  {
    var flags := InitialFlags(d, mask, thr, cells);
    var pairs := ChannelPairs(d, cells, flags);
    var ids := PairIds(pairs);
    PairsInRange(d, cells, flags);
    Resolve(flags, cells, corr, ids, Counts(pairs, ids), |ids|)
  }

  function SeriesOf(cells: seq<Cell>): (series: seq<Series>)
    ensures |series| == |cells|
    ensures forall k :: 0 <= k < |cells| ==> series[k] == cells[k].series
  {
    seq(|cells|, k requires 0 <= k < |cells| => cells[k].series)
  }

  /** The survivors lie on the grid like every other cell. */
  lemma SelectWellFormed(d: Dims, cells: seq<Cell>, keep: seq<bool>)
    requires AllWellFormed(d, cells) && |keep| == |cells|
    ensures AllWellFormed(d, Select(cells, keep))
  {
    SelectKept(cells, keep);
  }

  /** cell_valids as step5.py:43-65 leaves it: the mask test, the voxel
      index, the pair enumeration with the identity asserted at
      step5.py:57, and the duplicate loop. */
  method SurvivorFlags(d: Dims, mask: seq<bool>, thr: real, cells: seq<Cell>,
                       corr: (seq<real>, seq<real>) -> bool)
    returns (keep: seq<bool>)
    requires |mask| == d.Size() && AllWellFormed(d, cells)
    ensures keep == FinalFlags(d, mask, thr, cells, corr)
  {
    var valids := InitialValidity(d, mask, thr, cells);
    assert valids[..] == InitialFlags(d, mask, thr, cells);
    var volumeList, volumeCellN := BuildVoxelIndex(d, cells, valids);
    var pairs := AllPairs(volumeList[..]);
    PairTotal(volumeList[..], volumeCellN[..]);
    assert |pairs| == TriangleSum(volumeCellN[..]);
    var ids := PairIds(pairs);
    var counts := Counts(pairs, ids);
    PairsInRange(d, cells, valids[..]);
    RemoveDuplicates(valids, cells, corr, ids, counts);
    keep := valids[..];
  }

  /** The body of the channel loop of step5.py:19-115. The baselines are
      split positionally, one pair per survivor, as the parallel path of
      step5.py:80 and 85 does for a non-empty channel. */
  method CleanChannel(d: Dims, mask: seq<bool>, thr: real, raws: seq<RawCell>,
                      corr: (seq<real>, seq<real>) -> bool, clean: Series -> (Series, Series))
    returns (cat: Catalogue)
    requires |mask| == d.Size() && AllWellFormed(d, CleanAll(raws))
    ensures var cells := CleanAll(raws);
            var keep := FinalFlags(d, mask, thr, cells, corr);
            cat.n == CountTrue(keep) == |cat.cells| && cat.cells == Select(cells, keep)
    ensures |cat.volumeId| == |cat.volumeWeight| == d.Size()
    ensures AllWellFormed(d, cat.cells)
    ensures forall v :: 0 <= v < d.Size() ==> (cat.volumeId[v], cat.volumeWeight[v]) == Owner(Claims(d, cat.cells, v))
    ensures forall v :: 0 <= v < d.Size() ==> -1 <= cat.volumeId[v] < cat.n
    ensures (cat.corrected, cat.baselines) == Extract(SeriesOf(cat.cells), clean)
  {
    var cells := CleanAll(raws);
    var keep := SurvivorFlags(d, mask, thr, cells, corr);
    var survivors := Select(cells, keep);
    SelectKept(cells, keep);
    SelectWellFormed(d, cells, keep);
    var (corrected, baselines) := Extract(SeriesOf(survivors), clean);
    var volumeId, volumeWeight := AssignOwnership(d, survivors);
    forall v | 0 <= v < d.Size() ensures -1 <= volumeId[v] < |survivors| {
      OwnershipVolume(d, survivors, v);
    }
    cat := Catalogue(CountTrue(keep), survivors, volumeId[..], volumeWeight[..], corrected, baselines);
  }

  /** A cell survives exactly when its mask test passes and no triggering
      pair names it as the lighter member. */
  lemma Survival(d: Dims, mask: seq<bool>, thr: real, cells: seq<Cell>,
                 corr: (seq<real>, seq<real>) -> bool, i: nat)
    requires |mask| == d.Size() && AllWellFormed(d, cells) && i < |cells|
    ensures var flags := InitialFlags(d, mask, thr, cells);
            var pairs := ChannelPairs(d, cells, flags);
            var ids := PairIds(pairs);
            InRange(ids, |cells|) &&
            (FinalFlags(d, mask, thr, cells, corr)[i] <==>
               MaskValid(d, mask, thr, cells[i]) && !ClearedBy(cells, corr, ids, Counts(pairs, ids), |ids|, i))
  {
    var flags := InitialFlags(d, mask, thr, cells);
    var pairs := ChannelPairs(d, cells, flags);
    var ids := PairIds(pairs);
    PairsInRange(d, cells, flags);
    ResolveClosedForm(flags, cells, corr, ids, Counts(pairs, ids), |ids|, i);
  }
}
