/** The mask test of step5.py:43-45: a cell is kept for further work when
    the mean of the brain mask over the voxels of its valid prefix exceeds
    the threshold `thr_mask`. */
module MaskValidity {
  import opened Grid
  import opened CellData
  import opened Arith

  /** Number of the first k slots of c whose voxel lies inside the mask. */
  function InMaskCount(d: Dims, mask: seq<bool>, c: Cell, k: nat): (n: nat)
    requires |mask| == d.Size() && WellFormed(d, c) && k <= c.length
    ensures n <= k
  {
    if k == 0 then 0
    else InMaskCount(d, mask, c, k - 1) + (if mask[VoxelOf(d, c, k - 1)] then 1 else 0)
  }

  /** np.mean over an empty prefix is NaN, which is never greater than the
      threshold, so a cell of length 0 is not valid. */
  predicate MaskValid(d: Dims, mask: seq<bool>, thr: real, c: Cell)
    requires |mask| == d.Size() && WellFormed(d, c)
  {
    c.length > 0 && MeanExceeds(InMaskCount(d, mask, c, c.length), c.length, thr)
  }

  /** The mean test is the count test `inside > thr * length`. */
  lemma MaskValidByCount(d: Dims, mask: seq<bool>, thr: real, c: Cell)
    requires |mask| == d.Size() && WellFormed(d, c)
    ensures MaskValid(d, mask, thr, c) <==>
              c.length > 0 && CountExceeds(InMaskCount(d, mask, c, c.length), c.length, thr)
  {
    if c.length > 0 {
      MeanAbove(InMaskCount(d, mask, c, c.length), c.length, thr);
    }
  }

  /** A cell whose whole prefix lies in the mask passes any threshold below 1;
      one with no voxel in the mask fails any non-negative threshold. */
  lemma MaskValidExtremes(d: Dims, mask: seq<bool>, thr: real, c: Cell)
    requires |mask| == d.Size() && WellFormed(d, c) && c.length > 0
    ensures InMaskCount(d, mask, c, c.length) == c.length && thr < 1.0 ==> MaskValid(d, mask, thr, c)
    ensures InMaskCount(d, mask, c, c.length) == 0 && thr >= 0.0 ==> !MaskValid(d, mask, thr, c)
  {
    MeanExtremes(InMaskCount(d, mask, c, c.length), c.length);
  }

  /** cell_valids after step5.py:43-45: one flag per cell, each decided from
      that cell alone. */
  method InitialValidity(d: Dims, mask: seq<bool>, thr: real, cells: seq<Cell>) returns (valids: array<bool>)
    requires |mask| == d.Size() && AllWellFormed(d, cells)
    ensures fresh(valids) && valids.Length == |cells|
    ensures forall i :: 0 <= i < |cells| ==> valids[i] == MaskValid(d, mask, thr, cells[i])
  {
    valids := new bool[|cells|];
    for i := 0 to |cells|
      invariant forall k :: 0 <= k < i ==> valids[k] == MaskValid(d, mask, thr, cells[k])
    {
      valids[i] := MaskValid(d, mask, thr, cells[i]);
    }
  }
}
