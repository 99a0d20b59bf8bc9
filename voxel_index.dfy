/** The voxel-to-cell bucket index of step5.py:47-54. For every valid cell,
    in ascending cell order, and every slot of its valid prefix, the cell's
    number is appended to the bucket of the slot's voxel and the voxel's
    counter is incremented. Invalid cells contribute no slot. */
module VoxelIndex {
  import opened Grid
  import opened CellData

  /** How many of the first k slots of c lie on voxel v. */
  function Hits(d: Dims, c: Cell, v: nat, k: nat): (n: nat)
    requires WellFormed(d, c) && k <= c.length
    ensures n <= k
  {
    if k == 0 then 0
    else Hits(d, c, v, k - 1) + (if VoxelOf(d, c, k - 1) == v then 1 else 0)
  }

  /** The voxels of c's valid prefix. */
  ghost predicate Covers(d: Dims, c: Cell, v: nat)
    requires WellFormed(d, c)
  {
    exists j :: 0 <= j < c.length && VoxelOf(d, c, j) == v
  }

  /** No voxel appears twice in the valid prefix of c. */
  predicate DistinctVoxels(d: Dims, c: Cell)
    requires WellFormed(d, c)
  {
    forall j, k :: 0 <= j < k < c.length ==> VoxelOf(d, c, j) != VoxelOf(d, c, k)
  }

  function Repeat(x: nat, n: nat): (r: seq<nat>)
    ensures |r| == n && forall k :: 0 <= k < n ==> r[k] == x
  {
    if n == 0 then [] else Repeat(x, n - 1) + [x]
  }

  /** range(li if vi else 0): the slots cell c contributes. */
  function Span(c: Cell, valid: bool): nat {
    if valid then c.length else 0
  }

  /** Bucket of voxel v once the first i cells have been appended. */
  function BucketPrefix(d: Dims, cells: seq<Cell>, valids: seq<bool>, v: nat, i: nat): seq<nat>
    requires AllWellFormed(d, cells) && |valids| == |cells| && i <= |cells|
  {
    if i == 0 then []
    else BucketPrefix(d, cells, valids, v, i - 1) +
         Repeat(i - 1, Hits(d, cells[i - 1], v, Span(cells[i - 1], valids[i - 1])))
  }

  /** volume_list after the loop, flattened in C order. */
  function Buckets(d: Dims, cells: seq<Cell>, valids: seq<bool>): (b: seq<seq<nat>>)
    requires AllWellFormed(d, cells) && |valids| == |cells|
    ensures |b| == d.Size()
  {
    seq(d.Size(), v requires 0 <= v < d.Size() => BucketPrefix(d, cells, valids, v, |cells|))
  }

  /** Builds volume_list and volume_cell_n as step5.py:48-54 does. */
  method BuildVoxelIndex(d: Dims, cells: seq<Cell>, valids: array<bool>)
    returns (volumeList: array<seq<nat>>, volumeCellN: array<int>)
    requires AllWellFormed(d, cells) && valids.Length == |cells|
    ensures fresh(volumeList) && fresh(volumeCellN)
    ensures volumeList[..] == Buckets(d, cells, valids[..])
    ensures volumeCellN.Length == d.Size()
    ensures forall v :: 0 <= v < d.Size() ==> volumeCellN[v] == |volumeList[v]|
  {
    ghost var vs := valids[..];
    volumeList, volumeCellN := EmptyIndex(d.Size());
    for i := 0 to |cells|
      invariant BucketsAfter(d, cells, vs, i, volumeList[..], volumeCellN[..])
    {
      ghost var lists, counts := volumeList[..], volumeCellN[..];
      AppendSlots(d, cells[i], i, Span(cells[i], valids[i]), volumeList, volumeCellN);
      CellStep(d, cells, vs, i, lists, counts, volumeList[..], volumeCellN[..]);
    }
    BucketsComplete(d, cells, vs, volumeList[..], volumeCellN[..]);
    assert forall v :: 0 <= v < d.Size() ==> volumeCellN[..][v] == volumeCellN[v];
  }

  /** Once every cell has been appended the buckets are Buckets. */
  lemma BucketsComplete(d: Dims, cells: seq<Cell>, valids: seq<bool>, lists: seq<seq<nat>>, counts: seq<int>)
    requires AllWellFormed(d, cells) && |valids| == |cells|
    requires BucketsAfter(d, cells, valids, |cells|, lists, counts)
    ensures lists == Buckets(d, cells, valids)
  {
  }

  /** step5.py:48-49: one empty bucket and one zero counter per voxel. */
  method EmptyIndex(size: nat) returns (volumeList: array<seq<nat>>, volumeCellN: array<int>)
    ensures fresh(volumeList) && fresh(volumeCellN)
    ensures volumeList[..] == seq(size, _ => []) && volumeCellN[..] == seq(size, _ => 0)
  {
    volumeList := new seq<nat>[size](_ => []);
    volumeCellN := new int[size](_ => 0);
  }

  /** Every bucket and counter as they stand once the first i cells have
      been appended. */
  predicate BucketsAfter(d: Dims, cells: seq<Cell>, valids: seq<bool>, i: nat, lists: seq<seq<nat>>, counts: seq<int>)
    requires AllWellFormed(d, cells) && |valids| == |cells| && i <= |cells|
  {
    |lists| == |counts| == d.Size() &&
    forall v :: 0 <= v < d.Size() ==> lists[v] == BucketPrefix(d, cells, valids, v, i) && counts[v] == |lists[v]|
  }

  /** Appending the slots of cell i moves every bucket from the prefix of i
      cells to the prefix of i + 1. */
  lemma CellStep(d: Dims, cells: seq<Cell>, valids: seq<bool>, i: nat, lists: seq<seq<nat>>, counts: seq<int>,
                 lists1: seq<seq<nat>>, counts1: seq<int>)
    requires AllWellFormed(d, cells) && |valids| == |cells| && i < |cells|
    requires BucketsAfter(d, cells, valids, i, lists, counts)
    requires SlotsAppended(d, cells[i], i, Span(cells[i], valids[i]), lists, lists1, counts1)
    ensures BucketsAfter(d, cells, valids, i + 1, lists1, counts1)
  {
  }

  /** Bucket v holds its initial entries followed by i once per slot among
      the first j of c that lies on v, and every counter is its bucket's
      length. */
  predicate SlotsAppended(d: Dims, c: Cell, i: nat, j: nat, lists0: seq<seq<nat>>, lists: seq<seq<nat>>, counts: seq<int>)
    requires WellFormed(d, c) && j <= c.length
  {
    |lists0| == |lists| == |counts| == d.Size() &&
    forall v :: 0 <= v < d.Size() ==> lists[v] == lists0[v] + Repeat(i, Hits(d, c, v, j)) && counts[v] == |lists[v]|
  }

  /** The inner loop of step5.py:50-54 for cell number i: each of the
      first li slots appends i to the bucket of its voxel and counts it. */
  method AppendSlots(d: Dims, c: Cell, i: nat, li: nat, volumeList: array<seq<nat>>, volumeCellN: array<int>)
    requires WellFormed(d, c) && li <= c.length
    requires volumeList.Length == volumeCellN.Length == d.Size()
    requires forall v :: 0 <= v < d.Size() ==> volumeCellN[v] == |volumeList[v]|
    modifies volumeList, volumeCellN
    ensures SlotsAppended(d, c, i, li, old(volumeList[..]), volumeList[..], volumeCellN[..])
  {
    ghost var lists0 := volumeList[..];
    for j := 0 to li
      invariant SlotsAppended(d, c, i, j, lists0, volumeList[..], volumeCellN[..])
    {
      var w := d.Index(c.coords[j]);
      ghost var lists, counts := volumeList[..], volumeCellN[..];
      AppendSlot(volumeList, volumeCellN, w, i);
      AppendStep(d, c, i, j, w, lists0, lists, counts, volumeList[..], volumeCellN[..]);
    }
  }

  /** step5.py:53-54 for one slot on voxel w. */
  method AppendSlot(volumeList: array<seq<nat>>, volumeCellN: array<int>, w: nat, i: nat)
    requires w < volumeList.Length == volumeCellN.Length
    modifies volumeList, volumeCellN
    ensures volumeList[..] == old(volumeList[..])[w := old(volumeList[w]) + [i]]
    ensures volumeCellN[..] == old(volumeCellN[..])[w := old(volumeCellN[w]) + 1]
  {
    volumeList[w] := volumeList[w] + [i];
    volumeCellN[w] := volumeCellN[w] + 1;
  }

  /** Appending slot j of c keeps SlotsAppended, now over j + 1 slots. */
  lemma AppendStep(d: Dims, c: Cell, i: nat, j: nat, w: nat, lists0: seq<seq<nat>>,
                   lists: seq<seq<nat>>, counts: seq<int>, lists1: seq<seq<nat>>, counts1: seq<int>)
    requires WellFormed(d, c) && j < c.length && w == VoxelOf(d, c, j)
    requires SlotsAppended(d, c, i, j, lists0, lists, counts) && w < |lists|
    requires lists1 == lists[w := lists[w] + [i]] && counts1 == counts[w := counts[w] + 1]
    ensures SlotsAppended(d, c, i, j + 1, lists0, lists1, counts1)
  {
    forall v | 0 <= v < d.Size()
      ensures lists1[v] == lists0[v] + Repeat(i, Hits(d, c, v, j + 1)) && counts1[v] == |lists1[v]|
    {
      HitStep(d, c, v, j, i);
    }
  }

  /** One more slot appends the cell number to the bucket of its voxel
      and leaves every other bucket alone. */
  lemma HitStep(d: Dims, c: Cell, v: nat, j: nat, i: nat)
    requires WellFormed(d, c) && j < c.length
    ensures Repeat(i, Hits(d, c, v, j + 1)) == Repeat(i, Hits(d, c, v, j)) + (if VoxelOf(d, c, j) == v then [i] else [])
  {
  }

  lemma {:induction false} HitsPositive(d: Dims, c: Cell, v: nat, k: nat)
    requires WellFormed(d, c) && k <= c.length
    ensures Hits(d, c, v, k) > 0 <==> exists j :: 0 <= j < k && VoxelOf(d, c, j) == v
  {
    if k > 0 {
      HitsPositive(d, c, v, k - 1);
    }
  }

  /** With distinct voxels a cell hits each voxel at most once. */
  lemma {:induction false} HitsAtMostOne(d: Dims, c: Cell, v: nat, k: nat)
    requires WellFormed(d, c) && DistinctVoxels(d, c) && k <= c.length
    ensures Hits(d, c, v, k) <= 1
  {
    if k > 0 {
      HitsAtMostOne(d, c, v, k - 1);
      HitsPositive(d, c, v, k - 1);
    }
  }

  lemma {:induction false} RepeatCount(x: nat, n: nat, y: nat)
    ensures multiset(Repeat(x, n))[y] == if y == x then n else 0
  {
    if n > 0 {
      RepeatCount(x, n - 1, y);
    }
  }

  /** Cell x occurs in the bucket of v once per slot it has on v, if it is
      valid, and not at all otherwise. */
  lemma {:induction false} BucketOccurrences(d: Dims, cells: seq<Cell>, valids: seq<bool>, v: nat, i: nat, x: nat)
    requires AllWellFormed(d, cells) && |valids| == |cells| && i <= |cells|
    ensures multiset(BucketPrefix(d, cells, valids, v, i))[x] ==
              if x < i && valids[x] then Hits(d, cells[x], v, cells[x].length) else 0
  {
    if i > 0 {
      BucketOccurrences(d, cells, valids, v, i - 1, x);
      OccurrencesStep(d, cells, valids, v, i, x);
    }
  }

  /** Appending cell i - 1 adds its hits on v to the count of i - 1 and
      leaves the count of every other cell alone. */
  lemma OccurrencesStep(d: Dims, cells: seq<Cell>, valids: seq<bool>, v: nat, i: nat, x: nat)
    requires AllWellFormed(d, cells) && |valids| == |cells| && 0 < i <= |cells|
    requires multiset(BucketPrefix(d, cells, valids, v, i - 1))[x] ==
               if x < i - 1 && valids[x] then Hits(d, cells[x], v, cells[x].length) else 0
    ensures multiset(BucketPrefix(d, cells, valids, v, i))[x] ==
              if x < i && valids[x] then Hits(d, cells[x], v, cells[x].length) else 0
  {
    var a: seq<nat> := BucketPrefix(d, cells, valids, v, i - 1);
    var h := Hits(d, cells[i - 1], v, Span(cells[i - 1], valids[i - 1]));
    var before := if x < i - 1 && valids[x] then Hits(d, cells[x], v, cells[x].length) else 0;
    var after := if x < i && valids[x] then Hits(d, cells[x], v, cells[x].length) else 0;
    assert after == before + if x == i - 1 then h else 0 by {
      if x == i - 1 {
        assert before == 0;
        if !valids[x] { assert Span(cells[x], valids[x]) == 0; }
      }
    }
    AppendedCount(a, i - 1, h, x, before, after);
  }

  /** Appending n copies of y adds n to the count of y and nothing to any other. */
  lemma AppendedCount(a: seq<nat>, y: nat, n: nat, x: nat, before: nat, after: nat)
    requires multiset(a)[x] == before
    requires after == before + if x == y then n else 0
    ensures multiset(a + Repeat(y, n))[x] == after
  {
    RepeatCount(y, n, x);
    assert multiset(a + Repeat(y, n)) == multiset(a) + multiset(Repeat(y, n));
  }

  /** Cell x is in the bucket of voxel v exactly when x is valid and v is
      among the voxels of its valid prefix. */
  lemma BucketMembership(d: Dims, cells: seq<Cell>, valids: seq<bool>, v: nat, x: nat)
    requires AllWellFormed(d, cells) && |valids| == |cells| && v < d.Size()
    ensures x in Buckets(d, cells, valids)[v] <==> x < |cells| && valids[x] && Covers(d, cells[x], v)
  {
    BucketOccurrences(d, cells, valids, v, |cells|, x);
    if x < |cells| {
      HitsPositive(d, cells[x], v, cells[x].length);
    }
  }

  /** Entries below `bound`, in non-decreasing order. */
  predicate AscendingBelow(b: seq<nat>, bound: nat) {
    (forall k :: 0 <= k < |b| ==> b[k] < bound) &&
    (forall k, m :: 0 <= k < m < |b| ==> b[k] <= b[m])
  }

  /** Entries below `bound`, in increasing order. */
  predicate StrictlyAscendingBelow(b: seq<nat>, bound: nat) {
    (forall k :: 0 <= k < |b| ==> b[k] < bound) &&
    (forall k, m :: 0 <= k < m < |b| ==> b[k] < b[m])
  }

  /** Every bucket lists cell numbers below i in non-decreasing order. */
  lemma {:induction false} BucketAscending(d: Dims, cells: seq<Cell>, valids: seq<bool>, v: nat, i: nat)
    requires AllWellFormed(d, cells) && |valids| == |cells| && i <= |cells|
    ensures AscendingBelow(BucketPrefix(d, cells, valids, v, i), i)
  {
    if i > 0 {
      BucketAscending(d, cells, valids, v, i - 1);
      var a := BucketPrefix(d, cells, valids, v, i - 1);
      var r := Repeat(i - 1, Hits(d, cells[i - 1], v, Span(cells[i - 1], valids[i - 1])));
      var b := a + r;
      assert BucketPrefix(d, cells, valids, v, i) == b;
      assert forall k :: 0 <= k < |b| ==> b[k] == if k < |a| then a[k] else i - 1;
    }
  }

  /** When no cell repeats a voxel, every bucket is strictly ascending. */
  lemma {:induction false} BucketStrictlyAscending(d: Dims, cells: seq<Cell>, valids: seq<bool>, v: nat, i: nat)
    requires AllWellFormed(d, cells) && |valids| == |cells| && i <= |cells|
    requires forall x :: 0 <= x < |cells| ==> DistinctVoxels(d, cells[x])
    ensures StrictlyAscendingBelow(BucketPrefix(d, cells, valids, v, i), i)
  {
    if i > 0 {
      BucketStrictlyAscending(d, cells, valids, v, i - 1);
      HitsAtMostOne(d, cells[i - 1], v, Span(cells[i - 1], valids[i - 1]));
      var a := BucketPrefix(d, cells, valids, v, i - 1);
      var r := Repeat(i - 1, Hits(d, cells[i - 1], v, Span(cells[i - 1], valids[i - 1])));
      var b := a + r;
      assert |r| <= 1;
      assert BucketPrefix(d, cells, valids, v, i) == b;
      assert forall k :: 0 <= k < |b| ==> b[k] == if k < |a| then a[k] else i - 1;
    }
  }
}
