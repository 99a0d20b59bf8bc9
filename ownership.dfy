/** Voxel ownership of step5.py:87-95. Survivors are visited in order, and
    the slots of each survivor in order; a slot takes its voxel when its
    weight is strictly greater than the weight recorded there so far.
    volume_id starts at -1 and volume_weight at 0 everywhere. */
module Ownership {
  import opened Grid
  import opened CellData
  import opened VoxelIndex

  /** A slot's bid for a voxel: the survivor's number and the slot weight. */
  type Claim = (int, real)

  /** The bids of the first j slots of survivor c (number i) for voxel v. */
  function SlotClaims(d: Dims, c: Cell, i: nat, v: nat, j: nat): seq<Claim>
    requires WellFormed(d, c) && j <= c.length
  {
    if j == 0 then []
    else SlotClaims(d, c, i, v, j - 1) + (if VoxelOf(d, c, j - 1) == v then [(i as int, c.weights[j - 1])] else [])
  }

  /** The bids of the first i survivors for voxel v, in visiting order. */
  function ClaimsPrefix(d: Dims, cells: seq<Cell>, v: nat, i: nat): seq<Claim>
    requires AllWellFormed(d, cells) && i <= |cells|
  {
    if i == 0 then []
    else ClaimsPrefix(d, cells, v, i - 1) + SlotClaims(d, cells[i - 1], i - 1, v, cells[i - 1].length)
  }

  function Claims(d: Dims, cells: seq<Cell>, v: nat): seq<Claim>
    requires AllWellFormed(d, cells)
  {
    ClaimsPrefix(d, cells, v, |cells|)
  }

  /** One comparison of step5.py:93: a bid replaces the current entry
      only when its weight is strictly greater. */
  function Bid(current: Claim, bid: Claim): Claim {
    if bid.1 > current.1 then bid else current
  }

  /** The entry at a voxel once the given bids have been visited in order,
      starting from `start`. */
  function Visit(start: Claim, claims: seq<Claim>): Claim {
    if claims == [] then start
    else Bid(Visit(start, claims[..|claims| - 1]), claims[|claims| - 1])
  }

  /** (volume_id, volume_weight) at a voxel: the visit from (-1, 0). */
  function Owner(claims: seq<Claim>): Claim {
    Visit((-1, 0.0), claims)
  }

  lemma {:induction false} VisitAppend(start: Claim, a: seq<Claim>, b: seq<Claim>)
    ensures Visit(start, a + b) == Visit(Visit(start, a), b)
  {
    if b == [] {
      assert a + b == a;
    } else {
      assert (a + b)[..|a + b| - 1] == a + b[..|b| - 1];
      VisitAppend(start, a, b[..|b| - 1]);
    }
  }

  /** max(0, every bid's weight). */
  function MaxWeight(claims: seq<Claim>): (w: real)
    ensures w >= 0.0
    ensures forall k :: 0 <= k < |claims| ==> claims[k].1 <= w
    ensures w == 0.0 || exists k :: 0 <= k < |claims| && claims[k].1 == w
  {
    if claims == [] then 0.0
    else
      var front := claims[..|claims| - 1];
      var m := MaxWeight(front);
      var last := claims[|claims| - 1];
      assert forall k :: 0 <= k < |front| ==> claims[k] == front[k];
      if last.1 > m then last.1 else m
  }

  /** volume_id and volume_weight as step5.py:88-95 computes them. */
  method AssignOwnership(d: Dims, cells: seq<Cell>) returns (volumeId: array<int>, volumeWeight: array<real>)
    requires AllWellFormed(d, cells)
    ensures fresh(volumeId) && fresh(volumeWeight)
    ensures volumeId.Length == volumeWeight.Length == d.Size()
    ensures forall v :: 0 <= v < d.Size() ==> (volumeId[v], volumeWeight[v]) == Owner(Claims(d, cells, v))
  {
    volumeId := new int[d.Size()](_ => -1);
    volumeWeight := new real[d.Size()](_ => 0.0);
    for i := 0 to |cells|
      invariant OwnersAfter(d, cells, i, volumeId[..], volumeWeight[..])
    {
      ghost var ids, weights := volumeId[..], volumeWeight[..];
      ClaimSlots(d, cells[i], i, volumeId, volumeWeight);
      SlotsVisitMeaning(d, cells[i], i, cells[i].length, ids, weights);
      SurvivorStep(d, cells, i, ids, weights, volumeId[..], volumeWeight[..]);
    }
    assert forall v :: 0 <= v < d.Size() ==> volumeId[..][v] == volumeId[v] && volumeWeight[..][v] == volumeWeight[v];
  }

  /** At every voxel the entries are the owner after the first i survivors. */
  predicate OwnersAfter(d: Dims, cells: seq<Cell>, i: nat, ids: seq<int>, weights: seq<real>)
    requires AllWellFormed(d, cells) && i <= |cells|
  {
    |ids| == |weights| == d.Size() &&
    forall v :: 0 <= v < d.Size() ==> (ids[v], weights[v]) == Owner(ClaimsPrefix(d, cells, v, i))
  }

  /** Visiting the slots of survivor i moves every voxel's entry from the
      owner after i survivors to the owner after i + 1. */
  lemma SurvivorStep(d: Dims, cells: seq<Cell>, i: nat, ids: seq<int>, weights: seq<real>,
                     ids1: seq<int>, weights1: seq<real>)
    requires AllWellFormed(d, cells) && i < |cells|
    requires OwnersAfter(d, cells, i, ids, weights)
    requires SlotsVisited(d, cells[i], i, cells[i].length, ids, weights, ids1, weights1)
    ensures OwnersAfter(d, cells, i + 1, ids1, weights1)
  {
    forall v | 0 <= v < d.Size()
      ensures (ids1[v], weights1[v]) == Owner(ClaimsPrefix(d, cells, v, i + 1))
    {
      VisitAppend((-1, 0.0), ClaimsPrefix(d, cells, v, i), SlotClaims(d, cells[i], i, v, cells[i].length));
    }
  }

  /** The inner loop of step5.py:91-95 for survivor number i. */
  method ClaimSlots(d: Dims, c: Cell, i: nat, volumeId: array<int>, volumeWeight: array<real>)
    requires WellFormed(d, c) && volumeId.Length == volumeWeight.Length == d.Size()
    modifies volumeId, volumeWeight
    ensures (volumeId[..], volumeWeight[..]) == SlotsVisit(d, c, i, c.length, old(volumeId[..]), old(volumeWeight[..]))
  {
    ghost var ids0, weights0 := volumeId[..], volumeWeight[..];
    for j := 0 to c.length
      invariant (volumeId[..], volumeWeight[..]) == SlotsVisit(d, c, i, j, ids0, weights0)
    {
      TakeIfHeavier(volumeId, volumeWeight, VoxelOf(d, c, j), i, c.weights[j]);
    }
  }

  /** step5.py:93-95 for one slot: the bid of survivor i with the given
      weight takes voxel w when it is strictly heavier. */
  method TakeIfHeavier(volumeId: array<int>, volumeWeight: array<real>, w: nat, i: nat, weight: real)
    requires volumeId.Length == volumeWeight.Length && w < volumeId.Length
    modifies volumeId, volumeWeight
    ensures (volumeId[..], volumeWeight[..]) == Take(old(volumeId[..]), old(volumeWeight[..]), w, i, weight)
  {
    if weight > volumeWeight[w] {
      volumeId[w] := i;
      volumeWeight[w] := weight;
    }
  }

  /** The arrays after one comparison of step5.py:93 at voxel w. */
  function Take(ids: seq<int>, weights: seq<real>, w: nat, i: nat, weight: real): (seq<int>, seq<real>)
    requires w < |ids| == |weights|
  {
    if weight > weights[w] then (ids[w := i], weights[w := weight]) else (ids, weights)
  }

  /** The arrays once the first j slots of survivor c (number i) have been
      visited, from ids0 and weights0. */
  function SlotsVisit(d: Dims, c: Cell, i: nat, j: nat, ids0: seq<int>, weights0: seq<real>): (r: (seq<int>, seq<real>))
    requires WellFormed(d, c) && j <= c.length && |ids0| == |weights0| == d.Size()
    ensures |r.0| == |r.1| == d.Size()
  {
    if j == 0 then (ids0, weights0)
    else
      var prev := SlotsVisit(d, c, i, j - 1, ids0, weights0);
      Take(prev.0, prev.1, VoxelOf(d, c, j - 1), i, c.weights[j - 1])
  }

  /** The arrays after SlotsVisit hold, at every voxel, the visit of that
      voxel's bids. */
  lemma {:induction false} SlotsVisitMeaning(d: Dims, c: Cell, i: nat, j: nat, ids0: seq<int>, weights0: seq<real>)
    requires WellFormed(d, c) && j <= c.length && |ids0| == |weights0| == d.Size()
    ensures SlotsVisited(d, c, i, j, ids0, weights0, SlotsVisit(d, c, i, j, ids0, weights0).0, SlotsVisit(d, c, i, j, ids0, weights0).1)
  {
    if j > 0 {
      SlotsVisitMeaning(d, c, i, j - 1, ids0, weights0);
      var prev := SlotsVisit(d, c, i, j - 1, ids0, weights0);
      var next := SlotsVisit(d, c, i, j, ids0, weights0);
      ClaimStep(d, c, i, j - 1, VoxelOf(d, c, j - 1), ids0, weights0, prev.0, prev.1, next.0, next.1);
    }
  }

  /** At every voxel the entries are the visit, from ids0 and weights0, of
      the bids of the first j slots of survivor c (number i). */
  predicate SlotsVisited(d: Dims, c: Cell, i: nat, j: nat, ids0: seq<int>, weights0: seq<real>,
                         ids: seq<int>, weights: seq<real>)
    requires WellFormed(d, c) && j <= c.length
  {
    |ids0| == |weights0| == |ids| == |weights| == d.Size() &&
    forall v :: 0 <= v < d.Size() ==> (ids[v], weights[v]) == Visit((ids0[v], weights0[v]), SlotClaims(d, c, i, v, j))
  }

  /** One pass of the inner loop body keeps SlotsVisited. */
  lemma ClaimStep(d: Dims, c: Cell, i: nat, j: nat, w: nat, ids0: seq<int>, weights0: seq<real>,
                  ids: seq<int>, weights: seq<real>, ids1: seq<int>, weights1: seq<real>)
    requires WellFormed(d, c) && j < c.length && w == VoxelOf(d, c, j)
    requires SlotsVisited(d, c, i, j, ids0, weights0, ids, weights)
    requires (ids1, weights1) == Take(ids, weights, w, i, c.weights[j])
    ensures SlotsVisited(d, c, i, j + 1, ids0, weights0, ids1, weights1)
  {
    forall v | 0 <= v < d.Size()
      ensures (ids1[v], weights1[v]) == Visit((ids0[v], weights0[v]), SlotClaims(d, c, i, v, j + 1))
    {
      SlotStep(d, c, i, v, j, (ids0[v], weights0[v]), (ids[v], weights[v]));
    }
  }

  /** One slot of the inner loop: the entry at voxel v moves by one Bid
      when the slot lies on v, and stays put otherwise. */
  lemma SlotStep(d: Dims, c: Cell, i: nat, v: nat, j: nat, start: Claim, current: Claim)
    requires WellFormed(d, c) && j < c.length
    requires current == Visit(start, SlotClaims(d, c, i, v, j))
    ensures Visit(start, SlotClaims(d, c, i, v, j + 1)) ==
            if VoxelOf(d, c, j) == v then Bid(current, (i as int, c.weights[j])) else current
  {
    var before := SlotClaims(d, c, i, v, j);
    var after := SlotClaims(d, c, i, v, j + 1);
    if VoxelOf(d, c, j) == v {
      assert after == before + [(i as int, c.weights[j])];
      assert after[..|after| - 1] == before;
    } else {
      assert after == before;
    }
  }

  /** The recorded weight is max(0, the greatest bid). */
  lemma {:induction false} OwnerWeightIsMax(claims: seq<Claim>)
    ensures Owner(claims).1 == MaxWeight(claims)
  {
    if claims != [] {
      OwnerWeightIsMax(claims[..|claims| - 1]);
    }
  }

  /** The recorded owner is -1 exactly when no bid exceeds 0; otherwise it
      is the first bid, in visiting order, that attains the maximum. */
  lemma {:induction false} OwnerIsFirstMaximum(claims: seq<Claim>)
    requires forall k :: 0 <= k < |claims| ==> claims[k].0 >= 0
    ensures Owner(claims).0 == -1 <==> forall k :: 0 <= k < |claims| ==> claims[k].1 <= 0.0
    ensures Owner(claims).0 == -1 ==> Owner(claims).1 == 0.0
    ensures Owner(claims).0 != -1 ==>
              exists k :: 0 <= k < |claims| && claims[k] == Owner(claims) &&
                          forall m :: 0 <= m < k ==> claims[m].1 < claims[k].1
  {
    if claims != [] {
      var front := claims[..|claims| - 1];
      OwnerIsFirstMaximum(front);
      OwnerWeightIsMax(front);
      assert forall k :: 0 <= k < |front| ==> claims[k] == front[k];
    }
  }

  /** Every bid for a voxel comes from a survivor number below i, from a
      slot of that survivor on the voxel; and every such slot bids. */
  lemma {:induction false} ClaimsMembers(d: Dims, cells: seq<Cell>, v: nat, i: nat, cl: Claim)
    requires AllWellFormed(d, cells) && i <= |cells|
    ensures cl in ClaimsPrefix(d, cells, v, i) <==>
              0 <= cl.0 < i && exists j :: 0 <= j < cells[cl.0].length &&
                                           VoxelOf(d, cells[cl.0], j) == v && cells[cl.0].weights[j] == cl.1
  {
    if i > 0 {
      ClaimsMembers(d, cells, v, i - 1, cl);
      SlotClaimsMembers(d, cells[i - 1], i - 1, v, cells[i - 1].length, cl);
    }
  }

  lemma {:induction false} SlotClaimsMembers(d: Dims, c: Cell, i: nat, v: nat, j: nat, cl: Claim)
    requires WellFormed(d, c) && j <= c.length
    ensures cl in SlotClaims(d, c, i, v, j) <==>
              cl.0 == i && exists s :: 0 <= s < j && VoxelOf(d, c, s) == v && c.weights[s] == cl.1
  {
    if j > 0 {
      SlotClaimsMembers(d, c, i, v, j - 1, cl);
    }
  }

  /** After the loop, at every voxel: the weight is max(0, the greatest
      weight any survivor's slot has there); the owner is -1 when no such
      weight exceeds 0 (in particular where no survivor lies) and otherwise
      a survivor number in [0, n) whose slot on the voxel carries exactly
      that weight. */
  lemma OwnershipVolume(d: Dims, cells: seq<Cell>, v: nat)
    requires AllWellFormed(d, cells)
    ensures var (id, w) := Owner(Claims(d, cells, v));
            w == MaxWeight(Claims(d, cells, v)) &&
            (id == -1 <==> w == 0.0) &&
            (id != -1 ==> 0 <= id < |cells| &&
                          exists j :: 0 <= j < cells[id].length && VoxelOf(d, cells[id], j) == v && cells[id].weights[j] == w) &&
            ((forall i :: 0 <= i < |cells| ==> !Covers(d, cells[i], v)) ==> id == -1 && w == 0.0)
  {
    var claims := Claims(d, cells, v);
    forall k | 0 <= k < |claims| ensures claims[k].0 >= 0 {
      ClaimsMembers(d, cells, v, |cells|, claims[k]);
    }
    OwnerWeightIsMax(claims);
    OwnerIsFirstMaximum(claims);
    var (id, w) := Owner(claims);
    if id != -1 {
      var k :| 0 <= k < |claims| && claims[k] == Owner(claims) &&
               forall m :: 0 <= m < k ==> claims[m].1 < claims[k].1;
      ClaimsMembers(d, cells, v, |cells|, claims[k]);
    }
    if forall i :: 0 <= i < |cells| ==> !Covers(d, cells[i], v) {
      if claims != [] {
        ClaimsMembers(d, cells, v, |cells|, claims[0]);
      }
    }
  }
}
