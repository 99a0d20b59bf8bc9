/** Pair enumeration of step5.py:56-57: for every voxel, in grid order,
    every 2-combination of its bucket (itertools.combinations keeps the
    bucket's order), and the identity the source asserts about their
    number. */
module CellPairs {
  import opened Grid
  import opened CellData
  import opened VoxelIndex
  import opened Arith

  type Pair = (nat, nat)

  predicate Ascending(s: seq<nat>) {
    forall k, m :: 0 <= k < m < |s| ==> s[k] <= s[m]
  }

  /** (x, y) for every y of rest, in order. */
  function Lead(x: nat, rest: seq<nat>): (r: seq<Pair>)
    ensures |r| == |rest|
  {
    if rest == [] then [] else [(x, rest[0])] + Lead(x, rest[1..])
  }

  /** itertools.combinations(s, 2). */
  function Combinations(s: seq<nat>): seq<Pair> {
    if s == [] then [] else Lead(s[0], s[1..]) + Combinations(s[1..])
  }

  /** pair_cells: the combinations of every bucket, voxel after voxel. */
  function AllPairs(buckets: seq<seq<nat>>): seq<Pair> {
    if buckets == [] then []
    else AllPairs(buckets[..|buckets| - 1]) + Combinations(buckets[|buckets| - 1])
  }

  /** The right-hand side of the assertion at step5.py:57:
      the sum over voxels of n * (n - 1) / 2. */
  function TriangleSum(counts: seq<int>): int {
    if counts == [] then 0
    else
      var n := counts[|counts| - 1];
      TriangleSum(counts[..|counts| - 1]) + n * (n - 1) / 2
  }

  lemma {:induction false} CombinationsCount(s: seq<nat>)
    ensures 2 * |Combinations(s)| == |s| * (|s| - 1)
  {
    if s != [] {
      CombinationsCount(s[1..]);
      var n := |s|;
      assert (n - 1) * (n - 2) + 2 * (n - 1) == n * (n - 1);
    }
  }

  /** The assertion at step5.py:57 always holds: the number of enumerated
      pairs is the sum over voxels of n(n-1)/2, n being the voxel's count. */
  lemma {:induction false} PairTotal(buckets: seq<seq<nat>>, counts: seq<int>)
    requires |counts| == |buckets|
    requires forall v :: 0 <= v < |buckets| ==> counts[v] == |buckets[v]|
    ensures |AllPairs(buckets)| == TriangleSum(counts)
  {
    if buckets != [] {
      var k := |buckets| - 1;
      PairTotal(buckets[..k], counts[..k]);
      CombinationsCount(buckets[k]);
      var n := |buckets[k]|;
      assert n * (n - 1) / 2 == |Combinations(buckets[k])|;
    }
  }

  lemma {:induction false} LeadMembers(x: nat, rest: seq<nat>, p: Pair)
    ensures p in Lead(x, rest) <==> p.0 == x && p.1 in rest
  {
    if rest != [] {
      LeadMembers(x, rest[1..], p);
      assert rest == [rest[0]] + rest[1..];
    }
  }

  /** Every enumerated pair is (s[a], s[b]) for positions a < b, and every
      such pair is enumerated. */
  lemma {:induction false} CombinationsMembers(s: seq<nat>, p: Pair)
    ensures p in Combinations(s) <==> exists a, b :: 0 <= a < b < |s| && p == (s[a], s[b])
  {
    if s != [] {
      var rest := s[1..];
      CombinationsMembers(rest, p);
      LeadMembers(s[0], rest, p);
      if p in Lead(s[0], rest) {
        var k :| 0 <= k < |rest| && rest[k] == p.1;
        assert p == (s[0], s[k + 1]);
      } else if p in Combinations(rest) {
        var a, b :| 0 <= a < b < |rest| && p == (rest[a], rest[b]);
        assert p == (s[a + 1], s[b + 1]);
      }
      if exists a, b :: 0 <= a < b < |s| && p == (s[a], s[b]) {
        var a, b :| 0 <= a < b < |s| && p == (s[a], s[b]);
        if a == 0 {
          assert p.1 == rest[b - 1];
        } else {
          assert p == (rest[a - 1], rest[b - 1]);
        }
      }
    }
  }

  lemma {:induction false} LeadCount(x: nat, rest: seq<nat>, a: nat, b: nat)
    ensures multiset(Lead(x, rest))[(a, b)] == if a == x then multiset(rest)[b] else 0
  {
    if rest != [] {
      LeadCount(x, rest[1..], a, b);
      assert rest == [rest[0]] + rest[1..];
    }
  }

  lemma BelowFirstAbsent(s: seq<nat>, a: nat)
    requires Ascending(s) && s != [] && a < s[0]
    ensures multiset(s)[a] == 0
  {
    assert a !in s;
  }

  /** In an ascending bucket the pair (a, b), a < b, is enumerated once for
      every occurrence of a together with every occurrence of b. */
  lemma {:induction false} PairMultiplicity(s: seq<nat>, a: nat, b: nat)
    requires Ascending(s) && a < b
    ensures multiset(Combinations(s))[(a, b)] == Times(multiset(s)[a], multiset(s)[b])
  {
    if s != [] {
      var rest := s[1..];
      assert s == [s[0]] + rest;
      AscendingTail(s);
      PairMultiplicity(rest, a, b);
      LeadCount(s[0], rest, a, b);
      var mr: multiset<nat> := multiset(rest);
      var ma, mb := mr[a], mr[b];
      var lead := multiset(Lead(s[0], rest))[(a, b)];
      var tail := multiset(Combinations(rest))[(a, b)];
      assert multiset(Combinations(s))[(a, b)] == lead + tail;
      assert multiset(s) == multiset{s[0]} + mr;
      var sa, sb := multiset(s)[a], multiset(s)[b];
      if s[0] == a {
        assert lead == mb && sa == 1 + ma && sb == mb;
        ProductStep(lead, tail, ma, mb, sa, sb);
      } else if s[0] == b {
        BelowFirstAbsent(s, a);
        assert lead == 0 && ma == 0 && sa == 0;
        ProductStep(lead, tail, ma, mb, sa, sb);
      } else {
        assert lead == 0 && sa == ma && sb == mb;
        ProductStep(lead, tail, ma, mb, sa, sb);
      }
    }
  }

  lemma AscendingTail(s: seq<nat>)
    requires Ascending(s) && s != []
    ensures Ascending(s[1..])
  {
    assert forall k :: 0 <= k < |s| - 1 ==> s[1..][k] == s[k + 1];
  }

  /** The three ways one more bucket entry changes the pair count. */
  lemma ProductStep(lead: nat, tail: nat, ma: nat, mb: nat, sa: nat, sb: nat)
    requires tail == Times(ma, mb)
    requires (lead == mb && sa == 1 + ma && sb == mb) ||
             (lead == 0 && ma == 0 && sa == 0) ||
             (lead == 0 && sa == ma && sb == mb)
    ensures lead + tail == Times(sa, sb)
  {
    if lead == mb && sa == 1 + ma && sb == mb {
      assert (1 + ma) * mb == mb + ma * mb;
    }
  }

  /** Sum over voxels of (occurrences of a) * (occurrences of b). */
  function CoOccurrences(buckets: seq<seq<nat>>, a: nat, b: nat): nat {
    if buckets == [] then 0
    else
      var last := buckets[|buckets| - 1];
      CoOccurrences(buckets[..|buckets| - 1], a, b) + Times(multiset(last)[a], multiset(last)[b])
  }

  lemma {:induction false} AllPairsCount(buckets: seq<seq<nat>>, a: nat, b: nat)
    requires forall v :: 0 <= v < |buckets| ==> Ascending(buckets[v])
    requires a < b
    ensures multiset(AllPairs(buckets))[(a, b)] == CoOccurrences(buckets, a, b)
  {
    if buckets != [] {
      var k := |buckets| - 1;
      var front := buckets[..k];
      assert forall v :: 0 <= v < k ==> front[v] == buckets[v];
      AllPairsCount(front, a, b);
      PairMultiplicity(buckets[k], a, b);
      assert AllPairs(buckets) == AllPairs(front) + Combinations(buckets[k]);
      assert CoOccurrences(buckets, a, b) ==
               CoOccurrences(front, a, b) + Times(multiset(buckets[k])[a], multiset(buckets[k])[b]);
    }
  }

  /** Every enumerated pair is ordered; strictly so when no cell repeats a
      voxel, and then both members are below `bound`. */
  lemma PairsOrdered(buckets: seq<seq<nat>>, bound: nat, p: Pair)
    requires forall v :: 0 <= v < |buckets| ==> AscendingBelow(buckets[v], bound)
    requires p in AllPairs(buckets)
    ensures p.0 <= p.1 < bound
    ensures (forall v :: 0 <= v < |buckets| ==> StrictlyAscendingBelow(buckets[v], bound)) ==> p.0 < p.1
  {
    AllPairsMember(buckets, p);
    var v :| 0 <= v < |buckets| && p in Combinations(buckets[v]);
    CombinationsMembers(buckets[v], p);
  }

  lemma {:induction false} AllPairsMember(buckets: seq<seq<nat>>, p: Pair)
    requires p in AllPairs(buckets)
    ensures exists v :: 0 <= v < |buckets| && p in Combinations(buckets[v])
  {
    var k := |buckets| - 1;
    if p !in Combinations(buckets[k]) {
      AllPairsMember(buckets[..k], p);
      var v :| 0 <= v < k && p in Combinations(buckets[..k][v]);
      assert buckets[..k][v] == buckets[v];
    }
  }

  /** Sum over the first k voxels of (slots of ca on v) * (slots of cb on v). */
  function SharedSlots(d: Dims, ca: Cell, cb: Cell, k: nat): nat
    requires WellFormed(d, ca) && WellFormed(d, cb)
  {
    if k == 0 then 0
    else SharedSlots(d, ca, cb, k - 1) + Times(Hits(d, ca, k - 1, ca.length), Hits(d, cb, k - 1, cb.length))
  }

  /** Number of the first k voxels that both cells cover. */
  function SharedVoxels(d: Dims, ca: Cell, cb: Cell, k: nat): nat
    requires WellFormed(d, ca) && WellFormed(d, cb)
  {
    if k == 0 then 0
    else SharedVoxels(d, ca, cb, k - 1) +
         (if Hits(d, ca, k - 1, ca.length) > 0 && Hits(d, cb, k - 1, cb.length) > 0 then 1 else 0)
  }

  lemma {:induction false} BucketsCoOccurrences(d: Dims, cells: seq<Cell>, valids: seq<bool>, a: nat, b: nat, k: nat)
    requires AllWellFormed(d, cells) && |valids| == |cells| && a < b < |cells| && k <= d.Size()
    ensures CoOccurrences(Buckets(d, cells, valids)[..k], a, b) ==
              if valids[a] && valids[b] then SharedSlots(d, cells[a], cells[b], k) else 0
  {
    if k > 0 {
      var bs := Buckets(d, cells, valids);
      assert bs[..k][..k - 1] == bs[..k - 1];
      BucketsCoOccurrences(d, cells, valids, a, b, k - 1);
      BucketOccurrences(d, cells, valids, k - 1, |cells|, a);
      BucketOccurrences(d, cells, valids, k - 1, |cells|, b);
    }
  }

  /** The count np.unique attaches to a pair (a, b), a < b: zero unless both
      cells are valid, and then the number of voxel coincidences of their
      slots. A cell listing a voxel once per slot counts each shared voxel
      once, so then it is the number of voxels the two cells share. */
  lemma PairCount(d: Dims, cells: seq<Cell>, valids: seq<bool>, a: nat, b: nat)
    requires AllWellFormed(d, cells) && |valids| == |cells| && a < b < |cells|
    ensures multiset(AllPairs(Buckets(d, cells, valids)))[(a, b)] ==
              if valids[a] && valids[b] then SharedSlots(d, cells[a], cells[b], d.Size()) else 0
    ensures DistinctVoxels(d, cells[a]) && DistinctVoxels(d, cells[b]) ==>
              SharedSlots(d, cells[a], cells[b], d.Size()) == SharedVoxels(d, cells[a], cells[b], d.Size())
  {
    var bs := Buckets(d, cells, valids);
    forall v | 0 <= v < |bs| ensures Ascending(bs[v]) {
      BucketAscending(d, cells, valids, v, |cells|);
    }
    AllPairsCount(bs, a, b);
    assert bs[..d.Size()] == bs;
    BucketsCoOccurrences(d, cells, valids, a, b, d.Size());
    if DistinctVoxels(d, cells[a]) && DistinctVoxels(d, cells[b]) {
      SlotsAreVoxels(d, cells[a], cells[b], d.Size());
    }
  }

  lemma {:induction false} SlotsAreVoxels(d: Dims, ca: Cell, cb: Cell, k: nat)
    requires WellFormed(d, ca) && WellFormed(d, cb) && DistinctVoxels(d, ca) && DistinctVoxels(d, cb)
    ensures SharedSlots(d, ca, cb, k) == SharedVoxels(d, ca, cb, k)
  {
    if k > 0 {
      SlotsAreVoxels(d, ca, cb, k - 1);
      HitsAtMostOne(d, ca, k - 1, ca.length);
      HitsAtMostOne(d, cb, k - 1, cb.length);
      UnitProduct(Hits(d, ca, k - 1, ca.length), Hits(d, cb, k - 1, cb.length));
    }
  }
}
