/** Sorting and de-duplication over a caller-supplied strict total order.
    These stand for the library sorts the source relies on: np.sort on a
    list of names and np.unique (sort, then drop repeats) on cell pairs and
    on file suffixes. */
module Ordering {

  ghost predicate StrictTotalOrder<T(!new)>(less: (T, T) -> bool) {
    (forall a :: !less(a, a)) &&
    (forall a, b, c :: less(a, b) && less(b, c) ==> less(a, c)) &&
    (forall a, b :: a != b ==> less(a, b) || less(b, a))
  }

  /** Non-decreasing: no later element is smaller than an earlier one. */
  ghost predicate Sorted<T>(s: seq<T>, less: (T, T) -> bool) {
    forall i, j :: 0 <= i < j < |s| ==> !less(s[j], s[i])
  }

  ghost predicate StrictlySorted<T>(s: seq<T>, less: (T, T) -> bool) {
    forall i, j :: 0 <= i < j < |s| ==> less(s[i], s[j])
  }

  /** Places x before the first element that is not smaller than it. */
  function Insert<T(==,!new)>(x: T, s: seq<T>, less: (T, T) -> bool): (r: seq<T>)
    requires StrictTotalOrder(less) && Sorted(s, less)
    ensures Sorted(r, less)
    ensures multiset(r) == multiset(s) + multiset{x}
  {
    if s == [] then [x]
    else if !less(s[0], x) then
      InsertBefore(x, s, less);
      [x] + s
    else
      SortedTail(s, less);
      var rest := Insert(x, s[1..], less);
      InsertAfter(x, s, rest, less);
      [s[0]] + rest
  }

  lemma SortedTail<T>(s: seq<T>, less: (T, T) -> bool)
    requires Sorted(s, less) && s != []
    ensures Sorted(s[1..], less)
  {
    forall i, j | 0 <= i < j < |s| - 1 ensures !less(s[1..][j], s[1..][i]) {
      assert s[1..][j] == s[j + 1] && s[1..][i] == s[i + 1];
    }
  }

  /** x goes first when the head is not smaller than it. */
  lemma InsertBefore<T(!new)>(x: T, s: seq<T>, less: (T, T) -> bool)
    requires StrictTotalOrder(less) && Sorted(s, less) && s != [] && !less(s[0], x)
    ensures Sorted([x] + s, less)
  {
    forall k | 0 <= k < |s| ensures !less(s[k], x) {
      if k > 0 {
        assert !less(s[k], s[0]);
        assert s[k] == s[0] || less(s[0], s[k]);
      }
    }
    var r := [x] + s;
    forall i, j | 0 <= i < j < |r| ensures !less(r[j], r[i]) {
      assert r[j] == s[j - 1];
      if i > 0 {
        assert r[i] == s[i - 1];
      }
    }
  }

  /** The head stays first when x is inserted, in order, behind it. */
  lemma InsertAfter<T(!new)>(x: T, s: seq<T>, rest: seq<T>, less: (T, T) -> bool)
    requires StrictTotalOrder(less) && Sorted(s, less) && s != [] && less(s[0], x)
    requires Sorted(rest, less) && multiset(rest) == multiset(s[1..]) + multiset{x}
    ensures Sorted([s[0]] + rest, less)
    ensures multiset([s[0]] + rest) == multiset(s) + multiset{x}
  {
    assert s == [s[0]] + s[1..];
    forall y | y in multiset(rest) ensures !less(y, s[0]) {
      if y != x {
        assert y in multiset(s[1..]);
        var k :| 0 <= k < |s[1..]| && s[1..][k] == y;
        assert s[k + 1] == y;
      }
    }
    var r := [s[0]] + rest;
    forall i, j | 0 <= i < j < |r| ensures !less(r[j], r[i]) {
      assert r[j] == rest[j - 1] && rest[j - 1] in multiset(rest);
      if i > 0 {
        assert r[i] == rest[i - 1];
      }
    }
  }

  /** Insertion sort: the result is ordered and holds the same elements,
      each as often as in the input. */
  function Sort<T(==,!new)>(s: seq<T>, less: (T, T) -> bool): (r: seq<T>)
    requires StrictTotalOrder(less)
    ensures Sorted(r, less)
    ensures multiset(r) == multiset(s)
  {
    if s == [] then []
    else
      assert s == [s[0]] + s[1..];
      Insert(s[0], Sort(s[1..], less), less)
  }

  /** Drops adjacent repeats of an ordered sequence. */
  function Dedup<T(==,!new)>(s: seq<T>, less: (T, T) -> bool): (r: seq<T>)
    requires StrictTotalOrder(less) && Sorted(s, less)
    ensures StrictlySorted(r, less)
    ensures forall x :: x in r <==> x in s
  {
    if |s| <= 1 then s
    else
      SortedTail(s, less);
      var rest := Dedup(s[1..], less);
      if s[0] == s[1] then
        DedupRepeat(s);
        rest
      else
        DedupDistinct(s, rest, less);
        [s[0]] + rest
  }

  /** A repeated head adds no new element. */
  lemma DedupRepeat<T>(s: seq<T>)
    requires |s| > 1 && s[0] == s[1]
    ensures forall x :: x in s <==> x in s[1..]
  {
    forall x | x in s ensures x in s[1..] {
      if x == s[0] {
        assert s[1..][0] == x;
      }
    }
  }

  /** A head smaller than the next element precedes every later one. */
  lemma DedupDistinct<T(!new)>(s: seq<T>, rest: seq<T>, less: (T, T) -> bool)
    requires StrictTotalOrder(less) && Sorted(s, less) && |s| > 1 && s[0] != s[1]
    requires StrictlySorted(rest, less) && forall x :: x in rest <==> x in s[1..]
    ensures StrictlySorted([s[0]] + rest, less)
    ensures forall x :: x in [s[0]] + rest <==> x in s
  {
    forall y | y in rest ensures less(s[0], y) {
      var k :| 1 <= k < |s| && s[k] == y;
      assert !less(s[1], s[0]);
      assert less(s[0], s[1]);
      if k > 1 {
        assert !less(s[k], s[1]);
        assert s[k] == s[1] || less(s[1], s[k]);
      }
    }
    var r := [s[0]] + rest;
    forall i, j | 0 <= i < j < |r| ensures less(r[i], r[j]) {
      assert r[j] == rest[j - 1] && rest[j - 1] in rest;
      if i > 0 {
        assert r[i] == rest[i - 1];
      }
    }
    assert s == [s[0]] + s[1..];
  }

  /** What np.unique returns: the distinct elements, in ascending order. */
  function Unique<T(==,!new)>(s: seq<T>, less: (T, T) -> bool): (r: seq<T>)
    requires StrictTotalOrder(less)
    ensures StrictlySorted(r, less)
    ensures forall x :: x in r <==> x in s
  {
    var sorted := Sort(s, less);
    assert forall x :: x in sorted <==> x in multiset(s);
    Dedup(sorted, less)
  }

  /** The counts np.unique(..., return_counts=True) returns alongside
      `distinct`: how often each of them occurs in s. */
  function Counts<T(==)>(s: seq<T>, distinct: seq<T>): (counts: seq<nat>)
    ensures |counts| == |distinct|
    ensures forall k :: 0 <= k < |distinct| ==> counts[k] == multiset(s)[distinct[k]]
  {
    seq(|distinct|, k requires 0 <= k < |distinct| => multiset(s)[distinct[k]])
  }
}
