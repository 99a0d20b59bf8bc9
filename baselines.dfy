/** Baseline extraction of step5.py:77-85. `clean` stands for the external
    per-cell transform clean_signal(parameters, series), which returns the
    corrected series and the baseline. The source collects the results as
    `timebase` and splits it with `list(zip(*timebase))` into the two
    output sequences. */
module Baselines {

  type Series = seq<real>

  datatype Option<T> = None | Some(value: T)

  /** Length of the shortest row (zip stops at the shortest argument). */
  function MinLength<T>(rows: seq<seq<T>>): (n: nat)
    requires rows != []
    ensures forall i :: 0 <= i < |rows| ==> n <= |rows[i]|
    ensures exists i :: 0 <= i < |rows| && n == |rows[i]|
  {
    if |rows| == 1 then |rows[0]|
    else
      var m := MinLength(rows[1..]);
      assert forall i :: 1 <= i < |rows| ==> rows[i] == rows[1..][i - 1];
      if |rows[0]| <= m then |rows[0]| else m
  }

  /** Python's list(zip(*rows)); tuples are modelled as sequences. */
  function Zip<T>(rows: seq<seq<T>>): (cols: seq<seq<T>>)
    ensures rows == [] ==> cols == []
    ensures rows != [] ==>
              (|cols| == MinLength(rows) &&
               forall j, i :: 0 <= j < |cols| && 0 <= i < |rows| ==> |cols[j]| == |rows| && cols[j][i] == rows[i][j])
  {
    if rows == [] then []
    else seq(MinLength(rows), j requires 0 <= j < MinLength(rows) =>
           seq(|rows|, i requires 0 <= i < |rows| => rows[i][j]))
  }

  /** `a, b = xs`: unpacking succeeds only for exactly two elements;
      any other length raises ValueError. */
  function Unpack2<T>(xs: seq<T>): (r: Option<(T, T)>)
    ensures r.Some? <==> |xs| == 2
    ensures r.Some? ==> r.value == (xs[0], xs[1])
  {
    if |xs| == 2 then Some((xs[0], xs[1])) else None
  }

  /** One (corrected, baseline) tuple per cell, in input order: what
      parallelize(...).map(get_timebase).collect() returns. */
  function Mapped(series: seq<Series>, clean: Series -> (Series, Series)): (tb: seq<seq<Series>>)
    ensures |tb| == |series|
    ensures forall m :: 0 <= m < |series| ==> tb[m] == [clean(series[m]).0, clean(series[m]).1]
  {
    seq(|series|, m requires 0 <= m < |series| => [clean(series[m]).0, clean(series[m]).1])
  }

  /** timebase as written: the parallel result, or on failure the serial
      fallback of step5.py:83, which zips the mapped tuples once more. */
  function TimebaseAsWritten(series: seq<Series>, clean: Series -> (Series, Series), parallelFails: bool): seq<seq<Series>> {
    if parallelFails then Zip(Mapped(series, clean)) else Mapped(series, clean)
  }

  /** step5.py:85 as written: None stands for the ValueError of the
      unpacking. */
  function SplitAsWritten(series: seq<Series>, clean: Series -> (Series, Series), parallelFails: bool): Option<(seq<Series>, seq<Series>)> {
    Unpack2(Zip(TimebaseAsWritten(series, clean, parallelFails)))
  }

  /** The corrected series and the baselines, position m belonging to
      survivor m: what both paths are meant to produce. */
  function Extract(series: seq<Series>, clean: Series -> (Series, Series)): (r: (seq<Series>, seq<Series>))
    ensures |r.0| == |series| && |r.1| == |series|
    ensures forall m :: 0 <= m < |series| ==> r.0[m] == clean(series[m]).0 && r.1[m] == clean(series[m]).1
  {
    (seq(|series|, m requires 0 <= m < |series| => clean(series[m]).0),
     seq(|series|, m requires 0 <= m < |series| => clean(series[m]).1))
  }

  /** list(map(get_timebase, cell_timeseries)): the serial fallback
      without the extra zip, applying clean to one survivor after another. */
  function SerialMap(series: seq<Series>, clean: Series -> (Series, Series)): seq<seq<Series>> {
    if series == [] then []
    else
      var last := clean(series[|series| - 1]);
      SerialMap(series[..|series| - 1], clean) + [[last.0, last.1]]
  }

  /** step5.py:79-85 as intended: the serial fallback, when used, is
      list(map(...)) rather than list(zip(*map(...))). */
  function SplitIntended(series: seq<Series>, clean: Series -> (Series, Series), parallelFails: bool): Option<(seq<Series>, seq<Series>)> {
    Unpack2(Zip(if parallelFails then SerialMap(series, clean) else Mapped(series, clean)))
  }

  /** The parallel path splits into one corrected series and one baseline
      per survivor, in order, whenever there is at least one survivor. */
  lemma ParallelSplitsPositionally(series: seq<Series>, clean: Series -> (Series, Series))
    requires series != []
    ensures SplitAsWritten(series, clean, false) == Some(Extract(series, clean))
  {
    var tb := Mapped(series, clean);
    assert forall m :: 0 <= m < |tb| ==> |tb[m]| == 2;
    assert MinLength(tb) == 2;
    var cols := Zip(tb);
    assert cols[0] == Extract(series, clean).0;
    assert cols[1] == Extract(series, clean).1;
  }

  /** With no survivor, zip(*[]) is empty and the unpacking at step5.py:85
      raises on either path. */
  lemma NoSurvivorFails(clean: Series -> (Series, Series), parallelFails: bool)
    ensures SplitAsWritten([], clean, parallelFails) == None
  {
    assert Mapped([], clean) == [];
    assert Zip<Series>([]) == [];
  }

  /** The serial fallback as written fails for three survivors where the
      parallel path succeeds ... */
  lemma SerialFallbackFailsForThree()
    ensures var series := [[1.0], [2.0], [3.0]];
            var clean := (s: Series) => (s, s);
            SplitAsWritten(series, clean, true) == None && SplitAsWritten(series, clean, false).Some?
  {
    var series := [[1.0], [2.0], [3.0]];
    var clean := (s: Series) => (s, s);
    ParallelSplitsPositionally(series, clean);
    var tb := Mapped(series, clean);
    assert forall m :: 0 <= m < |tb| ==> |tb[m]| == 2;
    assert MinLength(tb) == 2;
    var twice := Zip(Zip(tb));
    assert MinLength(Zip(tb)) == 3;
    assert |twice| == 3;
  }

  /** Counterexample on one concrete input: for two survivors the serial
      fallback succeeds but pairs them up wrongly, the "corrected series"
      being cell 0's corrected series and baseline. */
  lemma SerialFallbackMispairsTwo()
    ensures var series := [[1.0], [2.0]];
            var clean := (s: Series) => (s, [0.0]);
            SplitAsWritten(series, clean, true) == Some(([[1.0], [0.0]], [[2.0], [0.0]])) &&
            SplitAsWritten(series, clean, false) == Some(([[1.0], [2.0]], [[0.0], [0.0]]))
  {
    var series := [[1.0], [2.0]];
    var clean := (s: Series) => (s, [0.0]);
    ParallelSplitsPositionally(series, clean);
    var tb := Mapped(series, clean);
    assert tb == [[[1.0], [0.0]], [[2.0], [0.0]]];
    ZipTwoByTwo([1.0], [0.0], [2.0], [0.0]);
    ZipTwoByTwo([1.0], [2.0], [0.0], [0.0]);
    var e := Extract(series, clean);
    assert e.0 == [[1.0], [2.0]] && e.1 == [[0.0], [0.0]];
  }

  /** zip(*[[a, b], [c, d]]) == [[a, c], [b, d]], for every 2x2 table. */
  lemma ZipTwoByTwo<T>(a: T, b: T, c: T, e: T)
    ensures Zip([[a, b], [c, e]]) == [[a, c], [b, e]]
  {
    var rows := [[a, b], [c, e]];
    assert MinLength(rows) == 2;
    var cols := Zip(rows);
    assert cols[0] == [a, c] && cols[1] == [b, e];
  }

  /** Without the extra zip the serial fallback yields the same tuples as
      the parallel collect, so on either path every survivor gets its own
      corrected series and baseline, in order. */
  lemma SerialSplitsPositionally(series: seq<Series>, clean: Series -> (Series, Series), parallelFails: bool)
    requires series != []
    ensures SplitIntended(series, clean, parallelFails) == Some(Extract(series, clean))
  {
    SerialMapIsMapped(series, clean);
    ParallelSplitsPositionally(series, clean);
  }

  /** Mapping one survivor at a time gives what collect() returns. */
  lemma {:induction false} SerialMapIsMapped(series: seq<Series>, clean: Series -> (Series, Series))
    ensures SerialMap(series, clean) == Mapped(series, clean)
  {
    if series != [] {
      var front := series[..|series| - 1];
      SerialMapIsMapped(front, clean);
      var tb := SerialMap(series, clean);
      assert forall m :: 0 <= m < |series| ==> tb[m] == Mapped(series, clean)[m] by {
        forall m | 0 <= m < |series| ensures tb[m] == Mapped(series, clean)[m] {
          if m < |front| {
            assert tb[m] == Mapped(front, clean)[m];
          }
        }
      }
    }
  }
}
