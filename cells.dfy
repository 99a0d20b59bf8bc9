/** The candidate cells of one colour channel and the per-cell quantities the
    cleaning stage derives from them before any cross-cell work. */
module CellData {
  import opened Grid

  /** One time-series sample as stored: a number, or NaN. */
  datatype Sample = Value(v: real) | NaN

  /** A candidate cell as read from the raw cell file. `coords` and `weights`
      are rows of the common padded width; only the first `length` entries
      describe the cell. */
  datatype RawCell = RawCell(coords: seq<Coord>, weights: seq<real>, series: seq<Sample>, length: nat)

  /** A candidate cell after NaN handling: its series holds plain numbers. */
  datatype Cell = Cell(coords: seq<Coord>, weights: seq<real>, series: seq<real>, length: nat)

  /** What the upstream detection step guarantees of every row: the prefix
      fits the padded rows, weights are as wide as coordinates, and every
      coordinate of the prefix lies inside the grid. */
  predicate WellFormed(d: Dims, c: Cell) {
    c.length <= |c.coords| && |c.weights| == |c.coords| &&
    forall j :: 0 <= j < c.length ==> d.Contains(c.coords[j])
  }

  predicate AllWellFormed(d: Dims, cells: seq<Cell>) {
    forall i :: 0 <= i < |cells| ==> WellFormed(d, cells[i])
  }

  /** Position in the grid of slot j of a cell. */
  function VoxelOf(d: Dims, c: Cell, j: nat): (v: nat)
    requires WellFormed(d, c) && j < c.length
    ensures v < d.Size()
  {
    d.Index(c.coords[j])
  }

  predicate HasNaN(s: seq<Sample>) {
    exists k :: 0 <= k < |s| && s[k].NaN?
  }

  /** The series as used from step5.py:38 on: a row holding any NaN is
      replaced by zeros as a whole; any other row keeps its values. */
  function ZeroNaNRow(s: seq<Sample>): (r: seq<real>)
    ensures |r| == |s|
    ensures HasNaN(s) ==> forall k :: 0 <= k < |r| ==> r[k] == 0.0
    ensures !HasNaN(s) ==> forall k :: 0 <= k < |r| ==> s[k] == Value(r[k])
  {
    if HasNaN(s) then seq(|s|, _ => 0.0)
    else seq(|s|, k requires 0 <= k < |s| => s[k].v)
  }

  function Clean(raw: RawCell): (c: Cell)
    ensures c.coords == raw.coords && c.weights == raw.weights && c.length == raw.length
    ensures c.series == ZeroNaNRow(raw.series)
  {
    Cell(raw.coords, raw.weights, ZeroNaNRow(raw.series), raw.length)
  }

  function CleanAll(raws: seq<RawCell>): (cells: seq<Cell>)
    ensures |cells| == |raws|
    ensures forall i :: 0 <= i < |raws| ==> cells[i] == Clean(raws[i])
  {
    seq(|raws|, i requires 0 <= i < |raws| => Clean(raws[i]))
  }

  /** The diagnostic count printed at step5.py:40: rows that hold a NaN. */
  function NaNRowCount(raws: seq<RawCell>): (n: nat)
    ensures n <= |raws|
    ensures n == 0 <==> forall i :: 0 <= i < |raws| ==> !HasNaN(raws[i].series)
  {
    if raws == [] then 0
    else NaNRowCount(raws[..|raws| - 1]) + (if HasNaN(raws[|raws| - 1].series) then 1 else 0)
  }

  /** The rows that np.any(np.isnan(cell_timeseries), 1) flags. */
  function NaNRows(raws: seq<RawCell>): set<nat> {
    set i: nat | i < |raws| && HasNaN(raws[i].series)
  }

  /** The printed count is count_nonzero of that flag vector: the number
      of rows that hold a NaN. */
  lemma {:induction false} NaNRowCountIsFlagged(raws: seq<RawCell>)
    ensures NaNRowCount(raws) == |NaNRows(raws)|
  {
    if raws != [] {
      var front := raws[..|raws| - 1];
      NaNRowCountIsFlagged(front);
      NaNRowsSnoc(raws);
    }
  }

  /** The flagged rows of raws are those of all but its last row, and the
      last row when it holds a NaN. */
  lemma NaNRowsSnoc(raws: seq<RawCell>)
    requires raws != []
    ensures var last := |raws| - 1;
            last !in NaNRows(raws[..last]) &&
            NaNRows(raws) == NaNRows(raws[..last]) + (if HasNaN(raws[last].series) then {last} else {})
  {
    var last := |raws| - 1;
    var front := raws[..last];
    forall i: nat | i < last
      ensures (i in NaNRows(raws)) <==> (i in NaNRows(front))
    {
      assert raws[i] == front[i];
    }
  }

  function Sum(s: seq<real>): real {
    if s == [] then 0.0 else Sum(s[..|s| - 1]) + s[|s| - 1]
  }

  /** cell_w: the weight row summed over its whole padded width. */
  function TotalWeight(c: Cell): real {
    Sum(c.weights)
  }

  /** Illustration on one concrete row: [1, 2, NaN, 4, 5] becomes all
      zeros, not [1, 2, 0, 4, 5]. */
  lemma NaNZeroesWholeRow()
    ensures ZeroNaNRow([Value(1.0), Value(2.0), NaN, Value(4.0), Value(5.0)]) == [0.0, 0.0, 0.0, 0.0, 0.0]
  {
    var s := [Value(1.0), Value(2.0), NaN, Value(4.0), Value(5.0)];
    assert s[2].NaN?;
  }
}
