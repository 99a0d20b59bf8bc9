/** The voxel grid of one colour channel. The source indexes its per-voxel
    structures as [x][y][z]; here a voxel is addressed by its position in
    the C-order (row-major) enumeration of the grid, so that ascending
    voxel numbers visit the grid in the same order as the nested loops
    over x, then y, then z. */
module Grid {

  datatype Coord = Coord(x: int, y: int, z: int)

  /** a * b as repeated addition. Grid positions are written with Mul so
      that unfolding them exposes only linear arithmetic; MulIsProduct
      says it is the product. */
  function Mul(a: nat, b: nat): nat {
    if a == 0 then 0 else Mul(a - 1, b) + b
  }

  lemma {:induction false} MulIsProduct(a: nat, b: nat)
    ensures Mul(a, b) == a * b
  {
    if a > 0 {
      MulIsProduct(a - 1, b);
    }
  }

  datatype Dims = Dims(x: nat, y: nat, z: nat) {

    /** Number of voxels in the grid. */
    function Size(): nat {
      Mul(Mul(x, y), z)
    }

    lemma SizeIsProduct()
      ensures Size() == x * y * z
    {
      MulIsProduct(x, y);
      MulIsProduct(x * y, z);
    }

    predicate Contains(c: Coord) {
      0 <= c.x < x && 0 <= c.y < y && 0 <= c.z < z
    }

    /** Row-major position of an in-bounds coordinate:
        (c.x * y + c.y) * z + c.z. */
    function Index(c: Coord): (v: nat)
      requires Contains(c)
      ensures v < Size()
    {
      IndexBound(c);
      Mul(Mul(c.x, y) + c.y, z) + c.z
    }

    lemma IndexIsRowMajor(c: Coord)
      requires Contains(c)
      ensures Index(c) == (c.x * y + c.y) * z + c.z
    {
      MulIsProduct(c.x, y);
      MulIsProduct(c.x * y + c.y, z);
    }

    lemma IndexBound(c: Coord)
      requires Contains(c)
      ensures Mul(Mul(c.x, y) + c.y, z) + c.z < Size()
    {
      MulIsProduct(c.x, y);
      MulIsProduct(c.x * y + c.y, z);
      SizeIsProduct();
      MixedRadix(c.x, c.y, x, y);
      MixedRadix(c.x * y + c.y, c.z, x * y, z);
    }

    /** Two in-bounds coordinates share a position only if they are equal,
        so "voxel v" names exactly one (x, y, z). */
    lemma IndexInjective(c: Coord, d: Coord)
      requires Contains(c) && Contains(d)
      requires Index(c) == Index(d)
      ensures c == d
    {
      IndexIsRowMajor(c);
      IndexIsRowMajor(d);
      var rc, rd := c.x * y + c.y, d.x * y + d.y;
      assert rc * z + c.z == rd * z + d.z;
      SplitUnique(rc, c.z, rd, d.z, z);
      assert c.x * y + c.y == d.x * y + d.y;
      SplitUnique(c.x, c.y, d.x, d.y, y);
    }
  }

  /** A digit q below n followed by a digit r below m is a number below
      n * m. */
  lemma MixedRadix(q: int, r: int, n: int, m: int)
    requires 0 <= q < n && 0 <= r < m
    ensures 0 <= q * m + r < n * m
  {
    MulMono(q, n - 1, m);
    assert (n - 1) * m == n * m - m;
  }

  lemma MulMono(a: int, b: int, m: int)
    requires 0 <= a <= b && m >= 0
    ensures 0 <= a * m <= b * m
  {
    assert b * m - a * m == (b - a) * m;
  }

  /** q * m + r determines q and r when 0 <= r < m. */
  lemma SplitUnique(q1: int, r1: int, q2: int, r2: int, m: int)
    requires 0 <= r1 < m && 0 <= r2 < m
    requires q1 * m + r1 == q2 * m + r2
    ensures q1 == q2 && r1 == r2
  {
    if q1 != q2 {
      var k := if q1 < q2 then q2 - q1 else q1 - q2;
      assert k * m == if q1 < q2 then q2 * m - q1 * m else q1 * m - q2 * m;
      AtLeastOnce(k, m);
    }
  }

  lemma AtLeastOnce(k: int, m: int)
    requires k >= 1 && m > 0
    ensures k * m >= m
  {
    assert k * m == (k - 1) * m + m;
  }
}
