/** Row-major (z fastest) linear indices of three-dimensional coordinates, the one storage
    order used for the padded sub-domain and for every halo buffer. */
module LinearIndex {

  datatype Coord = Coord(x: int, y: int, z: int)

  /** Index of (x, y, z) in a block whose y and z extents are ny and nz. */
  function Lin(ny: nat, nz: nat, c: Coord): int {
    c.x * ny * nz + c.y * nz + c.z
  }

  /** The coordinate stored at index i. */
  function UnLin(ny: nat, nz: nat, i: nat): Coord
    requires 0 < ny && 0 < nz
  {
    Coord(i / nz / ny, i / nz % ny, i % nz)
  }

  predicate InExtents(nx: nat, ny: nat, nz: nat, c: Coord) {
    0 <= c.x < nx && 0 <= c.y < ny && 0 <= c.z < nz
  }

  /** Counting goes along z, then to the next column in y, then to the next plane in x. */
  lemma {:induction false} LinCounts(ny: nat, nz: nat, c: Coord)
    ensures Lin(ny, nz, Coord(0, 0, 0)) == 0
    ensures Lin(ny, nz, c.(z := c.z + 1)) == Lin(ny, nz, c) + 1
    ensures Lin(ny, nz, Coord(c.x, c.y + 1, 0)) == Lin(ny, nz, Coord(c.x, c.y, nz - 1)) + 1
    ensures Lin(ny, nz, Coord(c.x + 1, 0, 0)) == Lin(ny, nz, Coord(c.x, ny - 1, nz - 1)) + 1
  {
    MulSucc(c.y, nz);
    MulSucc(ny - 1, nz);
    MulSucc(c.x, ny);
    MulSucc(c.x, ny * nz);
    assert c.x * ny * nz == c.x * (ny * nz) && (c.x + 1) * ny * nz == (c.x + 1) * (ny * nz);
  }

  lemma {:induction false} QuotientUnique(q: int, r: int, q': int, r': int, d: int)
    requires 0 <= r < d && 0 <= r' < d
    requires q * d + r == q' * d + r'
    ensures q == q' && r == r'
  {
    if q < q' {
      MulStep(q, q', d);
    } else if q' < q {
      MulStep(q', q, d);
    }
  }

  lemma {:induction false} MulStep(a: int, b: int, d: int)
    requires a < b && 0 <= d
    ensures a * d + d <= b * d
  {
    var k := b - a;
    assert b * d == a * d + k * d;
    assert (k - 1) * d >= 0;
  }

  lemma {:induction false} DivModUnique(q: int, d: int, r: int)
    requires 0 <= r < d
    ensures (q * d + r) / d == q && (q * d + r) % d == r
  {
    var n := q * d + r;
    QuotientUnique(q, r, n / d, n % d, d);
  }

  lemma {:induction false} MulSucc(a: int, b: int)
    ensures (a + 1) * b == a * b + b
  {
  }

  lemma {:induction false} MulMono(a: nat, b: nat, c: nat)
    requires a <= b
    ensures a * c <= b * c
  {
  }

  lemma {:induction false} SumTimes(a: int, b: int, c: int)
    ensures (a + b) * c == a * c + b * c
  {
  }

  /** Lin and UnLin are mutually inverse between the block's coordinates and 0 .. nx*ny*nz. */
  lemma {:induction false} LinThenUnLin(nx: nat, ny: nat, nz: nat, c: Coord)
    requires InExtents(nx, ny, nz, c)
    ensures 0 <= Lin(ny, nz, c) < nx * ny * nz
    ensures UnLin(ny, nz, Lin(ny, nz, c)) == c
  {
    var row, rows := c.x * ny + c.y, nx * ny;
    SumTimes(c.x * ny, c.y, nz);
    DivModUnique(row, nz, c.z);
    DivModUnique(c.x, ny, c.y);
    MulStep(c.x, nx, ny);
    MulMono(0, c.x, ny);
    MulStep(row, rows, nz);
    MulMono(0, row, nz);
  }

  lemma {:induction false} PositiveExtents(nx: nat, ny: nat, nz: nat, i: nat)
    requires i < nx * ny * nz
    ensures 0 < ny && 0 < nz
  {
  }

  lemma {:induction false} UnLinThenLin(nx: nat, ny: nat, nz: nat, i: nat)
    requires i < nx * ny * nz
    ensures 0 < ny && 0 < nz
    ensures InExtents(nx, ny, nz, UnLin(ny, nz, i))
    ensures Lin(ny, nz, UnLin(ny, nz, i)) == i
  {
    PositiveExtents(nx, ny, nz, i);
    var row := i / nz;
    var c := UnLin(ny, nz, i);
    RowBound(row, i % nz, nz, nx * ny);
    RowBound(c.x, c.y, ny, nx);
    assert c.x * ny * nz + c.y * nz == (c.x * ny + c.y) * nz;
  }

  lemma {:induction false} RowBound(q: nat, r: nat, d: nat, n: nat)
    requires q * d + r < n * d
    ensures q < n
  {
  }
}
