/** Rank topology and facet index ranges of the distributed heat solver. All sub-domain and mesh
    quantities are uint32 in the program, so every subtraction and addition whose wrap-around
    matters goes through U32. */
module HeatGeometry {
  import opened Basics
  import opened LinearIndex

  /** Truncation of a mathematical integer to uint32. */
  function U32(v: int): (r: nat)
    ensures r < TWO_32
    ensures -TWO_32 <= v < 0 ==> r == v + TWO_32
    ensures 0 <= v < TWO_32 ==> r == v
    ensures TWO_32 <= v < 2 * TWO_32 ==> r == v - TWO_32
  {
    v % TWO_32
  }

  // ----- facets

  datatype Facet = XU | XD | YU | YD | ZU | ZD

  /** The facet with a given enumerator value; the timestep loop visits them in this order. */
  function FacetOf(c: nat): Facet
    requires c < 6
  {
    if c == 0 then XU else if c == 1 then XD else if c == 2 then YU
    else if c == 3 then YD else if c == 4 then ZU else ZD
  }

  /** The facet's enumerator value. */
  function Code(f: Facet): (c: nat)
    ensures c < 6 && FacetOf(c) == f
  {
    match f case XU => 0 case XD => 1 case YU => 2 case YD => 3 case ZU => 4 case ZD => 5
  }

  /** The opposite facet. */
  function ReverseFacet(f: Facet): Facet {
    match f case XU => XD case XD => XU case YU => YD case YD => YU case ZU => ZD case ZD => ZU
  }

  /** The program's formula for it: bit 0 of the enumerator is flipped. */
  lemma ReverseFlipsLowBit(f: Facet)
    ensures Code(ReverseFacet(f)) == Code(f) / 2 * 2 + (1 - Code(f) % 2)
  {
  }

  lemma ReverseIsInvolution(f: Facet)
    ensures ReverseFacet(ReverseFacet(f)) == f && ReverseFacet(f) != f
  {
  }

  // ----- the grid of ranks

  /** Number of sub-domains along each axis. */
  datatype Grid = Grid(nx: nat, ny: nat, nz: nat) {
    function Ranks(): nat {
      nx * ny * nz
    }

    /** The arguments are positive, and the 2 * nRanks barrier events can be counted in uint32. */
    ghost predicate Valid() {
      0 < nx && 0 < ny && 0 < nz && 2 * Ranks() < TWO_32
    }
  }

  /** Rank of the sub-domain at c, z fastest. */
  function CoordToRank(g: Grid, c: Coord): int {
    c.x * g.ny * g.nz + c.y * g.nz + c.z
  }

  predicate InGrid(g: Grid, c: Coord) {
    InExtents(g.nx, g.ny, g.nz, c)
  }

  lemma {:induction false} PositiveProduct(a: nat, b: nat)
    requires 0 < a && 0 < b
    ensures a <= a * b && b <= a * b
  {
  }

  /** Every axis count of a valid grid is small enough for the neighbour arithmetic. */
  lemma {:induction false} AxisBounds(g: Grid)
    requires g.Valid()
    ensures 0 < g.ny * g.nz
    ensures g.nx <= g.Ranks() && g.ny <= g.Ranks() && g.nz <= g.Ranks() < 0x8000_0000
  {
    PositiveProduct(g.ny, g.nz);
    PositiveProduct(g.nx, g.ny);
    PositiveProduct(g.nx * g.ny, g.nz);
  }

  /** The sub-domain coordinates a rank computes for itself at start-up. */
  function RankToCoord(g: Grid, r: nat): Coord
    requires g.Valid()
  {
    AxisBounds(g);
    var x := r / (g.ny * g.nz);
    var y := (r - x * g.ny * g.nz) / g.nz;
    Coord(x, y, r - x * g.ny * g.nz - y * g.nz)
  }

  lemma {:induction false} MulAssoc(a: int, b: int, c: int)
    ensures a * b * c == a * (b * c)
  {
  }

  lemma {:induction false} SplitRank(r: nat, nx: nat, plane: nat, ny: nat, nz: nat)
    requires 0 < plane && 0 < nz && plane == ny * nz && r < nx * plane
    ensures var x := r / plane; var y := (r - x * plane) / nz;
            && x < nx && 0 <= y < ny
            && 0 <= r - x * plane - y * nz < nz
  {
    Digit(r, nx, plane);
    Digit(r - r / plane * plane, ny, nz);
  }

  lemma {:induction false} Digit(v: nat, n: nat, d: nat)
    requires 0 < d && v < n * d
    ensures 0 <= v / d < n && 0 <= v - v / d * d < d
  {
  }

  lemma {:induction false} JoinRank(c: Coord, nx: nat, plane: nat, ny: nat, nz: nat)
    requires 0 <= c.x < nx && 0 <= c.y < ny && 0 <= c.z < nz && plane == ny * nz
    ensures 0 < plane
    ensures var r := c.x * plane + c.y * nz + c.z;
            0 <= r < nx * plane && r / plane == c.x && (r - c.x * plane) / nz == c.y
  {
    MulMono(0, c.x, plane);
    MulMono(0, c.y, nz);
    MulStep(c.y, ny, nz);
    MulStep(c.x, nx, plane);
    DivModUnique(c.x, plane, c.y * nz + c.z);
    DivModUnique(c.y, nz, c.z);
  }

  /** Ranks are numbered like the points of a block. */
  lemma RanksFollowColumns(g: Grid, c: Coord)
    ensures CoordToRank(g, c) == Lin(g.ny, g.nz, c)
  {
  }

  /** Rank -> coordinates -> rank, the EXPECT_EQ of the start-up code, for every rank. */
  lemma {:induction false} RankRoundTrip(g: Grid, r: nat)
    requires g.Valid() && r < g.Ranks()
    ensures InGrid(g, RankToCoord(g, r))
    ensures CoordToRank(g, RankToCoord(g, r)) == r
  {
    AxisBounds(g);
    MulAssoc(g.nx, g.ny, g.nz);
    MulAssoc(r / (g.ny * g.nz), g.ny, g.nz);
    SplitRank(r, g.nx, g.ny * g.nz, g.ny, g.nz);
  }

  /** Coordinates -> rank -> coordinates. */
  lemma {:induction false} CoordRoundTrip(g: Grid, c: Coord)
    requires g.Valid() && InGrid(g, c)
    ensures 0 <= CoordToRank(g, c) < g.Ranks()
    ensures RankToCoord(g, CoordToRank(g, c)) == c
  {
    MulAssoc(g.nx, g.ny, g.nz);
    MulAssoc(c.x, g.ny, g.nz);
    JoinRank(c, g.nx, g.ny * g.nz, g.ny, g.nz);
  }

  // ----- periodic neighbours

  /** (coord + 1 + n) % n as the program computes it in uint32. */
  function CoordUp(n: nat, c: nat): nat
    requires 0 < n
  {
    U32(U32(c + 1) + n) % n
  }

  /** (coord - 1 + n) % n as the program computes it in uint32: coord - 1 wraps for coord 0. */
  function CoordDown(n: nat, c: nat): nat
    requires 0 < n
  {
    U32(U32(c - 1) + n) % n
  }

  /** The periodic successor and predecessor. */
  function Next(n: nat, c: nat): nat
    requires c < n
  {
    if c + 1 == n then 0 else c + 1
  }

  function Prev(n: nat, c: nat): nat
    requires c < n
  {
    if c == 0 then n - 1 else c - 1
  }

  lemma {:induction false} ModOnce(v: int, n: int)
    requires 0 < n <= v < 2 * n
    ensures v % n == v - n
  {
  }

  lemma {:induction false} CoordUpIsNext(n: nat, c: nat)
    requires c < n <= 0x8000_0000
    ensures CoordUp(n, c) == Next(n, c)
  {
    hide U32;
    var sum := c + 1 + n;
    if sum == TWO_32 {
      DivModUnique(0, n, 0);
    } else if c + 1 == n {
      DivModUnique(2, n, 0);
    } else {
      ModOnce(sum, n);
    }
  }

  lemma {:induction false} CoordDownIsPrev(n: nat, c: nat)
    requires c < n <= 0x8000_0000
    ensures CoordDown(n, c) == Prev(n, c)
  {
    hide U32;
    if c == 0 {
      DivModUnique(0, n, n - 1);
    } else {
      ModOnce(c - 1 + n, n);
    }
  }

  lemma {:induction false} CoordUpDown(n: nat, c: nat)
    requires c < n <= 0x8000_0000
    ensures CoordUp(n, c) == Next(n, c) && CoordDown(n, c) == Prev(n, c)
  {
    CoordUpIsNext(n, c);
    CoordDownIsPrev(n, c);
  }

  /** The uint32 neighbour formulas are the periodic ones for every coordinate exactly when the
      axis has at most 2^31 sub-domains; above that the sum coord + 1 + n wraps. */
  lemma {:induction false} NeighbourFormulaExact(n: nat)
    requires 0 < n < TWO_32
    ensures (forall c: nat :: c < n ==> CoordUp(n, c) == Next(n, c) && CoordDown(n, c) == Prev(n, c))
       <==> n <= 0x8000_0000
  {
    if n <= 0x8000_0000 {
      forall c: nat | c < n
        ensures CoordUp(n, c) == Next(n, c) && CoordDown(n, c) == Prev(n, c)
      {
        CoordUpDown(n, c);
      }
    } else {
      hide U32;
      var c := TWO_32 - n - 1;
      DivModUnique(0, n, 0);
      assert CoordUp(n, c) == 0 && Next(n, c) == c + 1;
    }
  }

  /** The neighbouring sub-domain's coordinates in the direction of a facet. */
  function NeighbourCoord(g: Grid, f: Facet, c: Coord): Coord
    requires InGrid(g, c)
  {
    match f
    case XU => c.(x := CoordUp(g.nx, c.x))
    case XD => c.(x := CoordDown(g.nx, c.x))
    case YU => c.(y := CoordUp(g.ny, c.y))
    case YD => c.(y := CoordDown(g.ny, c.y))
    case ZU => c.(z := CoordUp(g.nz, c.z))
    case ZD => c.(z := CoordDown(g.nz, c.z))
  }

  lemma {:induction false} NeighbourCoordReverse(g: Grid, f: Facet, c: Coord)
    requires g.Valid() && InGrid(g, c)
    ensures InGrid(g, NeighbourCoord(g, f, c))
    ensures NeighbourCoord(g, ReverseFacet(f), NeighbourCoord(g, f, c)) == c
  {
    hide CoordUp, CoordDown;
    AxisBounds(g);
    CoordUpDown(g.nx, c.x);
    CoordUpDown(g.ny, c.y);
    CoordUpDown(g.nz, c.z);
    CoordUpDown(g.nx, Next(g.nx, c.x));
    CoordUpDown(g.nx, Prev(g.nx, c.x));
    CoordUpDown(g.ny, Next(g.ny, c.y));
    CoordUpDown(g.ny, Prev(g.ny, c.y));
    CoordUpDown(g.nz, Next(g.nz, c.z));
    CoordUpDown(g.nz, Prev(g.nz, c.z));
  }

  /** Entry f of a rank's neighbour table. */
  function Neighbour(g: Grid, r: nat, f: Facet): (n: nat)
    requires g.Valid() && r < g.Ranks()
    ensures n < g.Ranks()
  {
    RankRoundTrip(g, r);
    NeighbourCoordReverse(g, f, RankToCoord(g, r));
    CoordRoundTrip(g, NeighbourCoord(g, f, RankToCoord(g, r)));
    CoordToRank(g, NeighbourCoord(g, f, RankToCoord(g, r)))
  }

  lemma {:induction false} NeighbourIsBeside(g: Grid, r: nat, f: Facet)
    requires g.Valid() && r < g.Ranks()
    ensures InGrid(g, RankToCoord(g, r))
    ensures RankToCoord(g, Neighbour(g, r, f)) == NeighbourCoord(g, f, RankToCoord(g, r))
  {
    hide *;
    RankRoundTrip(g, r);
    var c := RankToCoord(g, r);
    NeighbourCoordReverse(g, f, c);
    CoordRoundTrip(g, NeighbourCoord(g, f, c));
    assert Neighbour(g, r, f) == CoordToRank(g, NeighbourCoord(g, f, c)) by {
      NeighbourUnfold(g, r, f);
    }
  }

  lemma {:induction false} NeighbourUnfold(g: Grid, r: nat, f: Facet)
    requires g.Valid() && r < g.Ranks()
    ensures InGrid(g, RankToCoord(g, r))
    ensures Neighbour(g, r, f) == CoordToRank(g, NeighbourCoord(g, f, RankToCoord(g, r)))
  {
    RankRoundTrip(g, r);
  }

  lemma {:induction false} NeighbourTable(g: Grid, r: nat)
    requires g.Valid() && r < g.Ranks()
    ensures InGrid(g, RankToCoord(g, r)) && 0 < g.nx && 0 < g.ny && 0 < g.nz
    ensures var c := RankToCoord(g, r);
            && 0 <= c.x && 0 <= c.y && 0 <= c.z
            && Neighbour(g, r, XU) == CoordToRank(g, Coord(CoordUp(g.nx, c.x), c.y, c.z))
            && Neighbour(g, r, XD) == CoordToRank(g, Coord(CoordDown(g.nx, c.x), c.y, c.z))
            && Neighbour(g, r, YU) == CoordToRank(g, Coord(c.x, CoordUp(g.ny, c.y), c.z))
            && Neighbour(g, r, YD) == CoordToRank(g, Coord(c.x, CoordDown(g.ny, c.y), c.z))
            && Neighbour(g, r, ZU) == CoordToRank(g, Coord(c.x, c.y, CoordUp(g.nz, c.z)))
            && Neighbour(g, r, ZD) == CoordToRank(g, Coord(c.x, c.y, CoordDown(g.nz, c.z)))
  {
    hide CoordUp, CoordDown, CoordToRank, RankToCoord, Neighbour, Grid.Ranks;
    NeighbourUnfold(g, r, XU);
    NeighbourUnfold(g, r, XD);
    NeighbourUnfold(g, r, YU);
    NeighbourUnfold(g, r, YD);
    NeighbourUnfold(g, r, ZU);
    NeighbourUnfold(g, r, ZD);
  }

  /** Crossing a facet and coming back through the opposite one is the identity. */
  lemma {:induction false} NeighbourSymmetry(g: Grid, r: nat, f: Facet)
    requires g.Valid() && r < g.Ranks()
    ensures Neighbour(g, Neighbour(g, r, f), ReverseFacet(f)) == r
  {
    hide *;
    var c, n := RankToCoord(g, r), Neighbour(g, r, f);
    NeighbourIsBeside(g, r, f);
    NeighbourIsBeside(g, n, ReverseFacet(f));
    NeighbourCoordReverse(g, f, c);
    RankRoundTrip(g, r);
    RankRoundTrip(g, Neighbour(g, n, ReverseFacet(f)));
  }

  /** Each receive buffer (r, f) has exactly one sender: facet reverse(f) of neighbour(r, f). */
  lemma {:induction false} UniqueSender(g: Grid, r: nat, f: Facet, sender: nat, via: Facet)
    requires g.Valid() && r < g.Ranks() && sender < g.Ranks()
    ensures Neighbour(g, sender, via) == r && ReverseFacet(via) == f
       <==> sender == Neighbour(g, r, f) && via == ReverseFacet(f)
  {
    NeighbourSymmetry(g, r, f);
    NeighbourSymmetry(g, sender, via);
    ReverseIsInvolution(f);
    ReverseIsInvolution(via);
  }

  // ----- facet index ranges

  /** Number of mesh points of a sub-domain along each axis, ghosts excluded. */
  datatype Points = Points(px: nat, py: nat, pz: nat) {
    /** Size of the padded sub-domain. */
    function Volume(): nat {
      (px + 2) * (py + 2) * (pz + 2)
    }

    /** Non-empty, and nPoints + 2 is countable in uint32. */
    predicate Countable() {
      0 < px < TWO_32 - 2 && 0 < py < TWO_32 - 2 && 0 < pz < TWO_32 - 2
    }

    /** Facet areas are countable in uint32. */
    predicate AreasFit() {
      py * pz < TWO_32 && px * pz < TWO_32 && px * py < TWO_32
    }

    /** All of that, and the allocation size is countable in size_t. */
    ghost predicate Valid() {
      Countable() && AreasFit() && 4 * Volume() < TWO_64
    }

    /** Exactly the sizes for which the de-duplicated facets partition the sub-domain's shell. */
    predicate Exact() {
      px == 2 || (px > 2 && (py == 2 || (py > 2 && pz >= 2)))
    }
  }

  /** Inclusive index ranges, as uint32. */
  datatype Box = Box(xs: nat, xe: nat, ys: nat, ye: nat, zs: nat, ze: nat) {
    // Work-items dispatched along each axis: end - start + 1 in uint32.
    function XRange(): nat { U32(xe - xs + 1) }
    function YRange(): nat { U32(ye - ys + 1) }
    function ZRange(): nat { U32(ze - zs + 1) }

    function Size(): nat { XRange() * YRange() * ZRange() }

    /** Some work-item of a dispatch over this box handles c. */
    predicate Has(c: Coord) {
      xs <= c.x < xs + XRange() && ys <= c.y < ys + YRange() && zs <= c.z < zs + ZRange()
    }
  }

  datatype FacetInfo = FacetInfo(bufferLen: nat, outer: Box, inner: Box, dedup: Box)

  function MakeFacetInfo(f: Facet, p: Points): FacetInfo {
    var px, py, pz := p.px, p.py, p.pz;
    match f
    case XU => FacetInfo(U32(py * pz),
                         Box(U32(px + 1), U32(px + 1), 1, py, 1, pz),
                         Box(px, px, 1, py, 1, pz),
                         Box(px, px, 1, py, 1, pz))
    case XD => FacetInfo(U32(py * pz),
                         Box(0, 0, 1, py, 1, pz),
                         Box(1, 1, 1, py, 1, pz),
                         Box(1, 1, 1, py, 1, pz))
    case YU => FacetInfo(U32(px * pz),
                         Box(1, px, U32(py + 1), U32(py + 1), 1, pz),
                         Box(1, px, py, py, 1, pz),
                         Box(2, U32(px - 1), py, py, 1, pz))
    case YD => FacetInfo(U32(px * pz),
                         Box(1, px, 0, 0, 1, pz),
                         Box(1, px, 1, 1, 1, pz),
                         Box(2, U32(px - 1), 1, 1, 1, pz))
    case ZU => FacetInfo(U32(px * py),
                         Box(1, px, 1, py, U32(pz + 1), U32(pz + 1)),
                         Box(1, px, 1, py, pz, pz),
                         Box(2, U32(px - 1), 2, U32(py - 1), pz, pz))
    case ZD => FacetInfo(U32(px * py),
                         Box(1, px, 1, py, 0, 0),
                         Box(1, px, 1, py, 1, 1),
                         Box(2, U32(px - 1), 2, U32(py - 1), 1, 1))
  }

  function Dedup(p: Points, f: Facet): Box { MakeFacetInfo(f, p).dedup }
  function Shell(p: Points, f: Facet): Box { MakeFacetInfo(f, p).inner }
  function Halo(p: Points, f: Facet): Box { MakeFacetInfo(f, p).outer }
  function BufferLen(p: Points, f: Facet): nat { MakeFacetInfo(f, p).bufferLen }

  /** Work-items (coordinates from 2) of the interior update: nPoints - 2 along each axis, in uint32. */
  function InteriorBox(p: Points): Box {
    Box(2, U32(p.px - 1), 2, U32(p.py - 1), 2, U32(p.pz - 1))
  }

  /** A mesh point owned by the sub-domain. */
  predicate Inner(p: Points, c: Coord) {
    1 <= c.x <= p.px && 1 <= c.y <= p.py && 1 <= c.z <= p.pz
  }

  /** The halo point of facet f that lies beside an inner point. */
  predicate GhostOf(p: Points, f: Facet, c: Coord) {
    match f
    case XU => c.x == p.px + 1 && 1 <= c.y <= p.py && 1 <= c.z <= p.pz
    case XD => c.x == 0 && 1 <= c.y <= p.py && 1 <= c.z <= p.pz
    case YU => c.y == p.py + 1 && 1 <= c.x <= p.px && 1 <= c.z <= p.pz
    case YD => c.y == 0 && 1 <= c.x <= p.px && 1 <= c.z <= p.pz
    case ZU => c.z == p.pz + 1 && 1 <= c.x <= p.px && 1 <= c.y <= p.py
    case ZD => c.z == 0 && 1 <= c.x <= p.px && 1 <= c.y <= p.py
  }

  /** The layer of inner points of facet f that is copied to the neighbour. */
  predicate ShellOf(p: Points, f: Facet, c: Coord) {
    Inner(p, c) && match f
    case XU => c.x == p.px
    case XD => c.x == 1
    case YU => c.y == p.py
    case YD => c.y == 1
    case ZU => c.z == p.pz
    case ZD => c.z == 1
  }

  /** Cells a stencil may read: inner points and the six ghost facets, never an edge or a corner. */
  predicate Used(p: Points, c: Coord) {
    Inner(p, c) || exists f :: GhostOf(p, f, c)
  }

  /** The outer and inner ranges cover exactly the ghost facet and the shell facet. */
  lemma FacetBoxes(p: Points, f: Facet, c: Coord)
    requires p.Countable()
    ensures Halo(p, f).Has(c) <==> GhostOf(p, f, c)
    ensures Shell(p, f).Has(c) <==> ShellOf(p, f, c)
  {
    hide U32, Box.Size;
  }

  lemma SizeWithUnitAxis(b: Box)
    ensures b.XRange() == 1 ==> b.Size() == b.YRange() * b.ZRange()
    ensures b.YRange() == 1 ==> b.Size() == b.XRange() * b.ZRange()
    ensures b.ZRange() == 1 ==> b.Size() == b.XRange() * b.YRange()
  {
  }

  /** The buffer length is the number of work-items of the pack and of the unpack. */
  lemma FacetSizes(p: Points, f: Facet)
    requires p.Countable() && p.AreasFit()
    ensures Halo(p, f).Size() == BufferLen(p, f)
    ensures Shell(p, f).Size() == BufferLen(p, f)
  {
    hide U32, Box.Size;
    SizeWithUnitAxis(Halo(p, f));
    SizeWithUnitAxis(Shell(p, f));
    match f case XU => case XD => case YU => case YD => case ZU => case ZD =>
  }

  /** The neighbour's receive buffer has the length of the buffer sent to it. */
  lemma MatchingLengths(p: Points, f: Facet)
    ensures BufferLen(p, f) == BufferLen(p, ReverseFacet(f))
  {
  }

  function Hit(b: Box, c: Coord): nat {
    if b.Has(c) then 1 else 0
  }

  /** How many work-items write c in one timestep. */
  function WritesPerStep(p: Points, c: Coord): nat {
    Hit(Dedup(p, XU), c) + Hit(Dedup(p, XD), c) +
    Hit(Dedup(p, YU), c) + Hit(Dedup(p, YD), c) +
    Hit(Dedup(p, ZU), c) + Hit(Dedup(p, ZD), c) +
    Hit(InteriorBox(p), c)
  }

  /** Every inner point is written exactly once and nothing else is written. */
  ghost predicate ExactPartition(p: Points) {
    forall c: Coord :: WritesPerStep(p, c) == if Inner(p, c) then 1 else 0
  }

  /** The six de-duplicated facets and the interior partition the sub-domain exactly for the
      sizes Exact(): in particular whenever every axis has at least two points. With one point
      on an axis whose neighbours in the de-duplication order have more than two, the two
      opposite facets coincide and the uint32 range 2 .. 0 wraps. */
  lemma {:induction false} PartitionIffExact(p: Points)
    requires p.Countable()
    ensures ExactPartition(p) <==> p.Exact()
  {
    if p.Exact() {
      forall c: Coord
        ensures WritesPerStep(p, c) == if Inner(p, c) then 1 else 0
      {
        PartitionCell(p, c);
      }
    } else if p.px == 1 {
      assert WritesPerStep(p, Coord(1, 1, 1)) >= 2;
    } else if p.py == 1 {
      assert WritesPerStep(p, Coord(2, 1, 1)) >= 2;
    } else {
      assert p.pz == 1;
      assert WritesPerStep(p, Coord(2, 2, 1)) >= 2;
    }
  }

  lemma AllAtLeastTwoIsExact(p: Points)
    requires p.px >= 2 && p.py >= 2 && p.pz >= 2
    ensures p.Exact()
  {
  }

  lemma PartitionCell(p: Points, c: Coord)
    requires p.Countable() && p.Exact()
    ensures WritesPerStep(p, c) == if Inner(p, c) then 1 else 0
  {
  }
}
