/** The races of the pack kernel as written: exactly the sub-domain sizes for which its index lands on
    a cell that the concurrent update of the next facet writes. */
module HeatPackRaces {
  import opened LinearIndex
  import opened HeatGeometry
  import opened HeatKernels
  import opened HeatStep
  import opened HeatRaces

  // ----- the arithmetic

  predicate Within(v: int, bound: int) {
    -bound <= v <= bound
  }

  function GapXU(p: Points, q: int): int { p.px * (p.py + 2) - q * (p.pz + 2) }

  function GapYU(p: Points, x: int, x': int): int {
    x' * (p.py + 2) * (p.pz + 2) - x * (p.py + 2) - p.py * (p.pz + 2)
  }

  function GapYD(p: Points, x: int, x': int, y': int): int {
    x * (p.py + 2) - (x' * (p.py + 2) + y' - 2) * (p.pz + 2)
  }

  function GapZU(p: Points, x: int, x': int, e: int): int {
    x * (p.py + 2) + p.pz - 1 - (x' * (p.py + 2) + e - 1) * (p.pz + 2)
  }

  /** The pack of XU against the update of XD: a multiple of nPointsZ + 2 close to nPointsX * (nPointsY + 2). */
  ghost predicate CollidesXU(p: Points) {
    exists q :: 2 <= q <= 2 * p.py && Within(GapXU(p, q), p.pz - 1)
  }

  ghost predicate CollidesYU(p: Points) {
    exists x, x' :: 1 <= x <= p.px && 2 <= x' < p.px && Within(GapYU(p, x, x'), p.pz - 1)
  }

  ghost predicate CollidesYD(p: Points) {
    exists x, x', y' :: 1 <= x <= p.px && 2 <= x' < p.px && 2 <= y' < p.py && 0 <= GapYD(p, x, x', y') < p.pz
  }

  ghost predicate CollidesZU(p: Points) {
    exists x, x', e :: 1 <= x <= p.px && 2 <= x' < p.px && Within(e, p.py - 2) && 2 < p.py && GapZU(p, x, x', e) == 0
  }

  ghost predicate Collides(p: Points) {
    CollidesXU(p) || CollidesYU(p) || CollidesYD(p) || CollidesZU(p)
  }

  // ----- the cells

  /** The pack of facet f reads for c what the concurrent update of the next facet writes at d. */
  ghost predicate Clash(p: Points, f: Facet, c: Coord, d: Coord) {
    Code(f) < 5 && ShellOf(p, f, c) && Dedup(p, FacetOf(Code(f) + 1)).Has(d) && PackIndex(AsWritten, p, c) == Flat(p, d)
  }

  /** The cells the six facet updates write. */
  lemma DedupCells(p: Points, f: Facet, d: Coord)
    requires Sized(p)
    ensures Dedup(p, f).Has(d) <==>
            match f
            case XU => d.x == p.px && 1 <= d.y <= p.py && 1 <= d.z <= p.pz
            case XD => d.x == 1 && 1 <= d.y <= p.py && 1 <= d.z <= p.pz
            case YU => d.y == p.py && 2 <= d.x < p.px && 1 <= d.z <= p.pz
            case YD => d.y == 1 && 2 <= d.x < p.px && 1 <= d.z <= p.pz
            case ZU => d.z == p.pz && 2 <= d.x < p.px && 2 <= d.y < p.py
            case ZD => d.z == 1 && 2 <= d.x < p.px && 2 <= d.y < p.py
  {
    hide U32, Points.Valid, Points.AreasFit;
  }

  /** a - b == diff with both in 1 .. n. */
  lemma SplitDifference(diff: int, n: int) returns (a: int, b: int)
    requires Within(diff, n - 1)
    ensures 1 <= a <= n && 1 <= b <= n && a - b == diff
  {
    a, b := if diff >= 0 then 1 + diff else 1, if diff >= 0 then 1 else 1 - diff;
  }

  lemma {:induction false} Distribute(a: int, b: int, c: int)
    ensures (a + b) * c == a * c + b * c && (a - b) * c == a * c - b * c
  {
  }

  lemma {:induction false} GapXUAt(p: Points, c: Coord, d: Coord)
    requires c.x == p.px && d.x == 1
    ensures PackIndex(AsWritten, p, c) - Flat(p, d) == GapXU(p, p.py + 1 + d.y - c.y) - (d.z - c.z)
  {
    var b := p.pz + 2;
    Distribute(p.py + 2, d.y - c.y - 1, b);
    Distribute(d.y - c.y, 1, b);
    Distribute(d.y, c.y, b);
  }

  lemma {:induction false} XUIff(p: Points)
    requires Sized(p)
    ensures (exists c, d :: Clash(p, XU, c, d)) <==> CollidesXU(p)
  {
    hide PackIndex, Flat, GapXU, Points.Valid, Points.AreasFit, Dedup, Box.Has;
    if c, d :| Clash(p, XU, c, d) {
      DedupCells(p, XD, d);
      GapXUAt(p, c, d);
      assert Within(GapXU(p, p.py + 1 + d.y - c.y), p.pz - 1);
    }
    if q :| 2 <= q <= 2 * p.py && Within(GapXU(p, q), p.pz - 1) {
      var dy, cy := SplitDifference(q - p.py - 1, p.py);
      var dz, cz := SplitDifference(GapXU(p, q), p.pz);
      var c, d := Coord(p.px, cy, cz), Coord(1, dy, dz);
      DedupCells(p, XD, d);
      GapXUAt(p, c, d);
      assert Clash(p, XU, c, d);
    }
  }

  /** The pack of XD never clashes: what it reads lies before anything the update of YU writes. */
  lemma {:induction false} XDNever(p: Points, c: Coord, d: Coord)
    requires Sized(p) && ShellOf(p, XD, c) && Dedup(p, YU).Has(d)
    ensures PackIndex(AsWritten, p, c) < Flat(p, d)
  {
    DedupCells(p, YU, d);
    var a, b := p.py + 2, p.pz + 2;
    MulMono(2, d.x, a);
    MulMono(2 * a, d.x * a, b);
    MulMono(c.y, p.py, b);
    MulMono(1, b, a);
    assert 2 * a * b == a * b + a * b;
    MulMono(3, a, b);
  }

  lemma {:induction false} GapYUAt(p: Points, c: Coord, d: Coord)
    requires c.y == p.py && d.y == 1
    ensures PackIndex(AsWritten, p, c) - Flat(p, d) == c.z - d.z - GapYU(p, c.x, d.x)
  {
  }

  lemma {:induction false} YUIff(p: Points)
    requires Sized(p)
    ensures (exists c, d :: Clash(p, YU, c, d)) <==> CollidesYU(p)
  {
    hide PackIndex, Flat, GapYU, Points.Valid, Points.AreasFit, Dedup, Box.Has;
    if c, d :| Clash(p, YU, c, d) {
      DedupCells(p, YD, d);
      GapYUAt(p, c, d);
      assert Within(GapYU(p, c.x, d.x), p.pz - 1);
    }
    if x, x' :| 1 <= x <= p.px && 2 <= x' < p.px && Within(GapYU(p, x, x'), p.pz - 1) {
      var cz, dz := SplitDifference(GapYU(p, x, x'), p.pz);
      var c, d := Coord(x, p.py, cz), Coord(x', 1, dz);
      DedupCells(p, YD, d);
      GapYUAt(p, c, d);
      assert Clash(p, YU, c, d);
    }
  }

  lemma {:induction false} GapYDAt(p: Points, c: Coord, d: Coord)
    requires c.y == 1 && d.z == p.pz
    ensures PackIndex(AsWritten, p, c) - Flat(p, d) == GapYD(p, c.x, d.x, d.y) - (p.pz - c.z)
  {
    var b := p.pz + 2;
    Distribute(d.x * (p.py + 2), d.y - 2, b);
    Distribute(d.y, 2, b);
  }

  lemma {:induction false} YDIff(p: Points)
    requires Sized(p)
    ensures (exists c, d :: Clash(p, YD, c, d)) <==> CollidesYD(p)
  {
    hide PackIndex, Flat, GapYD, Points.Valid, Points.AreasFit, Dedup, Box.Has;
    if c, d :| Clash(p, YD, c, d) {
      DedupCells(p, ZU, d);
      GapYDAt(p, c, d);
      assert 0 <= GapYD(p, c.x, d.x, d.y) < p.pz;
    }
    if x, x', y' :| 1 <= x <= p.px && 2 <= x' < p.px && 2 <= y' < p.py && 0 <= GapYD(p, x, x', y') < p.pz {
      var c, d := Coord(x, 1, p.pz - GapYD(p, x, x', y')), Coord(x', y', p.pz);
      DedupCells(p, ZU, d);
      GapYDAt(p, c, d);
      assert Clash(p, YD, c, d);
    }
  }

  lemma {:induction false} GapZUAt(p: Points, c: Coord, d: Coord)
    requires c.z == p.pz && d.z == 1
    ensures PackIndex(AsWritten, p, c) - Flat(p, d) == GapZU(p, c.x, d.x, d.y - c.y)
  {
    var b := p.pz + 2;
    Distribute(d.x * (p.py + 2), d.y - c.y - 1, b);
    Distribute(d.y - c.y, 1, b);
    Distribute(d.y, c.y, b);
  }

  lemma {:induction false} ZUIff(p: Points)
    requires Sized(p)
    ensures (exists c, d :: Clash(p, ZU, c, d)) <==> CollidesZU(p)
  {
    hide PackIndex, Flat, GapZU, Points.Valid, Points.AreasFit, Dedup, Box.Has;
    if c, d :| Clash(p, ZU, c, d) {
      DedupCells(p, ZD, d);
      GapZUAt(p, c, d);
      assert GapZU(p, c.x, d.x, d.y - c.y) == 0;
    }
    if x, x', e :| 1 <= x <= p.px && 2 <= x' < p.px && Within(e, p.py - 2) && 2 < p.py && GapZU(p, x, x', e) == 0 {
      var cy := if e > 0 then 1 else 2 - e;
      var c, d := Coord(x, cy, p.pz), Coord(x', cy + e, 1);
      DedupCells(p, ZD, d);
      GapZUAt(p, c, d);
      assert Clash(p, ZU, c, d);
    }
  }

  // ----- from clashes to races

  lemma {:induction false} ClashIsRace(p: Points, f: Facet, c: Coord, d: Coord)
    requires Clash(p, f, c, d)
    ensures !NoRaces(AsWritten, p)
  {
    var S := HeatStencil(0.0);
    var k := Code(f) + 1;
    var v, w := UpdateItem(FacetOf(k), d), PackItem(f, c);
    assert InSegment(p, k, v) && InSegment(p, k, w);
    assert Effect(AsWritten, S, p, v).dst in Effect(AsWritten, S, p, w).srcs;
  }

  /** A race of the packing as written is a clash: all other work-items read and write as documented. */
  lemma {:induction false} RaceIsClash(S: Stencil, p: Points, k: nat, v: WorkItem, w: WorkItem)
    requires Sized(p) && InSegment(p, k, v) && InSegment(p, k, w) && v != w
    requires forall f, c, d :: !Clash(p, f, c, d)
    ensures Effect(AsWritten, S, p, v).dst != Effect(AsWritten, S, p, w).dst
    ensures Effect(AsWritten, S, p, v).dst !in Effect(AsWritten, S, p, w).srcs
  {
    hide PackIndex, Flat, Points.Valid, Points.AreasFit, Dedup, Box.Has, BoxIndex, StencilSources;
    SegmentRaceFree(S, p, k, v, w);
    match (v, w)
    case (UpdateItem(f, d), PackItem(g, c)) => assert !Clash(p, g, c, d);
    case _ =>
  }

  lemma {:induction false} NoRacesIffNoClash(p: Points)
    requires Sized(p)
    ensures NoRaces(AsWritten, p) <==> forall f, c, d :: !Clash(p, f, c, d)
  {
    hide Clash, Effect, InSegment;
    if f, c, d :| Clash(p, f, c, d) {
      ClashIsRace(p, f, c, d);
    } else {
      forall S: Stencil, k: nat, v, w | InSegment(p, k, v) && InSegment(p, k, w) && v != w
        ensures Effect(AsWritten, S, p, v).dst != Effect(AsWritten, S, p, w).dst
        ensures Effect(AsWritten, S, p, v).dst !in Effect(AsWritten, S, p, w).srcs
      {
        RaceIsClash(S, p, k, v, w);
      }
    }
  }

  lemma {:induction false} ClashIffCollides(p: Points)
    requires Sized(p)
    ensures (exists f, c, d :: Clash(p, f, c, d)) <==> Collides(p)
  {
    hide CollidesXU, CollidesYU, CollidesYD, CollidesZU, PackIndex, Flat, Points.Valid, Points.AreasFit, Dedup, Box.Has;
    XUIff(p);
    YUIff(p);
    YDIff(p);
    ZUIff(p);
    if f, c, d :| Clash(p, f, c, d) {
      if f == XD {
        XDNever(p, c, d);
      }
    }
  }

  /** Exact condition, size by size: a timestep is free of races if and only if the packing is the
      documented one or none of the four pairs of a pack and the next update collides. */
  lemma {:induction false} RaceFreeIff(m: PackMode, p: Points)
    requires Sized(p)
    ensures NoRaces(m, p) <==> m == Documented || !Collides(p)
  {
    hide NoRaces, Collides, Clash;
    if m == Documented {
      DocumentedHasNoRaces(p);
    } else {
      NoRacesIffNoClash(p);
      ClashIffCollides(p);
    }
  }

  // ----- which sizes collide

  function Times(a: int, b: int): int { a * b }

  lemma {:induction false} NearestMultiple(v: int, b: int, top: int)
    requires b >= 5 && top >= 2 && b + 3 <= v <= Times(top, b) + b - 3
    ensures exists q :: 2 <= q <= top && Within(v - Times(q, b), b - 3)
    decreases top
  {
    if v >= Times(top, b) - (b - 3) {
      assert Within(v - Times(top, b), b - 3);
    } else if top > 2 {
      Distribute(top, 1, b);
      NearestMultiple(v, b, top - 1);
    }
  }

  lemma {:induction false} MultiplesBetween(b: nat, q: int, top: int)
    requires 2 <= q <= top
    ensures 2 * b <= Times(q, b) <= Times(top, b)
  {
    MulMono(2, q, b);
    MulMono(q, top, b);
  }

  /** With three or more points along Z the first pair collides exactly in one interval. */
  lemma {:induction false} ThickXU(p: Points)
    requires p.pz >= 3 && p.py > 0
    ensures CollidesXU(p) <==> p.pz + 5 <= Times(p.px, p.py + 2) <= Times(2 * p.py, p.pz + 2) + p.pz - 1
  {
    var v, b := Times(p.px, p.py + 2), p.pz + 2;
    forall q
      ensures GapXU(p, q) == v - Times(q, b)
    {
    }
    hide GapXU, Times;
    if q :| 2 <= q <= 2 * p.py && Within(GapXU(p, q), p.pz - 1) {
      MultiplesBetween(b, q, 2 * p.py);
    }
    if b + 3 <= v <= Times(2 * p.py, b) + b - 3 {
      NearestMultiple(v, b, 2 * p.py);
      var q :| 2 <= q <= 2 * p.py && Within(v - Times(q, b), b - 3);
      assert Within(GapXU(p, q), p.pz - 1);
    }
  }

  lemma {:induction false} FactorTwo(n: nat, x: nat, y: nat, z: nat)
    requires 3 <= n <= x <= 2 * n && n <= y && n <= z <= 2 * n
    ensures z + 5 <= Times(x, y + 2) <= Times(2 * y, z + 2) + z - 1
  {
    assert 3 * n + 6 <= Times(x, y + 2) by {
      MulMono(3, x, y + 2);
    }
    MulMono(x, 2 * n, y + 2);
    MulMono(n, z, 2 * y);
    assert 2 * n * (y + 2) == 2 * y * n + 4 * n;
    assert 2 * y * (z + 2) == 2 * y * z + 4 * y;
    assert z * (2 * y) == 2 * y * z && n * (2 * y) == 2 * y * n;
  }

  lemma {:induction false} ColliderRaces(p: Points)
    requires Sized(p) && CollidesXU(p)
    ensures !NoRaces(AsWritten, p)
  {
    hide NoRaces, CollidesXU, CollidesYU, CollidesYD, CollidesZU, Points.Valid, Points.AreasFit;
    RaceFreeIff(AsWritten, p);
  }

  /** So every sub-domain whose axes are within a factor of two of each other races, which is every
      configuration with one or two sub-domains per axis of a cubic mesh. */
  lemma {:induction false} NearCubesRace(n: nat, p: Points)
    requires Sized(p) && 3 <= n <= p.px <= 2 * n && n <= p.py <= 2 * n && n <= p.pz <= 2 * n
    ensures !NoRaces(AsWritten, p)
  {
    hide NoRaces, CollidesXU, Times, Points.Valid, Points.AreasFit;
    FactorTwo(n, p.px, p.py, p.pz);
    ThickXU(p);
    ColliderRaces(p);
  }

  /** And every sub-domain with a square cross-section that is not too long, cubes included. */
  lemma {:induction false} SquaresRace(p: Points)
    requires Sized(p) && p.py == p.pz && p.px <= 2 * p.py
    ensures !NoRaces(AsWritten, p)
  {
    hide NoRaces, Points.Valid, Points.AreasFit;
    assert Within(GapXU(p, p.px), p.pz - 1);
    ColliderRaces(p);
  }

  /** Not every size does. */
  lemma {:induction false} SomeSizeIsRaceFree()
    ensures Sized(Points(2, 2, 4)) && NoRaces(AsWritten, Points(2, 2, 4))
  {
    var p := Points(2, 2, 4);
    assert Sized(p);
    assert !CollidesXU(p) && !CollidesYU(p) && !CollidesYD(p) && !CollidesZU(p);
    RaceFreeIff(AsWritten, p);
  }
}
