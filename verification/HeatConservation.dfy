/** What the solver is for: with the kernels' own stencil on the periodic mesh the total heat never
    changes. Exact arithmetic; the program rounds. */
module HeatConservation {
  import opened LinearIndex
  import opened HeatGeometry
  import opened HeatKernels
  import opened HeatRefinement

  // ----- sums over a block

  ghost function SumZ(f: Field, x: int, y: int, n: nat): real {
    if n == 0 then 0.0 else SumZ(f, x, y, n - 1) + f(Coord(x, y, n - 1))
  }

  ghost function SumY(f: Field, x: int, n: nat, nz: nat): real {
    if n == 0 then 0.0 else SumY(f, x, n - 1, nz) + SumZ(f, x, n - 1, nz)
  }

  ghost function SumX(f: Field, n: nat, ny: nat, nz: nat): real {
    if n == 0 then 0.0 else SumX(f, n - 1, ny, nz) + SumY(f, n - 1, ny, nz)
  }

  ghost function Total(mesh: Grid, f: Field): real {
    SumX(f, mesh.nx, mesh.ny, mesh.nz)
  }

  // ----- sums are linear

  /** h = a + w * b on the block. */
  ghost predicate Combines(h: Field, a: Field, w: real, b: Field, nx: nat, ny: nat, nz: nat) {
    forall c :: InExtents(nx, ny, nz, c) ==> h(c) == a(c) + w * b(c)
  }

  lemma Gather(w: real, a: real, b: real, a': real, b': real)
    ensures a + w * b + (a' + w * b') == a + a' + w * (b + b')
  {
  }

  lemma {:induction false} CombineZ(h: Field, a: Field, w: real, b: Field, x: int, y: int, n: nat)
    requires forall z :: 0 <= z < n ==> h(Coord(x, y, z)) == a(Coord(x, y, z)) + w * b(Coord(x, y, z))
    ensures SumZ(h, x, y, n) == SumZ(a, x, y, n) + w * SumZ(b, x, y, n)
  {
    if n > 0 {
      CombineZ(h, a, w, b, x, y, n - 1);
      Gather(w, SumZ(a, x, y, n - 1), SumZ(b, x, y, n - 1), a(Coord(x, y, n - 1)), b(Coord(x, y, n - 1)));
    }
  }

  lemma {:induction false} CombineY(h: Field, a: Field, w: real, b: Field, x: nat, n: nat, nz: nat)
    requires Combines(h, a, w, b, x + 1, n, nz)
    ensures SumY(h, x, n, nz) == SumY(a, x, n, nz) + w * SumY(b, x, n, nz)
  {
    if n > 0 {
      CombineY(h, a, w, b, x, n - 1, nz);
      CombineZ(h, a, w, b, x, n - 1, nz);
      Gather(w, SumY(a, x, n - 1, nz), SumY(b, x, n - 1, nz), SumZ(a, x, n - 1, nz), SumZ(b, x, n - 1, nz));
    }
  }

  lemma {:induction false} CombineX(h: Field, a: Field, w: real, b: Field, n: nat, ny: nat, nz: nat)
    requires Combines(h, a, w, b, n, ny, nz)
    ensures SumX(h, n, ny, nz) == SumX(a, n, ny, nz) + w * SumX(b, n, ny, nz)
  {
    if n > 0 {
      CombineX(h, a, w, b, n - 1, ny, nz);
      CombineY(h, a, w, b, n - 1, ny, nz);
      Gather(w, SumX(a, n - 1, ny, nz), SumX(b, n - 1, ny, nz), SumY(a, n - 1, ny, nz), SumY(b, n - 1, ny, nz));
    }
  }

  // ----- sums do not notice a periodic shift

  lemma {:induction false} SlideZ(f: Field, g: Field, x: int, y: int, n: nat, k: nat)
    requires k < n && forall z: nat :: z < n ==> g(Coord(x, y, z)) == f(Coord(x, y, Next(n, z)))
    ensures SumZ(g, x, y, k) + f(Coord(x, y, 0)) == SumZ(f, x, y, k + 1)
  {
    if k > 0 {
      SlideZ(f, g, x, y, n, k - 1);
      assert Next(n, k - 1) == k;
    } else {
      assert SumZ(f, x, y, 1) == SumZ(f, x, y, 0) + f(Coord(x, y, 0));
    }
  }

  lemma {:induction false} ShiftZ(f: Field, g: Field, x: nat, nz: nat, n: nat)
    requires forall y: nat, z: nat :: y < n && z < nz ==> g(Coord(x, y, z)) == f(Coord(x, y, Next(nz, z)))
    ensures SumY(g, x, n, nz) == SumY(f, x, n, nz)
  {
    if n > 0 {
      ShiftZ(f, g, x, nz, n - 1);
      if nz > 0 {
        SlideZ(f, g, x, n - 1, nz, nz - 1);
        assert Next(nz, nz - 1) == 0;
      }
    }
  }

  lemma {:induction false} SameZ(f: Field, g: Field, x: int, y: int, x': int, y': int, n: nat)
    requires forall z :: 0 <= z < n ==> g(Coord(x, y, z)) == f(Coord(x', y', z))
    ensures SumZ(g, x, y, n) == SumZ(f, x', y', n)
  {
    if n > 0 {
      SameZ(f, g, x, y, x', y', n - 1);
    }
  }

  lemma {:induction false} SlideY(f: Field, g: Field, x: int, n: nat, nz: nat, k: nat)
    requires k < n && forall y: nat, z: nat :: y < n && z < nz ==> g(Coord(x, y, z)) == f(Coord(x, Next(n, y), z))
    ensures SumY(g, x, k, nz) + SumZ(f, x, 0, nz) == SumY(f, x, k + 1, nz)
  {
    if k > 0 {
      SlideY(f, g, x, n, nz, k - 1);
      assert Next(n, k - 1) == k;
      SameZ(f, g, x, k - 1, x, k, nz);
    } else {
      assert SumY(f, x, 1, nz) == SumY(f, x, 0, nz) + SumZ(f, x, 0, nz);
    }
  }

  lemma {:induction false} ShiftY(f: Field, g: Field, x: int, n: nat, nz: nat)
    requires 0 < n && forall y: nat, z: nat :: y < n && z < nz ==> g(Coord(x, y, z)) == f(Coord(x, Next(n, y), z))
    ensures SumY(g, x, n, nz) == SumY(f, x, n, nz)
  {
    SlideY(f, g, x, n, nz, n - 1);
    assert Next(n, n - 1) == 0;
    SameZ(f, g, x, n - 1, x, 0, nz);
  }

  lemma {:induction false} SameY(f: Field, g: Field, x: int, x': int, n: nat, nz: nat)
    requires forall y: nat, z: nat :: y < n && z < nz ==> g(Coord(x, y, z)) == f(Coord(x', y, z))
    ensures SumY(g, x, n, nz) == SumY(f, x', n, nz)
  {
    if n > 0 {
      SameY(f, g, x, x', n - 1, nz);
      SameZ(f, g, x, n - 1, x', n - 1, nz);
    }
  }

  lemma {:induction false} SlideX(f: Field, g: Field, n: nat, ny: nat, nz: nat, k: nat)
    requires k < n && forall x: nat, y: nat, z: nat :: x < n && y < ny && z < nz ==>
             g(Coord(x, y, z)) == f(Coord(Next(n, x), y, z))
    ensures SumX(g, k, ny, nz) + SumY(f, 0, ny, nz) == SumX(f, k + 1, ny, nz)
  {
    if k > 0 {
      SlideX(f, g, n, ny, nz, k - 1);
      assert Next(n, k - 1) == k;
      SameY(f, g, k - 1, k, ny, nz);
    } else {
      assert SumX(f, 1, ny, nz) == SumX(f, 0, ny, nz) + SumY(f, 0, ny, nz);
    }
  }

  /** g is f moved one point along an axis, periodically. */
  ghost predicate MovedX(mesh: Grid, f: Field, g: Field) {
    forall x: nat, y: nat, z: nat :: x < mesh.nx && y < mesh.ny && z < mesh.nz ==>
           g(Coord(x, y, z)) == f(Coord(Next(mesh.nx, x), y, z))
  }

  ghost predicate MovedY(mesh: Grid, f: Field, g: Field) {
    forall x: nat, y: nat, z: nat :: x < mesh.nx && y < mesh.ny && z < mesh.nz ==>
           g(Coord(x, y, z)) == f(Coord(x, Next(mesh.ny, y), z))
  }

  ghost predicate MovedZ(mesh: Grid, f: Field, g: Field) {
    forall x: nat, y: nat, z: nat :: x < mesh.nx && y < mesh.ny && z < mesh.nz ==>
           g(Coord(x, y, z)) == f(Coord(x, y, Next(mesh.nz, z)))
  }

  lemma {:induction false} MoveXKeepsTotal(mesh: Grid, f: Field, g: Field)
    requires MovedX(mesh, f, g) && 0 < mesh.nx
    ensures Total(mesh, g) == Total(mesh, f)
  {
    var n := mesh.nx;
    SlideX(f, g, n, mesh.ny, mesh.nz, n - 1);
    assert Next(n, n - 1) == 0;
    SameY(f, g, n - 1, 0, mesh.ny, mesh.nz);
  }

  lemma {:induction false} MoveYKeepsTotal(mesh: Grid, f: Field, g: Field, n: nat)
    requires MovedY(mesh, f, g) && 0 < mesh.ny && n <= mesh.nx
    ensures SumX(g, n, mesh.ny, mesh.nz) == SumX(f, n, mesh.ny, mesh.nz)
  {
    if n > 0 {
      MoveYKeepsTotal(mesh, f, g, n - 1);
      ShiftY(f, g, n - 1, mesh.ny, mesh.nz);
    }
  }

  lemma {:induction false} MoveZKeepsTotal(mesh: Grid, f: Field, g: Field, n: nat)
    requires MovedZ(mesh, f, g) && n <= mesh.nx
    ensures SumX(g, n, mesh.ny, mesh.nz) == SumX(f, n, mesh.ny, mesh.nz)
  {
    if n > 0 {
      MoveZKeepsTotal(mesh, f, g, n - 1);
      ShiftZ(f, g, n - 1, mesh.nz, mesh.ny);
    }
  }

  // ----- the field after t steps

  ghost function After(S: Stencil, mesh: Grid, F: Field, t: nat): Field {
    (c: Coord) => if InGrid(mesh, c) then GlobalRun(S, mesh, F, t, c) else 0.0
  }

  /** The six neighbours' fields. */
  ghost function East(mesh: Grid, f: Field): Field {
    (c: Coord) => if InGrid(mesh, c) then f(c.(x := Next(mesh.nx, c.x))) else 0.0
  }

  ghost function West(mesh: Grid, f: Field): Field {
    (c: Coord) => if InGrid(mesh, c) then f(c.(x := Prev(mesh.nx, c.x))) else 0.0
  }

  ghost function North(mesh: Grid, f: Field): Field {
    (c: Coord) => if InGrid(mesh, c) then f(c.(y := Next(mesh.ny, c.y))) else 0.0
  }

  ghost function South(mesh: Grid, f: Field): Field {
    (c: Coord) => if InGrid(mesh, c) then f(c.(y := Prev(mesh.ny, c.y))) else 0.0
  }

  ghost function Up(mesh: Grid, f: Field): Field {
    (c: Coord) => if InGrid(mesh, c) then f(c.(z := Next(mesh.nz, c.z))) else 0.0
  }

  ghost function Down(mesh: Grid, f: Field): Field {
    (c: Coord) => if InGrid(mesh, c) then f(c.(z := Prev(mesh.nz, c.z))) else 0.0
  }


  lemma MovesAlongX(mesh: Grid, f: Field)
    ensures MovedX(mesh, f, East(mesh, f)) && MovedX(mesh, West(mesh, f), f)
  {
    assert forall n: nat, x: nat :: x < n ==> Next(n, x) < n && Prev(n, Next(n, x)) == x;
  }

  lemma MovesAlongY(mesh: Grid, f: Field)
    ensures MovedY(mesh, f, North(mesh, f)) && MovedY(mesh, South(mesh, f), f)
  {
    assert forall n: nat, y: nat :: y < n ==> Next(n, y) < n && Prev(n, Next(n, y)) == y;
  }

  lemma MovesAlongZ(mesh: Grid, f: Field)
    ensures MovedZ(mesh, f, Up(mesh, f)) && MovedZ(mesh, Down(mesh, f), f)
  {
    assert forall n: nat, z: nat :: z < n ==> Next(n, z) < n && Prev(n, Next(n, z)) == z;
  }

  lemma {:induction false} NeighboursKeepTotal(mesh: Grid, f: Field)
    requires 0 < mesh.nx && 0 < mesh.ny && 0 < mesh.nz
    ensures Total(mesh, East(mesh, f)) == Total(mesh, f) && Total(mesh, West(mesh, f)) == Total(mesh, f)
    ensures Total(mesh, North(mesh, f)) == Total(mesh, f) && Total(mesh, South(mesh, f)) == Total(mesh, f)
    ensures Total(mesh, Up(mesh, f)) == Total(mesh, f) && Total(mesh, Down(mesh, f)) == Total(mesh, f)
  {
    hide SumX, SumY, SumZ, MovedX, MovedY, MovedZ, East, West, North, South, Up, Down;
    MovesAlongX(mesh, f);
    MovesAlongY(mesh, f);
    MovesAlongZ(mesh, f);
    MoveXKeepsTotal(mesh, f, East(mesh, f));
    MoveXKeepsTotal(mesh, West(mesh, f), f);
    MoveYKeepsTotal(mesh, f, North(mesh, f), mesh.nx);
    MoveYKeepsTotal(mesh, South(mesh, f), f, mesh.nx);
    MoveZKeepsTotal(mesh, f, Up(mesh, f), mesh.nx);
    MoveZKeepsTotal(mesh, Down(mesh, f), f, mesh.nx);
  }

  ghost function Plus(a: Field, b: Field): Field { (c: Coord) => a(c) + b(c) }

  lemma {:induction false} TotalPlus(mesh: Grid, a: Field, b: Field)
    ensures Total(mesh, Plus(a, b)) == Total(mesh, a) + Total(mesh, b)
  {
    hide SumX, SumY, SumZ;
    CombineX(Plus(a, b), a, 1.0, b, mesh.nx, mesh.ny, mesh.nz);
  }

  /** What flows into each point: the neighbours minus six times the point itself. */
  ghost function Flow(mesh: Grid, f: Field): Field {
    var four := Plus(Plus(Plus(West(mesh, f), East(mesh, f)), South(mesh, f)), North(mesh, f));
    var around := Plus(Plus(four, Down(mesh, f)), Up(mesh, f));
    (c: Coord) => around(c) - 6.0 * f(c)
  }

  /** As much flows in as out. */
  lemma {:induction false} FlowsCancel(mesh: Grid, f: Field)
    requires 0 < mesh.nx && 0 < mesh.ny && 0 < mesh.nz
    ensures Total(mesh, Flow(mesh, f)) == 0.0
  {
    hide Total, East, West, North, South, Up, Down;
    NeighboursKeepTotal(mesh, f);
    var two := Plus(West(mesh, f), East(mesh, f));
    var three := Plus(two, South(mesh, f));
    var four := Plus(three, North(mesh, f));
    var five := Plus(four, Down(mesh, f));
    var six := Plus(five, Up(mesh, f));
    TotalPlus(mesh, West(mesh, f), East(mesh, f));
    TotalPlus(mesh, two, South(mesh, f));
    TotalPlus(mesh, three, North(mesh, f));
    TotalPlus(mesh, four, Down(mesh, f));
    TotalPlus(mesh, five, Up(mesh, f));
    FlowTotal(mesh, f, six);
  }

  lemma {:induction false} FlowTotal(mesh: Grid, f: Field, around: Field)
    requires forall c :: Flow(mesh, f)(c) == around(c) - 6.0 * f(c)
    ensures Total(mesh, Flow(mesh, f)) == Total(mesh, around) - 6.0 * Total(mesh, f)
  {
    hide SumX, SumY, SumZ, Flow;
    CombineX(Flow(mesh, f), around, -6.0, f, mesh.nx, mesh.ny, mesh.nz);
  }

  /** The stencil applied to a point and its neighbours' fields. */
  ghost function Applied(S: Stencil, mesh: Grid, f: Field, c: Coord): real {
    S(West(mesh, f)(c), East(mesh, f)(c), South(mesh, f)(c), North(mesh, f)(c), Down(mesh, f)(c), Up(mesh, f)(c), f(c))
  }

  lemma {:induction false} AfterStep(S: Stencil, mesh: Grid, F: Field, t: nat, c: Coord)
    requires InGrid(mesh, c)
    ensures After(S, mesh, F, t + 1)(c) == Applied(S, mesh, After(S, mesh, F, t), c)
  {
  }

  /** One step of the heat stencil moves heat along the flow. */
  lemma {:induction false} StepFollowsFlow(w: real, mesh: Grid, f: Field, c: Coord)
    ensures Applied(HeatStencil(w), mesh, f, c) == f(c) + w * Flow(mesh, f)(c)
  {
  }

  lemma {:induction false} StepKeepsTotal(w: real, mesh: Grid, F: Field, t: nat)
    requires 0 < mesh.nx && 0 < mesh.ny && 0 < mesh.nz
    ensures Total(mesh, After(HeatStencil(w), mesh, F, t + 1)) == Total(mesh, After(HeatStencil(w), mesh, F, t))
  {
    hide SumX, SumY, SumZ, After, Flow, HeatStencil, Applied;
    var f, f' := After(HeatStencil(w), mesh, F, t), After(HeatStencil(w), mesh, F, t + 1);
    forall c | InExtents(mesh.nx, mesh.ny, mesh.nz, c)
      ensures f'(c) == f(c) + w * Flow(mesh, f)(c)
    {
      AfterStep(HeatStencil(w), mesh, F, t, c);
      StepFollowsFlow(w, mesh, f, c);
    }
    CombineX(f', f, w, Flow(mesh, f), mesh.nx, mesh.ny, mesh.nz);
    FlowsCancel(mesh, f);
  }

  /** Conservation: for every mesh, weight, initial field and number of steps the total heat is the
      initial total heat. */
  lemma {:induction false} HeatIsConserved(w: real, mesh: Grid, F: Field, t: nat)
    requires 0 < mesh.nx && 0 < mesh.ny && 0 < mesh.nz
    ensures Total(mesh, After(HeatStencil(w), mesh, F, t)) == Total(mesh, F)
  {
    if t == 0 {
      hide SumX, SumY, SumZ;
      CombineX(After(HeatStencil(w), mesh, F, 0), F, 0.0, F, mesh.nx, mesh.ny, mesh.nz);
    } else {
      hide Total, After;
      HeatIsConserved(w, mesh, F, t - 1);
      StepKeepsTotal(w, mesh, F, t - 1);
    }
  }
}
