/** The ranks together against one global periodic stencil. `SyncRun` is the bulk-synchronous
    execution of all ranks; `GlobalRun` never mentions ranks, facets, buffers or halos. */
module HeatRefinement {
  import opened LinearIndex
  import opened HeatGeometry
  import opened HeatKernels
  import opened HeatStep

  // ----- all ranks, bulk-synchronously

  /** The two sub-domain buffers of one rank. */
  datatype RankMem = RankMem(cur: seq<real>, nxt: seq<real>)

  ghost predicate ValidSetup(g: Grid, p: Points) {
    g.Valid() && Sized(p)
  }

  ghost predicate ValidSystem(g: Grid, p: Points, sys: seq<RankMem>) {
    && ValidSetup(g, p)
    && |sys| == g.Ranks()
    && forall r :: 0 <= r < |sys| ==> |sys[r].cur| == p.Volume() && |sys[r].nxt| == p.Volume()
  }

  /** Which setups are covered: at least one sub-domain per axis and fewer than 2^31 in all; the sizes
      the facet ranges are exact for, countable in uint32 with their ghosts, with facet areas below 2^32
      and an allocation below 2^64 bytes. */
  lemma {:induction false} SetupsCovered(g: Grid, p: Points)
    ensures ValidSetup(g, p) <==>
              && 1 <= g.nx && 1 <= g.ny && 1 <= g.nz && g.nx * g.ny * g.nz <= 0x7FFF_FFFF
              && 1 <= p.px <= 0xFFFF_FFFD && 1 <= p.py <= 0xFFFF_FFFD && 1 <= p.pz <= 0xFFFF_FFFD && p.Exact()
              && p.px * p.py <= 0xFFFF_FFFF && p.px * p.pz <= 0xFFFF_FFFF && p.py * p.pz <= 0xFFFF_FFFF
              && (p.px + 2) * (p.py + 2) * (p.pz + 2) <= 0x3FFF_FFFF_FFFF_FFFF
  {
  }

  /** Receive buffer f of rank r is written by facet reverse(f) of the neighbour across f. */
  function ReceivedFacet(m: PackMode, S: Stencil, g: Grid, p: Points, sys: seq<RankMem>, r: nat,
                         f: Facet): (b: seq<real>)
    requires ValidSystem(g, p, sys) && r < |sys|
    ensures |b| == BufferLen(p, f)
  {
    MatchingLengths(p, f);
    var from := sys[Neighbour(g, r, f)];
    SendBuffer(m, S, p, from.cur, from.nxt, ReverseFacet(f))
  }

  function Received(m: PackMode, S: Stencil, g: Grid, p: Points, sys: seq<RankMem>, r: nat): (recv: seq<seq<real>>)
    requires ValidSystem(g, p, sys) && r < |sys|
    ensures RecvBuffers(p, recv)
  {
    seq(6, k requires 0 <= k < 6 => ReceivedFacet(m, S, g, p, sys, r, FacetOf(k)))
  }

  /** One timestep of every rank: compute, exchange, unpack, swap. */
  function SyncStep(m: PackMode, S: Stencil, g: Grid, p: Points, sys: seq<RankMem>): (sys': seq<RankMem>)
    requires ValidSystem(g, p, sys)
    ensures ValidSystem(g, p, sys')
  {
    seq(|sys|, r requires 0 <= r < |sys| =>
      RankMem(Unpacked(p, Computed(S, p, sys[r].cur, sys[r].nxt), Received(m, S, g, p, sys, r)), sys[r].cur))
  }

  /** What facet f sends in the exchange that precedes the first timestep. */
  function InitSendBuffer(m: PackMode, p: Points, nxt: seq<real>, f: Facet): (r: seq<real>)
    requires p.Valid() && |nxt| == p.Volume()
    ensures |r| == BufferLen(p, f)
  {
    CopiesWithinBounds(p, f);
    PackKernel(m, p, nxt, Shell(p, f))
  }

  function InitReceivedFacet(m: PackMode, g: Grid, p: Points, start: seq<RankMem>, r: nat, f: Facet): (b: seq<real>)
    requires ValidSystem(g, p, start) && r < |start|
    ensures |b| == BufferLen(p, f)
  {
    MatchingLengths(p, f);
    InitSendBuffer(m, p, start[Neighbour(g, r, f)].nxt, ReverseFacet(f))
  }

  function InitReceived(m: PackMode, g: Grid, p: Points, start: seq<RankMem>, r: nat): (recv: seq<seq<real>>)
    requires ValidSystem(g, p, start) && r < |start|
    ensures RecvBuffers(p, recv)
  {
    seq(6, k requires 0 <= k < 6 => InitReceivedFacet(m, g, p, start, r, FacetOf(k)))
  }

  /** From freshly initialised `nxt` buffers to the state in which the timestep loop starts. */
  function SyncInit(m: PackMode, g: Grid, p: Points, start: seq<RankMem>): (sys: seq<RankMem>)
    requires ValidSystem(g, p, start)
    ensures ValidSystem(g, p, sys)
  {
    seq(|start|, r requires 0 <= r < |start| =>
      RankMem(Unpacked(p, start[r].nxt, InitReceived(m, g, p, start, r)), start[r].cur))
  }

  function SyncRun(m: PackMode, S: Stencil, g: Grid, p: Points, start: seq<RankMem>, t: nat): (sys: seq<RankMem>)
    requires ValidSystem(g, p, start)
    ensures ValidSystem(g, p, sys)
  {
    if t == 0 then SyncInit(m, g, p, start) else SyncStep(m, S, g, p, SyncRun(m, S, g, p, start, t - 1))
  }

  // ----- the global mesh

  type Field = Coord -> real

  /** t applications of the periodic stencil on an nx * ny * nz mesh. */
  ghost function GlobalRun(S: Stencil, mesh: Grid, F: Field, t: nat, c: Coord): real
    requires InGrid(mesh, c)
  {
    if t == 0 then F(c) else
      S(GlobalRun(S, mesh, F, t - 1, c.(x := Prev(mesh.nx, c.x))),
        GlobalRun(S, mesh, F, t - 1, c.(x := Next(mesh.nx, c.x))),
        GlobalRun(S, mesh, F, t - 1, c.(y := Prev(mesh.ny, c.y))),
        GlobalRun(S, mesh, F, t - 1, c.(y := Next(mesh.ny, c.y))),
        GlobalRun(S, mesh, F, t - 1, c.(z := Prev(mesh.nz, c.z))),
        GlobalRun(S, mesh, F, t - 1, c.(z := Next(mesh.nz, c.z))),
        GlobalRun(S, mesh, F, t - 1, c))
  }

  function Mesh(g: Grid, p: Points): Grid {
    Grid(g.nx * p.px, g.ny * p.py, g.nz * p.pz)
  }

  /** Global index of local index l (0 and k + 1 are the ghosts) of sub-domain s on an axis of n
      sub-domains with k points each. */
  function GlueAxis(n: nat, k: nat, s: nat, l: nat): int
    requires s < n && 0 < k && l <= k + 1
  {
    if s == 0 && l == 0 then n * k - 1
    else if s == n - 1 && l == k + 1 then 0
    else s * k + l - 1
  }

  lemma {:induction false} GlueAxisFacts(n: nat, k: nat, s: nat, l: nat)
    requires s < n && 0 < k && l <= k + 1
    ensures 0 <= GlueAxis(n, k, s, l) < n * k
    ensures 1 <= l <= k ==> GlueAxis(n, k, s, l) == s * k + l - 1
    ensures l <= k ==> GlueAxis(n, k, s, l + 1) == Next(n * k, GlueAxis(n, k, s, l))
    ensures 0 < l ==> GlueAxis(n, k, s, l - 1) == Prev(n * k, GlueAxis(n, k, s, l))
    ensures GlueAxis(n, k, s, k + 1) == GlueAxis(n, k, Next(n, s), 1)
    ensures GlueAxis(n, k, s, 0) == GlueAxis(n, k, Prev(n, s), k)
  {
    MulStep(s, n, k);
    MulMono(0, s, k);
    assert (s + 1) * k == s * k + k;
    assert (n - 1) * k == n * k - k;
    if 0 < s {
      assert (s - 1) * k == s * k - k;
      MulMono(1, s, k);
    }
    if s < n - 1 {
      MulStep(s + 1, n, k);
    }
  }

  /** Position in the global mesh of a local point of a rank. */
  function Glue(g: Grid, p: Points, r: nat, c: Coord): (d: Coord)
    requires ValidSetup(g, p) && r < g.Ranks() && Padded(p, c)
    ensures InGrid(Mesh(g, p), d)
  {
    RankRoundTrip(g, r);
    var s := RankToCoord(g, r);
    GlueAxisFacts(g.nx, p.px, s.x, c.x);
    GlueAxisFacts(g.ny, p.py, s.y, c.y);
    GlueAxisFacts(g.nz, p.pz, s.z, c.z);
    Coord(GlueAxis(g.nx, p.px, s.x, c.x), GlueAxis(g.ny, p.py, s.y, c.y), GlueAxis(g.nz, p.pz, s.z, c.z))
  }

  /** Where on the neighbour the ghost point c of facet f comes from. */
  function Mirror(p: Points, f: Facet, c: Coord): Coord {
    match f
    case XU => c.(x := 1) case XD => c.(x := p.px)
    case YU => c.(y := 1) case YD => c.(y := p.py)
    case ZU => c.(z := 1) case ZD => c.(z := p.pz)
  }

  lemma GhostsArePadded(p: Points, f: Facet, c: Coord)
    requires GhostOf(p, f, c) && p.Countable()
    ensures Padded(p, c) && ShellOf(p, ReverseFacet(f), Mirror(p, f, c)) && Padded(p, Mirror(p, f, c))
  {
  }

  /** Both sides of the wire number the points of a facet alike. */
  lemma SameBufferPosition(p: Points, f: Facet, c: Coord)
    requires p.Countable() && GhostOf(p, f, c)
    ensures BoxIndex(Halo(p, f), c) == BoxIndex(Shell(p, ReverseFacet(f)), Mirror(p, f, c))
  {
  }

  /** A ghost point and the neighbour's shell point it mirrors are one point of the periodic mesh,
      also when the neighbour is the rank itself. */
  lemma {:induction false} MirrorIsSamePoint(g: Grid, p: Points, r: nat, f: Facet, c: Coord)
    requires ValidSetup(g, p) && r < g.Ranks() && GhostOf(p, f, c)
    ensures Padded(p, c) && Padded(p, Mirror(p, f, c))
    ensures Glue(g, p, r, c) == Glue(g, p, Neighbour(g, r, f), Mirror(p, f, c))
  {
    hide GlueAxis, RankToCoord, CoordUp, CoordDown, Neighbour, Points.Valid, Points.AreasFit, Points.Volume,
         Grid.Valid, Grid.Ranks;
    GhostsArePadded(p, f, c);
    NeighbourIsBeside(g, r, f);
    AxisBounds(g);
    RankRoundTrip(g, r);
    var s := RankToCoord(g, r);
    CoordUpDown(g.nx, s.x);
    CoordUpDown(g.ny, s.y);
    CoordUpDown(g.nz, s.z);
    GlueAxisFacts(g.nx, p.px, s.x, 0);
    GlueAxisFacts(g.ny, p.py, s.y, 0);
    GlueAxisFacts(g.nz, p.pz, s.z, 0);
  }

  // ----- refinement

  /** Every cell a stencil may read holds the value of its point after t global steps. */
  ghost predicate Faithful(S: Stencil, g: Grid, p: Points, F: Field, sys: seq<RankMem>, t: nat)
    requires ValidSystem(g, p, sys)
  {
    forall r, c :: 0 <= r < |sys| && Padded(p, c) && Used(p, c) ==>
      Read(p, sys[r].cur, c) == GlobalRun(S, Mesh(g, p), F, t, Glue(g, p, r, c))
  }

  /** The freshly initialised buffers hold the field F on the inner points; all else is arbitrary. */
  ghost predicate Initialised(g: Grid, p: Points, F: Field, start: seq<RankMem>)
    requires ValidSystem(g, p, start)
  {
    forall r, c :: 0 <= r < |start| && Padded(p, c) && Inner(p, c) ==>
      Read(p, start[r].nxt, c) == F(Glue(g, p, r, c))
  }

  /** Stencil reads never leave the inner points and the six ghost facets. */
  lemma StencilReadsUsed(p: Points, c: Coord)
    requires Inner(p, c)
    ensures Used(p, c)
    ensures Used(p, c.(x := c.x - 1)) && Used(p, c.(x := c.x + 1))
    ensures Used(p, c.(y := c.y - 1)) && Used(p, c.(y := c.y + 1))
    ensures Used(p, c.(z := c.z - 1)) && Used(p, c.(z := c.z + 1))
  {
    assert Inner(p, c.(x := c.x - 1)) || GhostOf(p, XD, c.(x := c.x - 1));
    assert Inner(p, c.(x := c.x + 1)) || GhostOf(p, XU, c.(x := c.x + 1));
    assert Inner(p, c.(y := c.y - 1)) || GhostOf(p, YD, c.(y := c.y - 1));
    assert Inner(p, c.(y := c.y + 1)) || GhostOf(p, YU, c.(y := c.y + 1));
    assert Inner(p, c.(z := c.z - 1)) || GhostOf(p, ZD, c.(z := c.z - 1));
    assert Inner(p, c.(z := c.z + 1)) || GhostOf(p, ZU, c.(z := c.z + 1));
  }

  lemma {:induction false} GlueNeighbours(g: Grid, p: Points, r: nat, c: Coord)
    requires ValidSetup(g, p) && r < g.Ranks() && Inner(p, c)
    ensures Padded(p, c)
    ensures var d := Glue(g, p, r, c); var mesh := Mesh(g, p);
            && Glue(g, p, r, c.(x := c.x - 1)) == d.(x := Prev(mesh.nx, d.x))
            && Glue(g, p, r, c.(x := c.x + 1)) == d.(x := Next(mesh.nx, d.x))
            && Glue(g, p, r, c.(y := c.y - 1)) == d.(y := Prev(mesh.ny, d.y))
            && Glue(g, p, r, c.(y := c.y + 1)) == d.(y := Next(mesh.ny, d.y))
            && Glue(g, p, r, c.(z := c.z - 1)) == d.(z := Prev(mesh.nz, d.z))
            && Glue(g, p, r, c.(z := c.z + 1)) == d.(z := Next(mesh.nz, d.z))
  {
    hide GlueAxis, RankToCoord, Points.Valid, Points.AreasFit, Points.Volume, Grid.Valid, Grid.Ranks, Prev, Next;
    RankRoundTrip(g, r);
    var s := RankToCoord(g, r);
    GlueAxisFacts(g.nx, p.px, s.x, c.x);
    GlueAxisFacts(g.ny, p.py, s.y, c.y);
    GlueAxisFacts(g.nz, p.pz, s.z, c.z);
  }

  /** A faithful state computes the global step on its inner points. */
  lemma {:induction false} StencilIsGlobalStep(S: Stencil, g: Grid, p: Points, F: Field, sys: seq<RankMem>, t: nat,
                                               r: nat, c: Coord)
    requires ValidSystem(g, p, sys) && Faithful(S, g, p, F, sys, t) && r < |sys| && Inner(p, c)
    ensures Padded(p, c)
    ensures ApplyStencil(S, p, sys[r].cur, c) == GlobalRun(S, Mesh(g, p), F, t + 1, Glue(g, p, r, c))
  {
    hide Glue, Read, Used, Prev, Next, Mesh, Points.Valid, Points.AreasFit, Points.Volume, Grid.Valid, Grid.Ranks;
    StencilReadsUsed(p, c);
    GlueNeighbours(g, p, r, c);
  }

  /** If every shell point travels with its point's value, every ghost point receives its own. */
  lemma {:induction false} StepGhost(S: Stencil, g: Grid, p: Points, F: Field, sys: seq<RankMem>, t: nat, r: nat,
                                     f: Facet, c: Coord)
    requires ValidSystem(g, p, sys) && Faithful(S, g, p, F, sys, t) && r < |sys| && GhostOf(p, f, c)
    ensures 0 <= BoxIndex(Halo(p, f), c) < BufferLen(p, f) && Padded(p, c)
    ensures Received(Documented, S, g, p, sys, r)[Code(f)][BoxIndex(Halo(p, f), c)]
         == GlobalRun(S, Mesh(g, p), F, t + 1, Glue(g, p, r, c))
  {
    hide Glue, GlobalRun, BoxIndex, Used, Mesh, Points.Valid, Points.AreasFit, Points.Volume, Grid.Valid, Grid.Ranks,
         SendBuffer, Faithful, Neighbour;
    var n, d := Neighbour(g, r, f), Mirror(p, f, c);
    GhostsArePadded(p, f, c);
    SameBufferPosition(p, f, c);
    MatchingLengths(p, f);
    SendBufferAt(S, p, sys[n].cur, sys[n].nxt, ReverseFacet(f), d);
    StencilIsGlobalStep(S, g, p, F, sys, t, n, d);
    MirrorIsSamePoint(g, p, r, f, c);
  }

  /** One synchronous timestep of all ranks is one global step. */
  lemma {:induction false} SyncStepFaithful(S: Stencil, g: Grid, p: Points, F: Field, sys: seq<RankMem>, t: nat)
    requires ValidSystem(g, p, sys) && Faithful(S, g, p, F, sys, t)
    ensures Faithful(S, g, p, F, SyncStep(Documented, S, g, p, sys), t + 1)
  {
    var sys' := SyncStep(Documented, S, g, p, sys);
    forall r, c | 0 <= r < |sys'| && Padded(p, c) && Used(p, c)
      ensures Read(p, sys'[r].cur, c) == GlobalRun(S, Mesh(g, p), F, t + 1, Glue(g, p, r, c))
    {
      StepCell(S, g, p, F, sys, t, r, c);
    }
  }

  lemma {:induction false} StepCell(S: Stencil, g: Grid, p: Points, F: Field, sys: seq<RankMem>, t: nat, r: nat,
                                    c: Coord)
    requires ValidSystem(g, p, sys) && Faithful(S, g, p, F, sys, t)
    requires r < |sys| && Padded(p, c) && Used(p, c)
    ensures Read(p, SyncStep(Documented, S, g, p, sys)[r].cur, c)
            == GlobalRun(S, Mesh(g, p), F, t + 1, Glue(g, p, r, c))
  {
    hide Glue, GlobalRun, BoxIndex, Mesh, Points.Valid, Points.AreasFit, Points.Volume, Grid.Valid, Grid.Ranks,
         Faithful, Received, Computed, Unpacked, Read;
    if Inner(p, c) {
      StepInner(Documented, S, g, p, sys, r, c);
      StencilIsGlobalStep(S, g, p, F, sys, t, r, c);
    } else {
      var f :| GhostOf(p, f, c);
      UnpackedAt(p, Computed(S, p, sys[r].cur, sys[r].nxt), Received(Documented, S, g, p, sys, r), c);
      StepGhost(S, g, p, F, sys, t, r, f, c);
    }
  }

  /** The initial exchange fills every ghost facet. */
  lemma {:induction false} SyncInitFaithful(S: Stencil, g: Grid, p: Points, F: Field, start: seq<RankMem>)
    requires ValidSystem(g, p, start) && Initialised(g, p, F, start)
    ensures Faithful(S, g, p, F, SyncInit(Documented, g, p, start), 0)
  {
    hide SyncInit, Read, Glue, Mesh, Points.Valid, Points.AreasFit, Points.Volume, Grid.Valid, Grid.Ranks, Initialised;
    var sys := SyncInit(Documented, g, p, start);
    forall r, c | 0 <= r < |sys| && Padded(p, c) && Used(p, c)
      ensures Read(p, sys[r].cur, c) == GlobalRun(S, Mesh(g, p), F, 0, Glue(g, p, r, c))
    {
      InitCell(g, p, F, start, r, c);
    }
  }

  lemma {:induction false} InitCell(g: Grid, p: Points, F: Field, start: seq<RankMem>, r: nat, c: Coord)
    requires ValidSystem(g, p, start) && Initialised(g, p, F, start)
    requires r < |start| && Padded(p, c) && Used(p, c)
    ensures Read(p, SyncInit(Documented, g, p, start)[r].cur, c) == F(Glue(g, p, r, c))
  {
    hide Glue, Mesh, Points.Valid, Points.AreasFit, Points.Volume, Grid.Valid, Grid.Ranks, Unpacked, InitReceived,
         Neighbour, BoxIndex, Flat;
    hide SyncInit;
    if Inner(p, c) {
      InitInner(Documented, g, p, start, r, c);
    } else {
      var f :| GhostOf(p, f, c);
      var n, d := Neighbour(g, r, f), Mirror(p, f, c);
      GhostsArePadded(p, f, c);
      InitGhost(Documented, g, p, start, r, f, c);
      MirrorIsSamePoint(g, p, r, f, c);
      assert Read(p, start[n].nxt, d) == F(Glue(g, p, n, d));
    }
  }

  /** What the initial exchange delivers to a ghost point, whatever the packing. */
  ghost function PackedValue(m: PackMode, p: Points, sub: seq<real>, d: Coord): real
    requires |sub| == p.Volume() && Inner(p, d)
  {
    PackIndexInRange(m, p, d);
    sub[PackIndex(m, p, d)]
  }

  lemma {:induction false} InitGhost(m: PackMode, g: Grid, p: Points, start: seq<RankMem>, r: nat, f: Facet, c: Coord)
    requires ValidSystem(g, p, start) && r < |start| && Padded(p, c) && GhostOf(p, f, c) && Inner(p, Mirror(p, f, c))
    ensures Read(p, SyncInit(m, g, p, start)[r].cur, c)
         == PackedValue(m, p, start[Neighbour(g, r, f)].nxt, Mirror(p, f, c))
  {
    hide *;
    SetupFacts(g, p, start);
    var d, b, n := Mirror(p, f, c), Shell(p, ReverseFacet(f)), Neighbour(g, r, f);
    GhostsArePadded(p, f, c);
    SameBufferPosition(p, f, c);
    CopiesWithinBounds(p, ReverseFacet(f));
    FacetBoxes(p, ReverseFacet(f), d);
    PackKernelAt(m, p, start[n].nxt, b, d);
    UnpackedAt(p, start[r].nxt, InitReceived(m, g, p, start, r), c);
    InitUnfold(m, g, p, start, r, f, d);
  }

  lemma SetupFacts(g: Grid, p: Points, sys: seq<RankMem>)
    requires ValidSystem(g, p, sys)
    ensures ValidSetup(g, p) && g.Valid() && p.Valid() && p.Countable() && p.Exact() && |sys| == g.Ranks()
    ensures forall r :: 0 <= r < |sys| ==> |sys[r].cur| == p.Volume() && |sys[r].nxt| == p.Volume()
  {
  }

  lemma InitUnfold(m: PackMode, g: Grid, p: Points, start: seq<RankMem>, r: nat, f: Facet, d: Coord)
    requires ValidSystem(g, p, start) && r < |start| && Inner(p, d)
    ensures WithinInner(p, Shell(p, ReverseFacet(f)))
    ensures SyncInit(m, g, p, start)[r].cur == Unpacked(p, start[r].nxt, InitReceived(m, g, p, start, r))
    ensures InitReceived(m, g, p, start, r)[Code(f)]
         == PackKernel(m, p, start[Neighbour(g, r, f)].nxt, Shell(p, ReverseFacet(f)))
    ensures 0 <= PackIndex(m, p, d) < p.Volume()
    ensures PackedValue(m, p, start[Neighbour(g, r, f)].nxt, d) == start[Neighbour(g, r, f)].nxt[PackIndex(m, p, d)]
  {
    PackIndexInRange(m, p, d);
    hide Unpacked, Neighbour, PackKernel, Points.Volume, Grid.Ranks, Points.AreasFit;
    CopiesWithinBounds(p, ReverseFacet(f));
  }

  /** What a timestep computes at an inner point, whatever the packing. */
  lemma {:induction false} StepInner(m: PackMode, S: Stencil, g: Grid, p: Points, sys: seq<RankMem>, r: nat, c: Coord)
    requires ValidSystem(g, p, sys) && r < |sys| && Inner(p, c)
    ensures Padded(p, c)
    ensures Read(p, SyncStep(m, S, g, p, sys)[r].cur, c) == ApplyStencil(S, p, sys[r].cur, c)
  {
    hide Points.Valid, Points.AreasFit, Points.Volume, Grid.Valid, Grid.Ranks, Read, Unpacked, Computed, Received,
         ApplyStencil;
    UnpackedAt(p, Computed(S, p, sys[r].cur, sys[r].nxt), Received(m, S, g, p, sys, r), c);
    ComputedAt(S, p, sys[r].cur, sys[r].nxt, c);
    assert forall f :: !GhostOf(p, f, c);
  }

  /** Main theorem: with the documented packing order, for every rank grid, every sub-domain size
      the facet ranges are exact for, every stencil, every initial field and every number of
      timesteps, the ranks' cells glued together are the global periodic computation. */
  lemma {:induction false} SyncRefinesGlobal(S: Stencil, g: Grid, p: Points, F: Field, start: seq<RankMem>, t: nat)
    requires ValidSystem(g, p, start) && Initialised(g, p, F, start)
    ensures Faithful(S, g, p, F, SyncRun(Documented, S, g, p, start, t), t)
  {
    hide SyncStep, SyncInit, Faithful, Initialised, Points.Valid, Points.AreasFit, Points.Volume, Grid.Valid,
         Grid.Ranks;
    if t == 0 {
      SyncInitFaithful(S, g, p, F, start);
    } else {
      SyncRefinesGlobal(S, g, p, F, start, t - 1);
      SyncStepFaithful(S, g, p, F, SyncRun(Documented, S, g, p, start, t - 1), t - 1);
    }
  }

  // ----- the packing as written

  /** A rank's share of the field F, with `rest` in every cell that initialisation leaves alone. */
  ghost function FieldBuffer(g: Grid, p: Points, F: Field, r: nat, rest: real): (b: seq<real>)
    requires ValidSetup(g, p) && r < g.Ranks()
    ensures |b| == p.Volume()
  {
    seq(p.Volume(), i requires 0 <= i < p.Volume() =>
      CellRoundTrip(p, i);
      if Inner(p, CellAt(p, i)) then F(Glue(g, p, r, CellAt(p, i))) else rest)
  }

  ghost function Constant(p: Points, v: real): (b: seq<real>)
    ensures |b| == p.Volume()
  {
    seq(p.Volume(), i => v)
  }

  /** Device memory before the initial exchange: `rest` around the field, `behind` in the other buffer. */
  ghost function FieldStart(g: Grid, p: Points, F: Field, rest: real, behind: real): (start: seq<RankMem>)
    requires ValidSetup(g, p)
    ensures ValidSystem(g, p, start)
  {
    seq(g.Ranks(), r requires 0 <= r < g.Ranks() =>
      RankMem(Constant(p, behind), FieldBuffer(g, p, F, r, rest)))
  }

  lemma FieldBufferAt(g: Grid, p: Points, F: Field, r: nat, rest: real, c: Coord)
    requires ValidSetup(g, p) && r < g.Ranks() && Padded(p, c)
    ensures Read(p, FieldBuffer(g, p, F, r, rest), c) == if Inner(p, c) then F(Glue(g, p, r, c)) else rest
  {
    FlatRoundTrip(p, c);
  }

  lemma FieldStartInitialised(g: Grid, p: Points, F: Field, rest: real, behind: real)
    requires ValidSetup(g, p)
    ensures Initialised(g, p, F, FieldStart(g, p, F, rest, behind))
  {
    hide FieldBuffer, Read, Glue, Points.Volume, Grid.Ranks;
    forall r, c | 0 <= r < g.Ranks() && Padded(p, c) && Inner(p, c)
      ensures Read(p, FieldStart(g, p, F, rest, behind)[r].nxt, c) == F(Glue(g, p, r, c))
    {
      FieldBufferAt(g, p, F, r, rest, c);
    }
  }

  /** For the first shell point the packing as written reads a cell outside the sub-domain. */
  lemma {:induction false} AsWrittenReadsOutside(p: Points)
    requires p.Countable()
    ensures var i := PackIndex(AsWritten, p, Coord(1, 1, 1));
            0 <= i < p.Volume() && Padded(p, CellAt(p, i)) && !Inner(p, CellAt(p, i))
  {
    var i := PackIndex(AsWritten, p, Coord(1, 1, 1));
    AsWrittenReadsEarlier(p, Coord(1, 1, 1));
    CellRoundTrip(p, i);
    if Inner(p, CellAt(p, i)) {
      FirstInner(p, CellAt(p, i));
    }
  }

  /** No inner point is stored before (1, 1, 1). */
  lemma {:induction false} FirstInner(p: Points, c: Coord)
    requires Inner(p, c)
    ensures Flat(p, Coord(1, 1, 1)) <= Flat(p, c)
  {
    MulMono(1, c.x, p.py + 2);
    MulMono(1 * (p.py + 2), c.x * (p.py + 2), p.pz + 2);
    MulMono(1, c.y, p.pz + 2);
  }

  /** What is packed can only grow with the values around the field. */
  lemma {:induction false} PackedGrows(m: PackMode, g: Grid, p: Points, F: Field, n: nat, d: Coord, lo: real, hi: real)
    requires ValidSetup(g, p) && n < g.Ranks() && Inner(p, d) && lo <= hi
    ensures PackedValue(m, p, FieldBuffer(g, p, F, n, lo), d) <= PackedValue(m, p, FieldBuffer(g, p, F, n, hi), d)
    ensures m == AsWritten && d == Coord(1, 1, 1) ==> PackedValue(m, p, FieldBuffer(g, p, F, n, lo), d) == lo
  {
    hide Points.Volume, Points.AreasFit, Points.Valid, Grid.Ranks, Grid.Valid, PackIndex, CellAt, Glue;
    PackIndexInRange(m, p, d);
    AsWrittenReadsOutside(p);
  }

  /** The initial exchange does not touch the inner points, whatever the packing. */
  lemma {:induction false} InitInner(m: PackMode, g: Grid, p: Points, start: seq<RankMem>, r: nat, c: Coord)
    requires ValidSystem(g, p, start) && r < |start| && Inner(p, c)
    ensures Padded(p, c) && Read(p, SyncInit(m, g, p, start)[r].cur, c) == Read(p, start[r].nxt, c)
  {
    hide Points.Valid, Points.AreasFit, Points.Volume, Grid.Valid, Grid.Ranks, Unpacked, InitReceived, Read;
    UnpackedAt(p, start[r].nxt, InitReceived(m, g, p, start, r), c);
    assert forall f :: !GhostOf(p, f, c);
  }

  /** Every cell a stencil reads after the initial exchange can only grow with them; the inner
      points do not notice them, and as written the ghost beside (nPointsX, 1, 1) is one of them. */
  lemma {:induction false} ExchangeGrows(m: PackMode, g: Grid, p: Points, F: Field, r: nat, c: Coord, lo: real,
                                         hi: real, behind: real)
    requires ValidSetup(g, p) && r < g.Ranks() && Used(p, c) && Padded(p, c) && lo <= hi
    ensures var low, high := SyncInit(m, g, p, FieldStart(g, p, F, lo, behind))[r].cur,
            SyncInit(m, g, p, FieldStart(g, p, F, hi, behind))[r].cur;
            && Read(p, low, c) <= Read(p, high, c)
            && (Inner(p, c) ==> Read(p, low, c) == Read(p, high, c))
            && (m == AsWritten && c == Coord(p.px + 1, 1, 1) ==> Read(p, low, c) == lo && Read(p, high, c) == hi)
  {
    hide Points.Valid, Points.AreasFit, Points.Volume, Grid.Valid, Grid.Ranks, Read, SyncInit, Neighbour, FieldBuffer,
         PackedValue, Glue;
    var low, high := FieldStart(g, p, F, lo, behind), FieldStart(g, p, F, hi, behind);
    if Inner(p, c) {
      InitInner(m, g, p, low, r, c);
      InitInner(m, g, p, high, r, c);
      FieldBufferAt(g, p, F, r, lo, c);
      FieldBufferAt(g, p, F, r, hi, c);
    } else {
      var f :| GhostOf(p, f, c);
      GhostsArePadded(p, f, c);
      InitGhost(m, g, p, low, r, f, c);
      InitGhost(m, g, p, high, r, f, c);
      PackedGrows(m, g, p, F, Neighbour(g, r, f), Mirror(p, f, c), lo, hi);
      PackedGrows(m, g, p, F, Neighbour(g, r, f), Mirror(p, f, c), hi, hi);
    }
  }

  /** The last inner point of the first row along X, beside the ghost (nPointsX + 1, 1, 1). */
  function Beside(p: Points): Coord {
    Coord(p.px, 1, 1)
  }

  lemma {:induction false} DifferenceShows(w: real, a: real, b: real, c: real)
    requires w != 0.0 && a != b
    ensures c + w * (a - 6.0 * c) != c + w * (b - 6.0 * c)
  {
    var d := b - a;
    assert w * (b - 6.0 * c) == w * (a - 6.0 * c) + w * d;
    assert w * d != 0.0;
  }

  /** The six cells around c that the stencil reads. */
  ghost function Around(p: Points, sub: seq<real>, c: Coord): real
    requires |sub| == p.Volume() && Inner(p, c)
  {
    Read(p, sub, c.(x := c.x - 1)) + Read(p, sub, c.(x := c.x + 1)) + Read(p, sub, c.(y := c.y - 1)) +
    Read(p, sub, c.(y := c.y + 1)) + Read(p, sub, c.(z := c.z - 1)) + Read(p, sub, c.(z := c.z + 1))
  }

  /** Equal centres and different surroundings give different temperatures. */
  lemma {:induction false} SurroundingsShow(w: real, p: Points, sub: seq<real>, sub': seq<real>, c: Coord)
    requires |sub| == p.Volume() && |sub'| == p.Volume() && Inner(p, c) && Padded(p, c) && w != 0.0
    requires Read(p, sub, c) == Read(p, sub', c) && Around(p, sub, c) != Around(p, sub', c)
    ensures ApplyStencil(HeatStencil(w), p, sub, c) != ApplyStencil(HeatStencil(w), p, sub', c)
  {
    hide Points.Volume, Read;
    DifferenceShows(w, Around(p, sub, c), Around(p, sub', c), Read(p, sub, c));
  }

  /** As written, what rank 0 computes beside that ghost depends on memory nobody has initialised. */
  lemma {:induction false} RestShows(w: real, g: Grid, p: Points, F: Field)
    requires ValidSetup(g, p) && 0 < g.Ranks() && w != 0.0
    ensures Inner(p, Beside(p)) && Padded(p, Beside(p))
    ensures ApplyStencil(HeatStencil(w), p, SyncInit(AsWritten, g, p, FieldStart(g, p, F, 0.0, 0.0))[0].cur, Beside(p))
         != ApplyStencil(HeatStencil(w), p, SyncInit(AsWritten, g, p, FieldStart(g, p, F, 1.0, 0.0))[0].cur, Beside(p))
  {
    hide Points.Valid, Points.AreasFit, Points.Volume, Grid.Valid, Grid.Ranks, Read, SyncInit, FieldStart, Used,
         ApplyStencil, HeatStencil;
    var a := Beside(p);
    StencilReadsUsed(p, a);
    ExchangeGrows(AsWritten, g, p, F, 0, a, 0.0, 1.0, 0.0);
    ExchangeGrows(AsWritten, g, p, F, 0, a.(x := a.x - 1), 0.0, 1.0, 0.0);
    ExchangeGrows(AsWritten, g, p, F, 0, a.(x := a.x + 1), 0.0, 1.0, 0.0);
    ExchangeGrows(AsWritten, g, p, F, 0, a.(y := a.y - 1), 0.0, 1.0, 0.0);
    ExchangeGrows(AsWritten, g, p, F, 0, a.(y := a.y + 1), 0.0, 1.0, 0.0);
    ExchangeGrows(AsWritten, g, p, F, 0, a.(z := a.z - 1), 0.0, 1.0, 0.0);
    ExchangeGrows(AsWritten, g, p, F, 0, a.(z := a.z + 1), 0.0, 1.0, 0.0);
    SurroundingsShow(w, p, SyncInit(AsWritten, g, p, FieldStart(g, p, F, 0.0, 0.0))[0].cur,
                     SyncInit(AsWritten, g, p, FieldStart(g, p, F, 1.0, 0.0))[0].cur, a);
  }

  /** So for one of the two contents it is not what the global stencil computes. */
  lemma {:induction false} WrongRest(w: real, g: Grid, p: Points, F: Field) returns (rest: real)
    requires ValidSetup(g, p) && w != 0.0
    ensures 0 < g.Ranks() && Inner(p, Beside(p)) && Padded(p, Beside(p))
    ensures ApplyStencil(HeatStencil(w), p, SyncInit(AsWritten, g, p, FieldStart(g, p, F, rest, 0.0))[0].cur, Beside(p))
         != GlobalRun(HeatStencil(w), Mesh(g, p), F, 1, Glue(g, p, 0, Beside(p)))
  {
    hide Points.Valid, Points.AreasFit, Points.Volume, Grid.Valid, Grid.Ranks, SyncInit, FieldStart, ApplyStencil,
         HeatStencil, GlobalRun, Glue, Mesh;
    AxisBounds(g);
    RestShows(w, g, p, F);
    var cold := ApplyStencil(HeatStencil(w), p, SyncInit(AsWritten, g, p, FieldStart(g, p, F, 0.0, 0.0))[0].cur,
                             Beside(p));
    rest := if cold == GlobalRun(HeatStencil(w), Mesh(g, p), F, 1, Glue(g, p, 0, Beside(p))) then 1.0 else 0.0;
  }

  /** All bulk-synchronous runs that start from the field F refine the global computation. */
  ghost predicate RefinesField(S: Stencil, m: PackMode, g: Grid, p: Points, F: Field)
    requires ValidSetup(g, p)
  {
    forall start: seq<RankMem>, t: nat ::
      ValidSystem(g, p, start) && Initialised(g, p, F, start) ==> Faithful(S, g, p, F, SyncRun(m, S, g, p, start, t), t)
  }

  /** With the packing as written one timestep of the program's own stencil is already wrong, for
      every grid, every size, every initial field and every weight but zero. */
  lemma {:induction false} AsWrittenFails(w: real, g: Grid, p: Points, F: Field)
    requires ValidSetup(g, p) && w != 0.0
    ensures !RefinesField(HeatStencil(w), AsWritten, g, p, F)
  {
    hide Points.Valid, Points.AreasFit, Points.Volume, Grid.Valid, Grid.Ranks, Read, SyncInit, SyncStep, SyncRun,
         FieldStart, Glue, GlobalRun, Mesh, ApplyStencil, Initialised;
    var S := HeatStencil(w);
    var rest := WrongRest(w, g, p, F);
    var start := FieldStart(g, p, F, rest, 0.0);
    FieldStartInitialised(g, p, F, rest, 0.0);
    SyncRunOne(AsWritten, S, g, p, start);
    StepInner(AsWritten, S, g, p, SyncInit(AsWritten, g, p, start), 0, Beside(p));
    assert !Faithful(S, g, p, F, SyncRun(AsWritten, S, g, p, start, 1), 1);
  }

  lemma SyncRunOne(m: PackMode, S: Stencil, g: Grid, p: Points, start: seq<RankMem>)
    requires ValidSystem(g, p, start)
    ensures SyncRun(m, S, g, p, start, 1) == SyncStep(m, S, g, p, SyncInit(m, g, p, start))
  {
  }

  /** Exact condition, for every initial field and every weight but zero: the distributed solver
      refines the global one if and only if the pack kernel addresses the points it is dispatched
      on, which the kernel as written never does. */
  lemma {:induction false} RefinesIffPacksItsFacets(w: real, m: PackMode, g: Grid, p: Points, F: Field)
    requires ValidSetup(g, p) && w != 0.0
    ensures RefinesField(HeatStencil(w), m, g, p, F) <==> PacksItsFacets(m, p)
    ensures PacksItsFacets(m, p) <==> m == Documented
  {
    hide Faithful, SyncRun, ValidSystem, Initialised, HeatStencil;
    var S := HeatStencil(w);
    PacksItsFacetsIffDocumented(m, p);
    if m == Documented {
      forall start: seq<RankMem>, t: nat | ValidSystem(g, p, start) && Initialised(g, p, F, start)
        ensures Faithful(S, g, p, F, SyncRun(m, S, g, p, start, t), t)
      {
        SyncRefinesGlobal(S, g, p, F, start, t);
      }
    } else {
      AsWrittenFails(w, g, p, F);
    }
  }
}
