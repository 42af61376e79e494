/** One timestep of one rank: facet updates and packs in enumerator order, interior update, then
    unpacking of the receive buffers and the exchange of the two sub-domain buffers. */
module HeatStep {
  import opened LinearIndex
  import opened HeatGeometry
  import opened HeatKernels

  // ----- every dispatch of the timestep stays where it should

  lemma UpdatesWithinInner(p: Points)
    requires p.Countable() && p.Exact()
    ensures forall f :: WithinInner(p, Dedup(p, f))
    ensures WithinInner(p, InteriorBox(p))
  {
    PartitionIffExact(p);
    forall f, c: Coord | Dedup(p, f).Has(c)
      ensures Inner(p, c)
    {
      assert WritesPerStep(p, c) >= 1;
    }
    forall c: Coord | InteriorBox(p).Has(c)
      ensures Inner(p, c)
    {
      assert WritesPerStep(p, c) >= 1;
    }
  }

  lemma CopiesWithinBounds(p: Points, f: Facet)
    requires p.Valid()
    ensures WithinInner(p, Shell(p, f)) && WithinPadded(p, Halo(p, f))
    ensures Shell(p, f).Size() == BufferLen(p, f) && Halo(p, f).Size() == BufferLen(p, f)
  {
    FacetSizes(p, f);
    forall c: Coord
      ensures Shell(p, f).Has(c) ==> Inner(p, c)
      ensures Halo(p, f).Has(c) ==> Padded(p, c)
    {
      FacetBoxes(p, f, c);
    }
  }

  // ----- the compute half

  /** Sizes for which one timestep writes every inner point exactly once. */
  ghost predicate Sized(p: Points) {
    p.Countable() && p.Valid() && p.Exact()
  }

  ghost predicate Buffers(p: Points, cur: seq<real>, nxt: seq<real>) {
    Sized(p) && |cur| == p.Volume() && |nxt| == p.Volume()
  }

  /** The buffer being written after the first k facet updates. */
  function UpdateFacets(S: Stencil, p: Points, cur: seq<real>, nxt: seq<real>, k: nat): (r: seq<real>)
    requires Buffers(p, cur, nxt) && k <= 6
    ensures |r| == p.Volume()
  {
    if k == 0 then nxt else
      UpdatesWithinInner(p);
      UpdateKernel(S, p, cur, UpdateFacets(S, p, cur, nxt, k - 1), Dedup(p, FacetOf(k - 1)))
  }

  /** The send buffer of facet f: packed right after facet f is updated. */
  function SendBuffer(m: PackMode, S: Stencil, p: Points, cur: seq<real>, nxt: seq<real>, f: Facet): (r: seq<real>)
    requires Buffers(p, cur, nxt)
    ensures |r| == BufferLen(p, f)
  {
    CopiesWithinBounds(p, f);
    PackKernel(m, p, UpdateFacets(S, p, cur, nxt, Code(f) + 1), Shell(p, f))
  }

  /** The buffer being written at the host synchronisation. */
  function Computed(S: Stencil, p: Points, cur: seq<real>, nxt: seq<real>): (r: seq<real>)
    requires Buffers(p, cur, nxt)
    ensures |r| == p.Volume()
  {
    UpdatesWithinInner(p);
    UpdateKernel(S, p, cur, UpdateFacets(S, p, cur, nxt, 6), InteriorBox(p))
  }

  /** One of the first k facet updates writes c. */
  predicate UpdatedEarly(p: Points, k: nat, c: Coord)
    requires k <= 6
  {
    exists i :: 0 <= i < k && Dedup(p, FacetOf(i)).Has(c)
  }

  lemma {:induction false} UpdateFacetsAt(S: Stencil, p: Points, cur: seq<real>, nxt: seq<real>, k: nat, c: Coord)
    requires Buffers(p, cur, nxt) && k <= 6 && Padded(p, c)
    ensures UpdatedEarly(p, k, c) ==> Inner(p, c)
    ensures Read(p, UpdateFacets(S, p, cur, nxt, k), c)
         == if UpdatedEarly(p, k, c) then ApplyStencil(S, p, cur, c) else Read(p, nxt, c)
  {
    UpdatesWithinInner(p);
    if k > 0 {
      UpdateFacetsAt(S, p, cur, nxt, k - 1, c);
      UpdateKernelAt(S, p, cur, UpdateFacets(S, p, cur, nxt, k - 1), Dedup(p, FacetOf(k - 1)), c);
      assert UpdatedEarly(p, k, c) <==> UpdatedEarly(p, k - 1, c) || Dedup(p, FacetOf(k - 1)).Has(c);
    }
  }

  /** Order: when facet f is packed, every point of its full shell has already been updated in this
      timestep, although the shell overlaps the shells of other facets. */
  lemma {:induction false} PackedAfterUpdate(p: Points, f: Facet, c: Coord)
    requires p.Countable() && p.Exact() && ShellOf(p, f, c)
    ensures UpdatedEarly(p, Code(f) + 1, c)
  {
    hide U32;
    if Dedup(p, XU).Has(c) {
      assert Dedup(p, FacetOf(0)).Has(c);
    } else if Dedup(p, XD).Has(c) {
      assert Dedup(p, FacetOf(1)).Has(c);
    } else if Dedup(p, YU).Has(c) {
      assert Dedup(p, FacetOf(2)).Has(c);
    } else if Dedup(p, YD).Has(c) {
      assert Dedup(p, FacetOf(3)).Has(c);
    } else {
      assert Dedup(p, FacetOf(Code(f))).Has(c);
    }
  }

  /** After the compute half every inner point holds the stencil of the previous contents, and
      every other element is untouched. */
  lemma {:induction false} ComputedAt(S: Stencil, p: Points, cur: seq<real>, nxt: seq<real>, c: Coord)
    requires Buffers(p, cur, nxt) && Padded(p, c)
    ensures Read(p, Computed(S, p, cur, nxt), c)
         == if Inner(p, c) then ApplyStencil(S, p, cur, c) else Read(p, nxt, c)
  {
    UpdatesWithinInner(p);
    UpdateFacetsAt(S, p, cur, nxt, 6, c);
    UpdateKernelAt(S, p, cur, UpdateFacets(S, p, cur, nxt, 6), InteriorBox(p), c);
    EveryInnerPointWritten(p, c);
  }

  lemma {:induction false} EveryInnerPointWritten(p: Points, c: Coord)
    requires p.Countable() && p.Exact()
    ensures UpdatedEarly(p, 6, c) || InteriorBox(p).Has(c) <==> Inner(p, c)
  {
    UpdatesWithinInner(p);
    if Inner(p, c) && !UpdatedEarly(p, 6, c) {
      PartitionCell(p, c);
      assert !Dedup(p, FacetOf(0)).Has(c) && !Dedup(p, FacetOf(1)).Has(c) && !Dedup(p, FacetOf(2)).Has(c);
      assert !Dedup(p, FacetOf(3)).Has(c) && !Dedup(p, FacetOf(4)).Has(c) && !Dedup(p, FacetOf(5)).Has(c);
    }
  }

  /** With the documented packing a send buffer carries this timestep's values of its shell. */
  lemma {:induction false} SendBufferAt(S: Stencil, p: Points, cur: seq<real>, nxt: seq<real>, f: Facet, c: Coord)
    requires Buffers(p, cur, nxt) && ShellOf(p, f, c)
    ensures 0 <= BoxIndex(Shell(p, f), c) < BufferLen(p, f)
    ensures SendBuffer(Documented, S, p, cur, nxt, f)[BoxIndex(Shell(p, f), c)] == ApplyStencil(S, p, cur, c)
  {
    CopiesWithinBounds(p, f);
    FacetBoxes(p, f, c);
    PackKernelAt(Documented, p, UpdateFacets(S, p, cur, nxt, Code(f) + 1), Shell(p, f), c);
    PackedAfterUpdate(p, f, c);
    UpdateFacetsAt(S, p, cur, nxt, Code(f) + 1, c);
  }

  // ----- the exchange half

  ghost predicate RecvBuffers(p: Points, recv: seq<seq<real>>) {
    |recv| == 6 && forall f :: |recv[Code(f)]| == BufferLen(p, f)
  }

  /** The buffer after the first k receive buffers have been unpacked into it. */
  function UnpackFacets(p: Points, sub: seq<real>, recv: seq<seq<real>>, k: nat): (r: seq<real>)
    requires p.Valid() && |sub| == p.Volume() && RecvBuffers(p, recv) && k <= 6
    ensures |r| == p.Volume()
  {
    if k == 0 then sub else
      var f := FacetOf(k - 1);
      assert Code(f) == k - 1;
      CopiesWithinBounds(p, f);
      UnpackKernel(p, UnpackFacets(p, sub, recv, k - 1), recv[Code(f)], Halo(p, f))
  }

  function Unpacked(p: Points, sub: seq<real>, recv: seq<seq<real>>): (r: seq<real>)
    requires p.Valid() && |sub| == p.Volume() && RecvBuffers(p, recv)
    ensures |r| == p.Volume()
  {
    UnpackFacets(p, sub, recv, 6)
  }

  lemma GhostsDisjoint(p: Points, f: Facet, g: Facet, c: Coord)
    requires GhostOf(p, f, c) && GhostOf(p, g, c)
    ensures f == g
  {
  }

  lemma {:induction false} UnpackFacetsAt(p: Points, sub: seq<real>, recv: seq<seq<real>>, k: nat, c: Coord)
    requires p.Valid() && |sub| == p.Volume() && RecvBuffers(p, recv) && k <= 6 && Padded(p, c)
    ensures forall f :: GhostOf(p, f, c) ==> 0 <= BoxIndex(Halo(p, f), c) < BufferLen(p, f)
    ensures forall f :: GhostOf(p, f, c) && Code(f) < k ==>
              Read(p, UnpackFacets(p, sub, recv, k), c) == recv[Code(f)][BoxIndex(Halo(p, f), c)]
    ensures (forall f :: GhostOf(p, f, c) ==> Code(f) >= k) ==>
              Read(p, UnpackFacets(p, sub, recv, k), c) == Read(p, sub, c)
  {
    forall f | GhostOf(p, f, c)
      ensures 0 <= BoxIndex(Halo(p, f), c) < BufferLen(p, f)
    {
      CopiesWithinBounds(p, f);
      FacetBoxes(p, f, c);
      BoxIndexRoundTrip(Halo(p, f), c);
    }
    if k > 0 {
      var g := FacetOf(k - 1);
      assert Code(g) == k - 1;
      CopiesWithinBounds(p, g);
      FacetBoxes(p, g, c);
      UnpackFacetsAt(p, sub, recv, k - 1, c);
      UnpackKernelAt(p, UnpackFacets(p, sub, recv, k - 1), recv[k - 1], Halo(p, g), c);
      forall f | GhostOf(p, f, c) && f != g
        ensures !GhostOf(p, g, c) && Code(f) != k - 1
      {
        if GhostOf(p, g, c) {
          GhostsDisjoint(p, f, g, c);
        }
      }
    }
  }

  /** Unpacking fills each ghost facet from its own receive buffer and touches nothing else. */
  lemma {:induction false} UnpackedAt(p: Points, sub: seq<real>, recv: seq<seq<real>>, c: Coord)
    requires p.Valid() && |sub| == p.Volume() && RecvBuffers(p, recv) && Padded(p, c)
    ensures forall f :: GhostOf(p, f, c) ==> 0 <= BoxIndex(Halo(p, f), c) < BufferLen(p, f)
    ensures forall f :: GhostOf(p, f, c) ==>
              Read(p, Unpacked(p, sub, recv), c) == recv[Code(f)][BoxIndex(Halo(p, f), c)]
    ensures (forall f :: !GhostOf(p, f, c)) ==> Read(p, Unpacked(p, sub, recv), c) == Read(p, sub, c)
  {
    UnpackFacetsAt(p, sub, recv, 6, c);
  }
}
