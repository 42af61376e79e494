/** One worker process: its parameters, its device buffers and the timestep loop's two halves, in
    the program's own imperative form. */
module HeatRank {
  import opened LinearIndex
  import opened HeatGeometry
  import opened HeatKernels
  import opened HeatStep

  /** One new buffer per facet. */
  method AllocateBuffers(p: Points) returns (buffers: seq<array<real>>)
    ensures |buffers| == 6 && forall k :: 0 <= k < 6 ==>
              fresh(buffers[k]) && buffers[k].Length == BufferLen(p, FacetOf(k))
    ensures forall j, k :: 0 <= j < k < 6 ==> buffers[j] != buffers[k]
  {
    buffers := [];
    while |buffers| < 6
      invariant |buffers| <= 6
      invariant forall k :: 0 <= k < |buffers| ==> fresh(buffers[k]) && buffers[k].Length == BufferLen(p, FacetOf(k))
      invariant forall j, k :: 0 <= j < k < |buffers| ==> buffers[j] != buffers[k]
    {
      var b := new real[BufferLen(p, FacetOf(|buffers|))];
      buffers := buffers + [b];
    }
  }

  class Worker {
    const g: Grid
    const p: Points
    const rank: nat
    var coord: Coord
    var neighbours: seq<nat>
    var subDomainOld: array<real>
    var subDomainNew: array<real>
    const sendBuffers: seq<array<real>>
    const recvBuffers: seq<array<real>>

    ghost predicate Valid()
      reads this
    {
      && g.Valid() && Sized(p) && rank < g.Ranks()
      && subDomainOld != subDomainNew
      && subDomainOld.Length == p.Volume() && subDomainNew.Length == p.Volume()
      && |sendBuffers| == 6 && |recvBuffers| == 6
      && (forall k :: 0 <= k < 6 ==>
            && sendBuffers[k].Length == BufferLen(p, FacetOf(k)) && recvBuffers[k].Length == BufferLen(p, FacetOf(k))
            && sendBuffers[k] != subDomainOld && sendBuffers[k] != subDomainNew
            && recvBuffers[k] != subDomainOld && recvBuffers[k] != subDomainNew)
      && (forall j, k :: 0 <= j < k < 6 ==> sendBuffers[j] != sendBuffers[k])
      && (forall j, k :: 0 <= j < 6 && 0 <= k < 6 ==> sendBuffers[j] != recvBuffers[k])
    }

    /** Start-up: two sub-domains and a send and a receive buffer per facet, of the facets' lengths. */
    constructor (g: Grid, p: Points, rank: nat)
      requires g.Valid() && Sized(p) && rank < g.Ranks()
      ensures Valid() && this.g == g && this.p == p && this.rank == rank
    {
      hide Points.Volume, Points.AreasFit, Grid.Ranks, Grid.Valid, Sized;
      var sends := AllocateBuffers(p);
      var recvs := AllocateBuffers(p);
      this.g, this.p, this.rank := g, p, rank;
      coord, neighbours := Coord(0, 0, 0), [];
      subDomainOld := new real[p.Volume()];
      subDomainNew := new real[p.Volume()];
      sendBuffers, recvBuffers := sends, recvs;
    }

    /** What the neighbours have sent. */
    ghost function Received(): (recv: seq<seq<real>>)
      requires Valid()
      reads this, recvBuffers
      ensures RecvBuffers(p, recv)
    {
      [recvBuffers[0][..], recvBuffers[1][..], recvBuffers[2][..], recvBuffers[3][..], recvBuffers[4][..],
       recvBuffers[5][..]]
    }

    /** Each rank computes its own coordinates and its neighbours' ranks; the table is the
        topology's Neighbour relation. */
    method FindNeighbours()
      requires Valid()
      modifies this`coord, this`neighbours
      ensures Valid() && coord == RankToCoord(g, rank)
      ensures |neighbours| == 6 && forall f :: neighbours[Code(f)] == Neighbour(g, rank, f)
    {
      hide CoordUp, CoordDown, CoordToRank, RankToCoord, Neighbour, Grid.Ranks, Grid.Valid, Points.Volume, Sized;
      NeighbourTable(g, rank);
      coord := RankToCoord(g, rank);
      var x, y, z := coord.x, coord.y, coord.z;
      var xu, xd := CoordUp(g.nx, x), CoordDown(g.nx, x);
      var yu, yd := CoordUp(g.ny, y), CoordDown(g.ny, y);
      var zu, zd := CoordUp(g.nz, z), CoordDown(g.nz, z);
      neighbours := [CoordToRank(g, Coord(xu, y, z)), CoordToRank(g, Coord(xd, y, z)),
                     CoordToRank(g, Coord(x, yu, z)), CoordToRank(g, Coord(x, yd, z)),
                     CoordToRank(g, Coord(x, y, zu)), CoordToRank(g, Coord(x, y, zd))];
    }

    /** Facet updates and packs in order, then the interior. */
    method Compute(S: Stencil, m: PackMode)
      requires Valid()
      modifies subDomainNew, sendBuffers
      ensures Valid()
      ensures subDomainNew[..] == Computed(S, p, old(subDomainOld[..]), old(subDomainNew[..]))
      ensures forall f :: sendBuffers[Code(f)][..] == SendBuffer(m, S, p, old(subDomainOld[..]),
                                                                 old(subDomainNew[..]), f)
    {
      hide Points.Volume, Points.Valid, Points.AreasFit, Grid.Ranks, Grid.Valid, UpdateKernel, PackKernel;
      ghost var cur, nxt := subDomainOld[..], subDomainNew[..];
      UpdatesWithinInner(p);
      var k := 0;
      while k < 6
        invariant 0 <= k <= 6
        invariant subDomainOld[..] == cur && subDomainNew[..] == UpdateFacets(S, p, cur, nxt, k)
        invariant forall f :: Code(f) < k ==> sendBuffers[Code(f)][..] == SendBuffer(m, S, p, cur, nxt, f)
      {
        var f := FacetOf(k);
        CopiesWithinBounds(p, f);
        LaunchUpdate(S, p, subDomainOld, subDomainNew, Dedup(p, f));
        LaunchPack(m, p, subDomainNew, sendBuffers[k], Shell(p, f));
        k := k + 1;
      }
      LaunchUpdate(S, p, subDomainOld, subDomainNew, InteriorBox(p));
    }

    /** Unpack the six receive buffers, then swap. */
    method Finish()
      requires Valid()
      modifies this`subDomainOld, this`subDomainNew, subDomainNew
      ensures Valid()
      ensures subDomainOld == old(subDomainNew) && subDomainNew == old(subDomainOld)
      ensures subDomainNew[..] == old(subDomainOld[..])
      ensures subDomainOld[..] == Unpacked(p, old(subDomainNew[..]), old(Received()))
    {
      hide Points.Volume, Points.Valid, Points.AreasFit, Grid.Ranks, Grid.Valid, UnpackKernel, Box.Size, Halo,
           BufferLen;
      ghost var sub := subDomainNew[..];
      ghost var recv := Received();
      assert forall f :: |recv[Code(f)]| == BufferLen(p, f);
      var target, k := subDomainNew, 0;
      while k < 6
        modifies target
        invariant 0 <= k <= 6 && RecvBuffers(p, recv)
        invariant target[..] == UnpackFacets(p, sub, recv, k)
        invariant forall j :: 0 <= j < 6 ==> recvBuffers[j][..] == recv[j]
      {
        var f := FacetOf(k);
        CopiesWithinBounds(p, f);
        LaunchUnpack(p, target, recvBuffers[k], Halo(p, f));
        k := k + 1;
      }
      subDomainOld, subDomainNew := subDomainNew, subDomainOld;
    }
  }
}
