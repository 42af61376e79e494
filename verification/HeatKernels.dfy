/** The device kernels of the heat solver on flat storage: what one dispatch does to a buffer, as a
    function on sequences and as a launch over arrays. A launch is a `forall` statement, because
    the work-items of a dispatch run in no particular order; Dafny's check that no two of them
    write the same element is the kernel's own freedom from write-write races. */
module HeatKernels {
  import opened LinearIndex
  import opened HeatGeometry

  /** New temperature from the six neighbours (x-1, x+1, y-1, y+1, z-1, z+1) and the cell itself.
      Nothing below depends on which function this is. */
  type Stencil = (real, real, real, real, real, real, real) -> real

  /** The kernels' own stencil, with exact instead of rounded arithmetic. */
  function HeatStencil(weight: real): Stencil {
    (xd: real, xu: real, yd: real, yu: real, zd: real, zu: real, c: real) =>
      c + weight * (xd + xu + yd + yu + zd + zu - 6.0 * c)
  }

  // ----- flat storage

  predicate Padded(p: Points, c: Coord) {
    InExtents(p.px + 2, p.py + 2, p.pz + 2, c)
  }

  /** Position of a point in the padded sub-domain. */
  function Flat(p: Points, c: Coord): int {
    Lin(p.py + 2, p.pz + 2, c)
  }

  function CellAt(p: Points, i: nat): Coord {
    UnLin(p.py + 2, p.pz + 2, i)
  }

  lemma FlatRoundTrip(p: Points, c: Coord)
    requires Padded(p, c)
    ensures 0 <= Flat(p, c) < p.Volume() && CellAt(p, Flat(p, c)) == c
  {
    LinThenUnLin(p.px + 2, p.py + 2, p.pz + 2, c);
  }

  lemma CellRoundTrip(p: Points, i: nat)
    requires i < p.Volume()
    ensures Padded(p, CellAt(p, i)) && Flat(p, CellAt(p, i)) == i
  {
    UnLinThenLin(p.px + 2, p.py + 2, p.pz + 2, i);
  }

  function Read(p: Points, sub: seq<real>, c: Coord): real
    requires |sub| == p.Volume() && Padded(p, c)
  {
    FlatRoundTrip(p, c);
    sub[Flat(p, c)]
  }

  /** One application of the stencil to a sub-domain. */
  function ApplyStencil(S: Stencil, p: Points, cur: seq<real>, c: Coord): real
    requires |cur| == p.Volume() && Inner(p, c)
  {
    S(Read(p, cur, c.(x := c.x - 1)), Read(p, cur, c.(x := c.x + 1)),
      Read(p, cur, c.(y := c.y - 1)), Read(p, cur, c.(y := c.y + 1)),
      Read(p, cur, c.(z := c.z - 1)), Read(p, cur, c.(z := c.z + 1)),
      Read(p, cur, c))
  }

  // ----- dispatches over a box

  /** Buffer position of the work-item that handles c. */
  function BoxIndex(b: Box, c: Coord): int {
    Lin(b.YRange(), b.ZRange(), Coord(c.x - b.xs, c.y - b.ys, c.z - b.zs))
  }

  /** The point handled by the work-item that owns buffer position j. */
  function BoxCell(b: Box, j: nat): Coord
    requires 0 < b.YRange() && 0 < b.ZRange()
  {
    var l := UnLin(b.YRange(), b.ZRange(), j);
    Coord(l.x + b.xs, l.y + b.ys, l.z + b.zs)
  }

  lemma BoxIndexRoundTrip(b: Box, c: Coord)
    requires b.Has(c)
    ensures 0 <= BoxIndex(b, c) < b.Size() && BoxCell(b, BoxIndex(b, c)) == c
  {
    LinThenUnLin(b.XRange(), b.YRange(), b.ZRange(), Coord(c.x - b.xs, c.y - b.ys, c.z - b.zs));
  }

  lemma BoxCellRoundTrip(b: Box, j: nat)
    requires j < b.Size()
    ensures 0 < b.YRange() && 0 < b.ZRange()
    ensures b.Has(BoxCell(b, j)) && BoxIndex(b, BoxCell(b, j)) == j
  {
    UnLinThenLin(b.XRange(), b.YRange(), b.ZRange(), j);
  }

  /** Every work-item of the dispatch handles an inner point. */
  ghost predicate WithinInner(p: Points, b: Box) {
    forall c: Coord :: b.Has(c) ==> Inner(p, c)
  }

  /** update_facet and update_interior: write the box of `nxt` from `cur`. */
  function UpdateKernel(S: Stencil, p: Points, cur: seq<real>, nxt: seq<real>, b: Box): (r: seq<real>)
    requires |cur| == p.Volume() && |nxt| == p.Volume() && WithinInner(p, b)
    ensures |r| == p.Volume()
  {
    seq(p.Volume(), i requires 0 <= i < p.Volume() =>
      if b.Has(CellAt(p, i)) then ApplyStencil(S, p, cur, CellAt(p, i)) else nxt[i])
  }

  lemma UpdateKernelAt(S: Stencil, p: Points, cur: seq<real>, nxt: seq<real>, b: Box, c: Coord)
    requires |cur| == p.Volume() && |nxt| == p.Volume() && WithinInner(p, b) && Padded(p, c)
    ensures Read(p, UpdateKernel(S, p, cur, nxt, b), c)
         == if b.Has(c) then ApplyStencil(S, p, cur, c) else Read(p, nxt, c)
  {
    FlatRoundTrip(p, c);
  }

  // ----- packing

  /** Which element of the sub-domain the pack kernel reads for a point. The kernel as written adds
      (nPointsZ + 2) where the storage order the program documents multiplies by it. */
  datatype PackMode = AsWritten | Documented

  function PackIndex(m: PackMode, p: Points, c: Coord): int {
    match m
    case AsWritten => c.x * (p.py + 2) + (p.pz + 2) + c.y * (p.pz + 2) + c.z
    case Documented => Flat(p, c)
  }

  /** The kernel as written reads strictly before the intended element, for every point it is ever
      dispatched on and for every sub-domain size. */
  lemma {:induction false} AsWrittenReadsEarlier(p: Points, c: Coord)
    requires Inner(p, c)
    ensures 0 <= PackIndex(AsWritten, p, c) < Flat(p, c) < p.Volume()
  {
    var q, w := c.x * (p.py + 2), p.pz + 2;
    assert c.x * (p.py + 2) * (p.pz + 2) == q * w;
    assert q >= 3 by { MulMono(1, c.x, p.py + 2); }
    assert q + w < q * w by {
      assert q * w - q - w == (q - 1) * (w - 1) - 1;
      MulMono(2, q - 1, w - 1);
    }
    assert 0 <= c.y * w by { MulMono(0, c.y, w); }
    FlatRoundTrip(p, c);
  }

  lemma PackIndexInRange(m: PackMode, p: Points, c: Coord)
    requires Inner(p, c)
    ensures 0 <= PackIndex(m, p, c) < p.Volume()
  {
    AsWrittenReadsEarlier(p, c);
    FlatRoundTrip(p, c);
  }

  /** The pack kernel addresses the points it is dispatched on. */
  ghost predicate PacksItsFacets(m: PackMode, p: Points) {
    forall f: Facet, c: Coord :: ShellOf(p, f, c) ==> PackIndex(m, p, c) == Flat(p, c)
  }

  lemma PacksItsFacetsIffDocumented(m: PackMode, p: Points)
    requires p.Countable()
    ensures PacksItsFacets(m, p) <==> m == Documented
  {
    if m == AsWritten {
      var c := Coord(1, 1, 1);
      AsWrittenReadsEarlier(p, c);
      assert ShellOf(p, XD, c);
    }
  }

  /** pack_send_buffer: the send buffer of one facet. */
  function PackKernel(m: PackMode, p: Points, sub: seq<real>, b: Box): (r: seq<real>)
    requires |sub| == p.Volume() && WithinInner(p, b)
    ensures |r| == b.Size()
  {
    seq(b.Size(), j requires 0 <= j < b.Size() =>
      BoxCellRoundTrip(b, j);
      PackIndexInRange(m, p, BoxCell(b, j));
      sub[PackIndex(m, p, BoxCell(b, j))])
  }

  lemma PackKernelAt(m: PackMode, p: Points, sub: seq<real>, b: Box, c: Coord)
    requires |sub| == p.Volume() && WithinInner(p, b) && b.Has(c)
    ensures 0 <= BoxIndex(b, c) < b.Size() && 0 <= PackIndex(m, p, c) < p.Volume()
    ensures PackKernel(m, p, sub, b)[BoxIndex(b, c)] == sub[PackIndex(m, p, c)]
  {
    hide BoxIndex, BoxCell, PackIndex, Box.Size, Points.Volume, Box.Has;
    BoxIndexRoundTrip(b, c);
    PackIndexInRange(m, p, c);
  }

  // ----- unpacking

  ghost predicate WithinPadded(p: Points, b: Box) {
    forall c: Coord :: b.Has(c) ==> Padded(p, c)
  }

  /** unpack_recv_buffer: write the box of `sub` from one receive buffer. */
  function UnpackKernel(p: Points, sub: seq<real>, recv: seq<real>, b: Box): (r: seq<real>)
    requires |sub| == p.Volume() && |recv| == b.Size()
    ensures |r| == p.Volume()
  {
    seq(p.Volume(), i requires 0 <= i < p.Volume() =>
      if b.Has(CellAt(p, i)) then
        BoxIndexRoundTrip(b, CellAt(p, i));
        recv[BoxIndex(b, CellAt(p, i))]
      else sub[i])
  }

  lemma UnpackKernelAt(p: Points, sub: seq<real>, recv: seq<real>, b: Box, c: Coord)
    requires |sub| == p.Volume() && |recv| == b.Size() && Padded(p, c)
    ensures b.Has(c) ==> 0 <= BoxIndex(b, c) < |recv|
    ensures Read(p, UnpackKernel(p, sub, recv, b), c)
         == if b.Has(c) then recv[BoxIndex(b, c)] else Read(p, sub, c)
  {
    FlatRoundTrip(p, c);
    if b.Has(c) {
      BoxIndexRoundTrip(b, c);
    }
  }

  // ----- the launches on device buffers

  lemma FlatInjective(p: Points)
    ensures forall c, d :: Padded(p, c) && Padded(p, d) && Flat(p, c) == Flat(p, d) ==> c == d
  {
    forall c, d | Padded(p, c) && Padded(p, d) && Flat(p, c) == Flat(p, d)
      ensures c == d
    {
      FlatRoundTrip(p, c);
      FlatRoundTrip(p, d);
    }
  }

  /** update_facet / update_interior as launched: one work-item per point of the box. */
  method LaunchUpdate(S: Stencil, p: Points, cur: array<real>, nxt: array<real>, b: Box)
    requires cur != nxt && cur.Length == p.Volume() && nxt.Length == p.Volume() && WithinInner(p, b)
    modifies nxt
    ensures nxt[..] == UpdateKernel(S, p, cur[..], old(nxt[..]), b)
  {
    hide Flat, CellAt, Points.Volume, Box.XRange, Box.YRange, Box.ZRange, Box.Size, BoxIndex, BoxCell, PackIndex,
         ApplyStencil;
    ghost var was := nxt[..];
    var src := cur[..];
    forall x, y, z | b.xs <= x < b.xs + b.XRange() && b.ys <= y < b.ys + b.YRange() && b.zs <= z < b.zs + b.ZRange()
      ensures b.Has(Coord(x, y, z)) && 0 <= Flat(p, Coord(x, y, z)) < p.Volume()
    {
      assert b.Has(Coord(x, y, z));
      FlatRoundTrip(p, Coord(x, y, z));
    }
    FlatInjective(p);
    forall x, y, z | b.xs <= x < b.xs + b.XRange() && b.ys <= y < b.ys + b.YRange() && b.zs <= z < b.zs + b.ZRange() {
      nxt[Flat(p, Coord(x, y, z))] := ApplyStencil(S, p, src, Coord(x, y, z));
    }
    forall i | 0 <= i < p.Volume()
      ensures nxt[i] == UpdateKernel(S, p, src, was, b)[i]
    {
      CellRoundTrip(p, i);
      var c := CellAt(p, i);
      assert c == Coord(c.x, c.y, c.z);
    }
    assert src == cur[..];
  }

  /** pack_send_buffer as launched. */
  method LaunchPack(m: PackMode, p: Points, sub: array<real>, send: array<real>, b: Box)
    requires sub != send && sub.Length == p.Volume() && send.Length == b.Size() && WithinInner(p, b)
    modifies send
    ensures send[..] == PackKernel(m, p, sub[..], b)
  {
    hide Flat, CellAt, Points.Volume, Box.XRange, Box.YRange, Box.ZRange, Box.Size, BoxIndex, BoxCell, PackIndex,
         ApplyStencil;
    forall x, y, z | b.xs <= x < b.xs + b.XRange() && b.ys <= y < b.ys + b.YRange() && b.zs <= z < b.zs + b.ZRange()
      ensures 0 <= BoxIndex(b, Coord(x, y, z)) < b.Size() && BoxCell(b, BoxIndex(b, Coord(x, y, z))) == Coord(x, y, z)
      ensures 0 <= PackIndex(m, p, Coord(x, y, z)) < p.Volume()
    {
      BoxIndexRoundTrip(b, Coord(x, y, z));
      PackIndexInRange(m, p, Coord(x, y, z));
    }
    forall x, y, z | b.xs <= x < b.xs + b.XRange() && b.ys <= y < b.ys + b.YRange() && b.zs <= z < b.zs + b.ZRange() {
      send[BoxIndex(b, Coord(x, y, z))] := sub[PackIndex(m, p, Coord(x, y, z))];
    }
    forall j | 0 <= j < b.Size()
      ensures send[j] == PackKernel(m, p, sub[..], b)[j]
    {
      BoxCellRoundTrip(b, j);
      var c := BoxCell(b, j);
      assert c == Coord(c.x, c.y, c.z);
    }
  }

  /** unpack_recv_buffer as launched. */
  method LaunchUnpack(p: Points, sub: array<real>, recv: array<real>, b: Box)
    requires sub != recv && sub.Length == p.Volume() && recv.Length == b.Size() && WithinPadded(p, b)
    modifies sub
    ensures sub[..] == UnpackKernel(p, old(sub[..]), recv[..], b)
  {
    hide Flat, CellAt, Points.Volume, Box.XRange, Box.YRange, Box.ZRange, Box.Size, BoxIndex, BoxCell, PackIndex,
         ApplyStencil;
    ghost var was := sub[..];
    forall x, y, z | b.xs <= x < b.xs + b.XRange() && b.ys <= y < b.ys + b.YRange() && b.zs <= z < b.zs + b.ZRange()
      ensures b.Has(Coord(x, y, z)) && 0 <= Flat(p, Coord(x, y, z)) < p.Volume()
      ensures 0 <= BoxIndex(b, Coord(x, y, z)) < b.Size()
    {
      FlatRoundTrip(p, Coord(x, y, z));
      BoxIndexRoundTrip(b, Coord(x, y, z));
    }
    FlatInjective(p);
    forall x, y, z | b.xs <= x < b.xs + b.XRange() && b.ys <= y < b.ys + b.YRange() && b.zs <= z < b.zs + b.ZRange() {
      sub[Flat(p, Coord(x, y, z))] := recv[BoxIndex(b, Coord(x, y, z))];
    }
    forall i | 0 <= i < p.Volume()
      ensures sub[i] == UnpackKernel(p, was, recv[..], b)[i]
    {
      CellRoundTrip(p, i);
      var c := CellAt(p, i);
      assert c == Coord(c.x, c.y, c.z);
    }
  }
}
