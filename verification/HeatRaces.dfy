/** Work-items of one rank's timestep in every order the command-list barriers allow. */
module WorkItems {

  /** One work-item: read `srcs`, write `dst`. */
  datatype Item<Loc> = Item(dst: Loc, srcs: seq<Loc>, op: seq<real> -> real)

  ghost function Fetch<Loc>(m: map<Loc, real>, srcs: seq<Loc>): seq<real>
    requires forall s :: s in srcs ==> s in m
  {
    seq(|srcs|, i requires 0 <= i < |srcs| => m[srcs[i]])
  }

  ghost predicate Runnable<Loc>(m: map<Loc, real>, items: seq<Item<Loc>>) {
    forall k :: 0 <= k < |items| ==> items[k].dst in m && forall s :: s in items[k].srcs ==> s in m
  }

  /** The memory after the items have run one after the other. */
  ghost function Run<Loc>(m: map<Loc, real>, items: seq<Item<Loc>>): (m': map<Loc, real>)
    requires Runnable(m, items)
    ensures m'.Keys == m.Keys
  {
    if items == [] then m else
      var before := Run(m, items[..|items| - 1]);
      var last := items[|items| - 1];
      before[last.dst := last.op(Fetch(before, last.srcs))]
  }

  /** No item writes what another one reads or writes. */
  ghost predicate RaceFree<Loc>(items: seq<Item<Loc>>) {
    forall i, j :: 0 <= i < |items| && 0 <= j < |items| && i != j ==>
      items[i].dst != items[j].dst && items[i].dst !in items[j].srcs
  }

  /** Race-free items compute, in whatever order they run, what each would compute alone on the
      memory they started from. */
  lemma {:induction false} RunIsParallel<Loc>(m: map<Loc, real>, items: seq<Item<Loc>>, l: Loc)
    requires Runnable(m, items) && RaceFree(items) && l in m
    ensures forall k :: 0 <= k < |items| && items[k].dst == l ==>
              Run(m, items)[l] == items[k].op(Fetch(m, items[k].srcs))
    ensures (forall k :: 0 <= k < |items| ==> items[k].dst != l) ==> Run(m, items)[l] == m[l]
  {
    if items != [] {
      var n := |items| - 1;
      var front, last := items[..n], items[n];
      RunIsParallel(m, front, l);
      var before := Run(m, front);
      assert Fetch(before, last.srcs) == Fetch(m, last.srcs) by {
        forall i | 0 <= i < |last.srcs|
          ensures before[last.srcs[i]] == m[last.srcs[i]]
        {
          RunIsParallel(m, front, last.srcs[i]);
        }
      }
      assert forall k :: 0 <= k < n ==> front[k] == items[k];
    }
  }
}

module HeatRaces {
  import opened LinearIndex
  import opened HeatGeometry
  import opened HeatKernels
  import opened HeatStep
  import opened WorkItems

  /** The device buffers a rank's commands touch in one timestep; PeerRecv(f) is the receive buffer
      of the neighbour across f. By UniqueSender no other command writes it. */
  datatype Buffer = Cur | Nxt | Send(f: Facet) | PeerRecv(f: Facet)

  datatype Loc = Loc(buffer: Buffer, i: int)

  datatype WorkItem =
    | UpdateItem(f: Facet, c: Coord)
    | PackItem(f: Facet, c: Coord)
    | CopyItem(f: Facet, j: int)
    | InteriorItem(c: Coord)

  /** The work-items between two consecutive barriers. Segment k < 6 holds the update of facet k and
      the pack of facet k - 1, segment 6 the last pack, segment 7 the six sends and the interior. */
  predicate InSegment(p: Points, k: nat, w: WorkItem) {
    match w
    case UpdateItem(f, c) => Code(f) == k && Dedup(p, f).Has(c)
    case PackItem(f, c) => Code(f) + 1 == k && ShellOf(p, f, c)
    case CopyItem(f, j) => k == 7 && 0 <= j < BufferLen(p, f)
    case InteriorItem(c) => k == 7 && InteriorBox(p).Has(c)
  }

  function StencilSources(p: Points, c: Coord): seq<Loc> {
    [Loc(Cur, Flat(p, c.(x := c.x - 1))), Loc(Cur, Flat(p, c.(x := c.x + 1))),
     Loc(Cur, Flat(p, c.(y := c.y - 1))), Loc(Cur, Flat(p, c.(y := c.y + 1))),
     Loc(Cur, Flat(p, c.(z := c.z - 1))), Loc(Cur, Flat(p, c.(z := c.z + 1))),
     Loc(Cur, Flat(p, c))]
  }

  function StencilOp(S: Stencil): seq<real> -> real {
    (v: seq<real>) => if |v| == 7 then S(v[0], v[1], v[2], v[3], v[4], v[5], v[6]) else 0.0
  }

  function CopyOp(): seq<real> -> real {
    (v: seq<real>) => if |v| == 1 then v[0] else 0.0
  }

  /** What a work-item reads and writes. */
  function Effect(m: PackMode, S: Stencil, p: Points, w: WorkItem): Item<Loc> {
    match w
    case UpdateItem(f, c) => Item(Loc(Nxt, Flat(p, c)), StencilSources(p, c), StencilOp(S))
    case InteriorItem(c) => Item(Loc(Nxt, Flat(p, c)), StencilSources(p, c), StencilOp(S))
    case PackItem(f, c) => Item(Loc(Send(f), BoxIndex(Shell(p, f), c)), [Loc(Nxt, PackIndex(m, p, c))], CopyOp())
    case CopyItem(f, j) => Item(Loc(PeerRecv(f), j), [Loc(Send(f), j)], CopyOp())
  }

  /** With the documented packing any two different work-items of one segment are free of races:
      different destinations, and neither reads what the other writes. */
  lemma {:induction false} SegmentRaceFree(S: Stencil, p: Points, k: nat, v: WorkItem, w: WorkItem)
    requires Sized(p) && InSegment(p, k, v) && InSegment(p, k, w) && v != w
    ensures Effect(Documented, S, p, v).dst != Effect(Documented, S, p, w).dst
    ensures Effect(Documented, S, p, v).dst !in Effect(Documented, S, p, w).srcs
  {
    hide Points.Valid, Points.Volume, Points.AreasFit, Flat, BoxIndex;
    UpdatesInside(p, k, v);
    UpdatesInside(p, k, w);
    match (v, w)
    case (UpdateItem(f, c), UpdateItem(g, d)) => DistinctCells(p, c, d);
    case (InteriorItem(c), InteriorItem(d)) => DistinctCells(p, c, d);
    case (UpdateItem(f, c), PackItem(g, d)) =>
      UpdateMissesEarlierShell(p, f, g, c);
      DistinctCells(p, c, d);
    case (PackItem(f, c), PackItem(g, d)) =>
      FacetBoxes(p, f, c);
      FacetBoxes(p, f, d);
      BoxIndexRoundTrip(Shell(p, f), c);
      BoxIndexRoundTrip(Shell(p, f), d);
    case _ =>
  }

  /** Every two different work-items that no command-list barrier separates. */
  ghost predicate NoRaces(m: PackMode, p: Points) {
    forall S: Stencil, k: nat, v, w :: InSegment(p, k, v) && InSegment(p, k, w) && v != w ==>
      Effect(m, S, p, v).dst != Effect(m, S, p, w).dst && Effect(m, S, p, v).dst !in Effect(m, S, p, w).srcs
  }

  lemma {:induction false} DocumentedHasNoRaces(p: Points)
    requires Sized(p)
    ensures NoRaces(Documented, p)
  {
    hide InSegment, Effect;
    forall S: Stencil, k: nat, v, w | InSegment(p, k, v) && InSegment(p, k, w) && v != w
      ensures Effect(Documented, S, p, v).dst != Effect(Documented, S, p, w).dst
      ensures Effect(Documented, S, p, v).dst !in Effect(Documented, S, p, w).srcs
    {
      SegmentRaceFree(S, p, k, v, w);
    }
  }

  lemma UpdatesInside(p: Points, k: nat, w: WorkItem)
    requires Sized(p) && InSegment(p, k, w)
    ensures w.UpdateItem? || w.PackItem? || w.InteriorItem? ==> Inner(p, w.c) && Padded(p, w.c)
    ensures p.Countable()
  {
    UpdatesWithinInner(p);
  }

  lemma DistinctCells(p: Points, c: Coord, d: Coord)
    requires Padded(p, c) && Padded(p, d) && c != d
    ensures Flat(p, c) != Flat(p, d)
  {
    FlatRoundTrip(p, c);
    FlatRoundTrip(p, d);
  }

  /** The update of facet k + 1 overlaps the pack of facet k in time, but not in space. */
  lemma UpdateMissesEarlierShell(p: Points, f: Facet, g: Facet, c: Coord)
    requires p.Countable() && p.Exact() && Code(f) == Code(g) + 1 && Dedup(p, f).Has(c)
    ensures !ShellOf(p, g, c)
  {
  }

  // ----- from work-items to buffers

  /** Memory holds these buffer contents. */
  ghost predicate Holds(p: Points, m: map<Loc, real>, cur: seq<real>, nxt: seq<real>) {
    && |cur| == p.Volume() && |nxt| == p.Volume()
    && (forall i :: 0 <= i < p.Volume() ==> Loc(Cur, i) in m && m[Loc(Cur, i)] == cur[i])
    && (forall i :: 0 <= i < p.Volume() ==> Loc(Nxt, i) in m && m[Loc(Nxt, i)] == nxt[i])
    && (forall f, j :: 0 <= j < BufferLen(p, f) ==> Loc(Send(f), j) in m && Loc(PeerRecv(f), j) in m)
  }

  ghost predicate HoldsBuffer(m: map<Loc, real>, b: Buffer, contents: seq<real>) {
    forall j :: 0 <= j < |contents| ==> Loc(b, j) in m && m[Loc(b, j)] == contents[j]
  }

  /** A schedule: every work-item of the segment exactly once, in any order. */
  ghost predicate Schedule(p: Points, k: nat, ws: seq<WorkItem>) {
    && (forall i :: 0 <= i < |ws| ==> InSegment(p, k, ws[i]))
    && (forall i, j :: 0 <= i < |ws| && 0 <= j < |ws| && i != j ==> ws[i] != ws[j])
    && (forall w :: InSegment(p, k, w) ==> w in ws)
  }

  ghost function Items(S: Stencil, p: Points, ws: seq<WorkItem>): (items: seq<Item<Loc>>)
    ensures |items| == |ws|
  {
    seq(|ws|, i requires 0 <= i < |ws| => Effect(Documented, S, p, ws[i]))
  }

  lemma {:induction false} ScheduleRaceFree(S: Stencil, p: Points, k: nat, ws: seq<WorkItem>)
    requires Sized(p) && Schedule(p, k, ws)
    ensures RaceFree(Items(S, p, ws))
  {
    forall i, j | 0 <= i < |ws| && 0 <= j < |ws| && i != j
      ensures Effect(Documented, S, p, ws[i]).dst != Effect(Documented, S, p, ws[j]).dst
      ensures Effect(Documented, S, p, ws[i]).dst !in Effect(Documented, S, p, ws[j]).srcs
    {
      SegmentRaceFree(S, p, k, ws[i], ws[j]);
    }
  }

  lemma {:induction false} EffectInMemory(S: Stencil, p: Points, k: nat, w: WorkItem, m: map<Loc, real>,
                                          cur: seq<real>, nxt: seq<real>)
    requires Sized(p) && Holds(p, m, cur, nxt) && InSegment(p, k, w)
    ensures Effect(Documented, S, p, w).dst in m && forall s :: s in Effect(Documented, S, p, w).srcs ==> s in m
  {
    hide Points.Valid, Points.Volume, Points.AreasFit, Flat, BoxIndex;
    UpdatesInside(p, k, w);
    match w
    case PackItem(f, c) =>
      FlatRoundTrip(p, c);
      FacetBoxes(p, f, c);
      CopiesWithinBounds(p, f);
      BoxIndexRoundTrip(Shell(p, f), c);
    case CopyItem(f, j) =>
    case _ => StencilInRange(p, w.c);
  }

  lemma {:induction false} StencilInRange(p: Points, c: Coord)
    requires Inner(p, c)
    ensures 0 <= Flat(p, c) < p.Volume()
    ensures forall l :: l in StencilSources(p, c) ==> l.buffer == Cur && 0 <= l.i < p.Volume()
  {
    hide Flat, Points.Volume;
    FlatRoundTrip(p, c);
    FlatRoundTrip(p, c.(x := c.x - 1));
    FlatRoundTrip(p, c.(x := c.x + 1));
    FlatRoundTrip(p, c.(y := c.y - 1));
    FlatRoundTrip(p, c.(y := c.y + 1));
    FlatRoundTrip(p, c.(z := c.z - 1));
    FlatRoundTrip(p, c.(z := c.z + 1));
  }

  lemma {:induction false} ScheduleRunnable(S: Stencil, p: Points, k: nat, ws: seq<WorkItem>, m: map<Loc, real>,
                                            cur: seq<real>, nxt: seq<real>)
    requires Sized(p) && Holds(p, m, cur, nxt) && Schedule(p, k, ws)
    ensures Runnable(m, Items(S, p, ws))
  {
    forall i | 0 <= i < |ws|
      ensures Effect(Documented, S, p, ws[i]).dst in m
      ensures forall s :: s in Effect(Documented, S, p, ws[i]).srcs ==> s in m
    {
      EffectInMemory(S, p, k, ws[i], m, cur, nxt);
    }
  }

  /** What a work-item computes from the buffers of its segment's start. */
  ghost function Outcome(S: Stencil, p: Points, m: map<Loc, real>, w: WorkItem): real
    requires forall s :: s in Effect(Documented, S, p, w).srcs ==> s in m
  {
    Effect(Documented, S, p, w).op(Fetch(m, Effect(Documented, S, p, w).srcs))
  }

  /** After any schedule of a segment: each work-item's destination holds its outcome, everything
      else is as before. */
  lemma {:induction false} AnyOrder(S: Stencil, p: Points, k: nat, ws: seq<WorkItem>, m: map<Loc, real>,
                                    cur: seq<real>, nxt: seq<real>, l: Loc)
    requires Sized(p) && Holds(p, m, cur, nxt) && Schedule(p, k, ws) && l in m
    ensures Runnable(m, Items(S, p, ws))
    ensures forall w :: InSegment(p, k, w) && Effect(Documented, S, p, w).dst == l ==>
              (forall s :: s in Effect(Documented, S, p, w).srcs ==> s in m)
                && Run(m, Items(S, p, ws))[l] == Outcome(S, p, m, w)
    ensures (forall w :: InSegment(p, k, w) ==> Effect(Documented, S, p, w).dst != l) ==>
            Run(m, Items(S, p, ws))[l] == m[l]
  {
    hide Effect, InSegment, Points.Valid, Points.Volume, Points.AreasFit, Points.Exact, Holds;
    ScheduleRunnable(S, p, k, ws, m, cur, nxt);
    ScheduleRaceFree(S, p, k, ws);
    RunIsParallel(m, Items(S, p, ws), l);
    forall w | InSegment(p, k, w) && Effect(Documented, S, p, w).dst == l
      ensures (forall s :: s in Effect(Documented, S, p, w).srcs ==> s in m)
              && Run(m, Items(S, p, ws))[l] == Outcome(S, p, m, w)
    {
      var i :| 0 <= i < |ws| && ws[i] == w;
      assert Items(S, p, ws)[i] == Effect(Documented, S, p, w);
    }
  }

  lemma ReadsCur(p: Points, m: map<Loc, real>, cur: seq<real>, nxt: seq<real>, c: Coord)
    requires Holds(p, m, cur, nxt) && Padded(p, c)
    ensures Loc(Cur, Flat(p, c)) in m && |cur| == p.Volume() && m[Loc(Cur, Flat(p, c))] == Read(p, cur, c)
  {
    FlatRoundTrip(p, c);
  }

  lemma {:induction false} StencilOutcome(S: Stencil, p: Points, k: nat, w: WorkItem, m: map<Loc, real>,
                                          cur: seq<real>, nxt: seq<real>)
    requires Sized(p) && Holds(p, m, cur, nxt) && InSegment(p, k, w) && (w.UpdateItem? || w.InteriorItem?)
    ensures Inner(p, w.c)
    ensures forall s :: s in Effect(Documented, S, p, w).srcs ==> s in m
    ensures Outcome(S, p, m, w) == ApplyStencil(S, p, cur, w.c)
  {
    UpdatesInside(p, k, w);
    EffectInMemory(S, p, k, w, m, cur, nxt);
    hide Points.Valid, Points.Volume, Points.AreasFit, Flat, Read, Holds, InSegment, Sized;
    ReadsCur(p, m, cur, nxt, w.c);
    ReadsCur(p, m, cur, nxt, w.c.(x := w.c.x - 1));
    ReadsCur(p, m, cur, nxt, w.c.(x := w.c.x + 1));
    ReadsCur(p, m, cur, nxt, w.c.(y := w.c.y - 1));
    ReadsCur(p, m, cur, nxt, w.c.(y := w.c.y + 1));
    ReadsCur(p, m, cur, nxt, w.c.(z := w.c.z - 1));
    ReadsCur(p, m, cur, nxt, w.c.(z := w.c.z + 1));
  }

  /** The box whose points segment k writes in the new sub-domain. */
  function UpdateBox(p: Points, k: nat): Box
    requires k < 6 || k == 7
  {
    if k < 6 then Dedup(p, FacetOf(k)) else InteriorBox(p)
  }

  lemma {:induction false} SegmentUpdatesCell(S: Stencil, p: Points, k: nat, ws: seq<WorkItem>, m: map<Loc, real>,
                                              cur: seq<real>, nxt: seq<real>, i: nat)
    requires Sized(p) && Holds(p, m, cur, nxt) && Schedule(p, k, ws) && k <= 7 && i < p.Volume()
    ensures Runnable(m, Items(S, p, ws)) && WithinInner(p, if k == 6 then InteriorBox(p) else UpdateBox(p, k))
    ensures Run(m, Items(S, p, ws))[Loc(Nxt, i)]
         == if k == 6 then nxt[i] else UpdateKernel(S, p, cur, nxt, UpdateBox(p, k))[i]
  {
    hide Points.Valid, Points.Volume, Points.AreasFit, Flat, CellAt, BoxIndex, Run, ApplyStencil, Schedule, Holds,
         Box.Has, Outcome;
    UpdatesWithinInner(p);
    MemoryHasNxt(p, m, cur, nxt, i);
    AnyOrder(S, p, k, ws, m, cur, nxt, Loc(Nxt, i));
    CellRoundTrip(p, i);
    var c := CellAt(p, i);
    if k != 6 && UpdateBox(p, k).Has(c) {
      var w := if k < 6 then UpdateItem(FacetOf(k), c) else InteriorItem(c);
      assert InSegment(p, k, w);
      StencilOutcome(S, p, k, w, m, cur, nxt);
    } else {
      forall w | InSegment(p, k, w)
        ensures Effect(Documented, S, p, w).dst != Loc(Nxt, i)
      {
        UpdatesInside(p, k, w);
        if (w.UpdateItem? || w.InteriorItem?) && Flat(p, w.c) == i {
          FlatRoundTrip(p, w.c);
        }
      }
    }
  }

  lemma MemoryHasNxt(p: Points, m: map<Loc, real>, cur: seq<real>, nxt: seq<real>, i: nat)
    requires Holds(p, m, cur, nxt) && i < p.Volume()
    ensures Loc(Nxt, i) in m && Loc(Cur, i) in m && m[Loc(Nxt, i)] == nxt[i] && |cur| == p.Volume()
            && |nxt| == p.Volume()
  {
  }

  /** Segment k packs facet k - 1 and leaves the other send buffers alone. */
  lemma {:induction false} SegmentPacksCell(S: Stencil, p: Points, k: nat, ws: seq<WorkItem>, m: map<Loc, real>,
                                            cur: seq<real>, nxt: seq<real>, f: Facet, j: nat)
    requires Sized(p) && Holds(p, m, cur, nxt) && Schedule(p, k, ws) && k <= 7 && j < BufferLen(p, f)
    ensures Runnable(m, Items(S, p, ws)) && WithinInner(p, Shell(p, f)) && Shell(p, f).Size() == BufferLen(p, f)
    ensures Loc(Send(f), j) in m
    ensures Run(m, Items(S, p, ws))[Loc(Send(f), j)]
         == if Code(f) + 1 == k then PackKernel(Documented, p, nxt, Shell(p, f))[j] else m[Loc(Send(f), j)]
  {
    hide Points.Valid, Points.Volume, Points.AreasFit, Flat, BoxIndex, BoxCell, Run, Schedule, Box.Has, MakeFacetInfo,
         ShellOf;
    var l := Loc(Send(f), j);
    CopiesWithinBounds(p, f);
    AnyOrder(S, p, k, ws, m, cur, nxt, l);
    if Code(f) + 1 == k {
      BoxCellRoundTrip(Shell(p, f), j);
      var c := BoxCell(Shell(p, f), j);
      FacetBoxes(p, f, c);
      FlatRoundTripInner(p, c);
      var w := PackItem(f, c);
      assert InSegment(p, k, w) && Effect(Documented, S, p, w).dst == l;
      assert Outcome(S, p, m, w) == m[Loc(Nxt, Flat(p, c))];
      PackKernelAt(Documented, p, nxt, Shell(p, f), c);
    }
  }

  lemma FlatRoundTripInner(p: Points, c: Coord)
    requires Inner(p, c)
    ensures 0 <= Flat(p, c) < p.Volume() && Padded(p, c)
  {
    FlatRoundTrip(p, c);
  }

  /** Segment 7 copies every send buffer to the neighbour across its facet. */
  lemma {:induction false} SegmentSendsCell(S: Stencil, p: Points, ws: seq<WorkItem>, m: map<Loc, real>,
                                            cur: seq<real>, nxt: seq<real>, f: Facet, j: nat)
    requires Sized(p) && Holds(p, m, cur, nxt) && Schedule(p, 7, ws) && j < BufferLen(p, f)
    ensures Runnable(m, Items(S, p, ws)) && Loc(Send(f), j) in m && Loc(PeerRecv(f), j) in m
    ensures Run(m, Items(S, p, ws))[Loc(PeerRecv(f), j)] == m[Loc(Send(f), j)]
  {
    hide Points.Valid, Points.Volume, Points.AreasFit, Flat, BoxIndex, Run, Schedule, Box.Has, MakeFacetInfo;
    AnyOrder(S, p, 7, ws, m, cur, nxt, Loc(PeerRecv(f), j));
    var w := CopyItem(f, j);
    assert InSegment(p, 7, w);
    assert Outcome(S, p, m, w) == m[Loc(Send(f), j)];
  }

  /** No segment writes the old sub-domain. */
  lemma {:induction false} SegmentKeepsCur(S: Stencil, p: Points, k: nat, ws: seq<WorkItem>, m: map<Loc, real>,
                                           cur: seq<real>, nxt: seq<real>, i: nat)
    requires Sized(p) && Holds(p, m, cur, nxt) && Schedule(p, k, ws) && i < p.Volume()
    ensures Runnable(m, Items(S, p, ws))
    ensures Loc(Cur, i) in m && Run(m, Items(S, p, ws))[Loc(Cur, i)] == cur[i]
  {
    AnyOrder(S, p, k, ws, m, cur, nxt, Loc(Cur, i));
  }

  // ----- a whole timestep

  function Min6(k: nat): nat { if k < 6 then k else 6 }

  /** The contents of the new sub-domain when segment k starts. */
  ghost function NxtBefore(S: Stencil, p: Points, cur: seq<real>, nxt: seq<real>, k: nat): (r: seq<real>)
    requires Buffers(p, cur, nxt) && k <= 8
    ensures |r| == p.Volume()
  {
    if k == 8 then Computed(S, p, cur, nxt) else UpdateFacets(S, p, cur, nxt, Min6(k))
  }

  /** Memory when segment k starts: both sub-domains and the send buffers packed so far; at the end
      (k = 8) also the neighbours' receive buffers. */
  ghost predicate Reached(S: Stencil, p: Points, cur: seq<real>, nxt: seq<real>, m: map<Loc, real>, k: nat)
    requires Buffers(p, cur, nxt) && k <= 8
  {
    && Holds(p, m, cur, NxtBefore(S, p, cur, nxt, k))
    && (forall f :: Code(f) + 1 < k ==> HoldsBuffer(m, Send(f), SendBuffer(Documented, S, p, cur, nxt, f)))
    && (k == 8 ==> forall f :: HoldsBuffer(m, PeerRecv(f), SendBuffer(Documented, S, p, cur, nxt, f)))
  }

  lemma {:induction false} SegmentReached(S: Stencil, p: Points, cur: seq<real>, nxt: seq<real>, m: map<Loc, real>,
                                          k: nat, ws: seq<WorkItem>)
    requires Buffers(p, cur, nxt) && k <= 7 && Reached(S, p, cur, nxt, m, k) && Schedule(p, k, ws)
    ensures Runnable(m, Items(S, p, ws))
    ensures Reached(S, p, cur, nxt, Run(m, Items(S, p, ws)), k + 1)
  {
    hide Points.Valid, Points.Volume, Points.AreasFit, Points.Countable, Points.Exact, Run, Schedule, MakeFacetInfo,
         UpdateKernel, PackKernel;
    var before := NxtBefore(S, p, cur, nxt, k);
    ScheduleRunnable(S, p, k, ws, m, cur, before);
    var m' := Run(m, Items(S, p, ws));
    UpdatesWithinInner(p);
    forall i | 0 <= i < p.Volume()
      ensures m'[Loc(Cur, i)] == cur[i] && m'[Loc(Nxt, i)] == NxtBefore(S, p, cur, nxt, k + 1)[i]
    {
      SegmentKeepsCur(S, p, k, ws, m, cur, before, i);
      SegmentUpdatesCell(S, p, k, ws, m, cur, before, i);
    }
    forall f | Code(f) < k
      ensures HoldsBuffer(m', Send(f), SendBuffer(Documented, S, p, cur, nxt, f))
    {
      forall j | 0 <= j < BufferLen(p, f)
        ensures m'[Loc(Send(f), j)] == SendBuffer(Documented, S, p, cur, nxt, f)[j]
      {
        SegmentPacksCell(S, p, k, ws, m, cur, before, f, j);
      }
    }
    if k == 7 {
      forall f, j | 0 <= j < BufferLen(p, f)
        ensures m'[Loc(PeerRecv(f), j)] == SendBuffer(Documented, S, p, cur, nxt, f)[j]
      {
        SegmentSendsCell(S, p, ws, m, cur, before, f, j);
      }
    }
  }

  /** The memory after one schedule per segment, for the segments from k on. */
  ghost predicate Execution(S: Stencil, p: Points, ms: seq<map<Loc, real>>, schedules: seq<seq<WorkItem>>) {
    && |schedules| == 8 && |ms| == 9
    && forall k :: 0 <= k < 8 ==>
         Schedule(p, k, schedules[k]) && Runnable(ms[k], Items(S, p, schedules[k]))
           && ms[k + 1] == Run(ms[k], Items(S, p, schedules[k]))
  }

  /** Every order of the work-items of a timestep that respects the command-list barriers ends with
      the same buffers: those of the program-order functions Computed and SendBuffer. */
  lemma {:induction false} TimestepAnyOrder(S: Stencil, p: Points, cur: seq<real>, nxt: seq<real>,
                                            ms: seq<map<Loc, real>>, schedules: seq<seq<WorkItem>>, k: nat)
    requires Buffers(p, cur, nxt) && Execution(S, p, ms, schedules) && Holds(p, ms[0], cur, nxt) && k <= 8
    ensures Reached(S, p, cur, nxt, ms[k], k)
  {
    if k > 0 {
      TimestepAnyOrder(S, p, cur, nxt, ms, schedules, k - 1);
      SegmentReached(S, p, cur, nxt, ms[k - 1], k - 1, schedules[k - 1]);
    }
  }

  /** At the host synchronisation. */
  lemma {:induction false} HostSyncState(S: Stencil, p: Points, cur: seq<real>, nxt: seq<real>,
                                         ms: seq<map<Loc, real>>, schedules: seq<seq<WorkItem>>)
    requires Buffers(p, cur, nxt) && Execution(S, p, ms, schedules) && Holds(p, ms[0], cur, nxt)
    ensures Holds(p, ms[8], cur, Computed(S, p, cur, nxt))
    ensures forall f :: HoldsBuffer(ms[8], PeerRecv(f), SendBuffer(Documented, S, p, cur, nxt, f))
  {
    TimestepAnyOrder(S, p, cur, nxt, ms, schedules, 8);
  }
}
