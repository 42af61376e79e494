/** All ranks running concurrently: the timestep loop of every worker, the event barrier between
    the workers and their master, and halo buffers written and read cell by cell. */
module HeatAsync {
  import opened LinearIndex
  import opened HeatGeometry
  import opened HeatKernels
  import opened HeatStep
  import opened HeatRefinement

  /** Cell j of a facet buffer. */
  datatype Place = Place(f: Facet, j: nat)

  /** Place pl of rank r's receive buffers. */
  datatype Slot = Slot(r: nat, pl: Place)

  /** A received value and the number of sends its cell has seen. */
  datatype Cell = Cell(value: real, sends: nat)

  datatype Pc =
    | Early(updated: bool)     // barrier passed, buffers swapped; unpacking may still be running
    | Exchanging(interior: bool)
    | Signalled                // host synchronised, waiting for the barrier

  datatype Rank = Rank(step: nat, pc: Pc, cur: seq<real>, nxt: seq<real>, send: seq<seq<real>>,
                       sent: set<Place>, unpacked: set<Place>)

  /** The master first collects the ranks' events in order, then releases them in order. */
  datatype Master = Collect(i: nat) | Release(i: nat)

  /** up[r] and down[r] are the two barrier events of rank r; round counts completed barriers. */
  datatype State = State(ranks: seq<Rank>, slots: map<Slot, Cell>, up: seq<bool>, down: seq<bool>,
                         master: Master, round: nat)

  /** Everything that stays fixed during a run. `own` and `peer` are two orders the program does not
      enforce: with `own` a rank starts a timestep only after its own unpacking is done, with `peer` it
      overwrites a receive cell only after the receiver has unpacked everything sent to it so far. */
  datatype Setup = Setup(own: bool, peer: bool, m: PackMode, S: Stencil, g: Grid, p: Points, start: seq<RankMem>) {
    ghost predicate Valid() {
      ValidSystem(g, p, start)
    }
  }

  ghost predicate IsPlace(p: Points, pl: Place) {
    pl.j < BufferLen(p, pl.f)
  }

  ghost function AllPlaces(p: Points): set<Place> {
    set f: Facet, j: nat | 0 <= j < BufferLen(p, f) :: Place(f, j)
  }

  /** The receive cell written from place pl of rank r, and back. */
  ghost function Target(c: Setup, r: nat, pl: Place): Slot
    requires c.Valid() && r < c.g.Ranks()
  {
    Slot(Neighbour(c.g, r, pl.f), Place(ReverseFacet(pl.f), pl.j))
  }

  /** The element of the padded sub-domain that place pl is unpacked to. */
  ghost function GhostIndex(p: Points, pl: Place): nat
    requires p.Valid() && IsPlace(p, pl)
    ensures GhostIndex(p, pl) < p.Volume()
  {
    CopiesWithinBounds(p, pl.f);
    BoxCellRoundTrip(Halo(p, pl.f), pl.j);
    FlatRoundTrip(p, BoxCell(Halo(p, pl.f), pl.j));
    Flat(p, BoxCell(Halo(p, pl.f), pl.j))
  }

  ghost predicate WellFormed(c: Setup, s: State) {
    && c.Valid()
    && |s.ranks| == |s.up| == |s.down| == |c.start| == c.g.Ranks()
    && s.master.i < |s.ranks|
    && (forall r :: 0 <= r < |s.ranks| ==>
          && |s.ranks[r].cur| == c.p.Volume() && |s.ranks[r].nxt| == c.p.Volume()
          && RecvBuffers(c.p, s.ranks[r].send))
    && (forall r, pl :: 0 <= r < |s.ranks| && IsPlace(c.p, pl) ==> Slot(r, pl) in s.slots)
  }

  // ----- transitions

  ghost predicate SetRank(s: State, s': State, r: nat, k: Rank)
    requires r < |s.ranks|
  {
    s' == s.(ranks := s.ranks[r := k])
  }

  /** Facet updates 1 .. k - 1 on top of an already updated facet 0. */
  ghost function LaterFacets(S: Stencil, p: Points, cur: seq<real>, nxt: seq<real>, k: nat): (r: seq<real>)
    requires Buffers(p, cur, nxt) && 1 <= k <= 6
    ensures |r| == p.Volume()
  {
    if k == 1 then nxt else
      UpdatesWithinInner(p);
      UpdateKernel(S, p, cur, LaterFacets(S, p, cur, nxt, k - 1), Dedup(p, FacetOf(k - 1)))
  }

  ghost function LaterSend(m: PackMode, S: Stencil, p: Points, cur: seq<real>, nxt: seq<real>, f: Facet): (r: seq<real>)
    requires Buffers(p, cur, nxt)
    ensures |r| == BufferLen(p, f)
  {
    CopiesWithinBounds(p, f);
    PackKernel(m, p, LaterFacets(S, p, cur, nxt, Code(f) + 1), Shell(p, f))
  }

  /** updateFacet(XU): nothing orders it after the unpacking appended just before it. */
  ghost predicate UpdateFirst(c: Setup, s: State, s': State, r: nat)
    requires WellFormed(c, s) && r < |s.ranks|
  {
    var k := s.ranks[r];
    && k.pc == Early(false)
    && (c.own ==> k.unpacked == AllPlaces(c.p))
    && SetRank(s, s', r, k.(pc := Early(true), nxt := UpdateFacets(c.S, c.p, k.cur, k.nxt, 1)))
  }

  /** The other facet updates and the packs; the first command-list barrier waits for the unpacking. */
  ghost predicate UpdateRest(c: Setup, s: State, s': State, r: nat)
    requires WellFormed(c, s) && r < |s.ranks|
  {
    var k := s.ranks[r];
    && k.pc == Early(true) && k.unpacked == AllPlaces(c.p)
    && SetRank(s, s', r, k.(pc := Exchanging(false), nxt := LaterFacets(c.S, c.p, k.cur, k.nxt, 6),
                            send := seq(6, i requires 0 <= i < 6 =>
                                        LaterSend(c.m, c.S, c.p, k.cur, k.nxt, FacetOf(i)))))
  }

  ghost predicate SendCell(c: Setup, s: State, s': State, r: nat, pl: Place)
    requires WellFormed(c, s) && r < |s.ranks|
  {
    var k, to := s.ranks[r], Target(c, r, pl);
    && k.pc.Exchanging? && IsPlace(c.p, pl) && pl !in k.sent && to in s.slots
    && (c.peer ==> to.pl in s.ranks[to.r].unpacked && s.slots[to].sends == s.ranks[to.r].step)
    && s' == s.(ranks := s.ranks[r := k.(sent := k.sent + {pl})],
                slots := s.slots[to := Cell(k.send[Code(pl.f)][pl.j], k.step + 1)])
  }

  ghost predicate UpdateInside(c: Setup, s: State, s': State, r: nat)
    requires WellFormed(c, s) && r < |s.ranks|
  {
    UpdatesWithinInner(c.p);
    var k := s.ranks[r];
    && k.pc == Exchanging(false)
    && SetRank(s, s', r, k.(pc := Exchanging(true), nxt := UpdateKernel(c.S, c.p, k.cur, k.nxt, InteriorBox(c.p))))
  }

  /** Host synchronisation of a finished command list, then signalling the master. */
  ghost predicate Signal(c: Setup, s: State, s': State, r: nat)
    requires WellFormed(c, s) && r < |s.ranks|
  {
    var k := s.ranks[r];
    && k.pc == Exchanging(true) && k.sent == AllPlaces(c.p)
    && s' == s.(ranks := s.ranks[r := k.(pc := Signalled)], up := s.up[r := true])
  }

  /** The barrier returns: reset the event, append the unpacking, swap the buffers. */
  ghost predicate Wake(c: Setup, s: State, s': State, r: nat)
    requires WellFormed(c, s) && r < |s.ranks|
  {
    var k := s.ranks[r];
    && k.pc == Signalled && s.down[r]
    && s' == s.(ranks := s.ranks[r := Rank(k.step + 1, Early(false), k.nxt, k.cur, k.send, {}, {})],
                down := s.down[r := false])
  }

  ghost predicate UnpackCell(c: Setup, s: State, s': State, r: nat, pl: Place)
    requires WellFormed(c, s) && r < |s.ranks|
  {
    var k := s.ranks[r];
    && k.pc.Early? && IsPlace(c.p, pl) && pl !in k.unpacked
    && SetRank(s, s', r, k.(unpacked := k.unpacked + {pl},
                            cur := k.cur[GhostIndex(c.p, pl) := s.slots[Slot(r, pl)].value]))
  }

  ghost predicate MasterStep(c: Setup, s: State, s': State)
    requires WellFormed(c, s)
  {
    var i, last := s.master.i, s.master.i + 1 == |s.ranks|;
    if s.master.Collect? then
      s.up[i] && s' == s.(up := s.up[i := false], master := if last then Release(0) else Collect(i + 1))
    else
      s' == s.(down := s.down[i := true], master := if last then Collect(0) else Release(i + 1),
               round := if last then s.round + 1 else s.round)
  }

  ghost predicate RankStep(c: Setup, s: State, s': State, r: nat)
    requires WellFormed(c, s) && r < |s.ranks|
  {
    || UpdateFirst(c, s, s', r) || UpdateRest(c, s, s', r) || UpdateInside(c, s, s', r)
    || Signal(c, s, s', r) || Wake(c, s, s', r)
    || (exists pl :: SendCell(c, s, s', r, pl)) || (exists pl :: UnpackCell(c, s, s', r, pl))
  }

  ghost predicate Step(c: Setup, s: State, s': State)
    requires WellFormed(c, s)
  {
    MasterStep(c, s, s') || exists r :: 0 <= r < |s.ranks| && RankStep(c, s, s', r)
  }

  /** The state after the initial exchange, when the parent's synchronisation has released everyone. */
  ghost predicate Init(c: Setup, s: State) {
    && WellFormed(c, s)
    && s.master == Collect(0) && s.round == 0
    && (forall r :: 0 <= r < |s.ranks| ==>
          && !s.up[r] && !s.down[r]
          && s.ranks[r].step == 0 && s.ranks[r].pc == Early(false)
          && s.ranks[r].sent == {} && s.ranks[r].unpacked == AllPlaces(c.p)
          && s.ranks[r].cur == SyncInit(c.m, c.g, c.p, c.start)[r].cur
          && s.ranks[r].nxt == SyncInit(c.m, c.g, c.p, c.start)[r].nxt)
    && (forall r, pl :: 0 <= r < |s.ranks| && IsPlace(c.p, pl) ==> s.slots[Slot(r, pl)].sends == 0)
  }

  // ----- the barrier

  /** Barriers rank r has been released from. */
  ghost function Released(s: State, r: nat): nat
    requires r < |s.ranks| == |s.down|
  {
    s.ranks[r].step + (if s.down[r] then 1 else 0)
  }

  /** The master has taken rank r's event and not yet released it. */
  ghost predicate Held(s: State, r: nat)
    requires r < |s.ranks| == |s.down| == |s.up|
  {
    s.ranks[r].pc == Signalled && s.ranks[r].step == s.round && !s.down[r] && !s.up[r]
  }

  ghost predicate BarrierInv(s: State)
    requires |s.ranks| == |s.down| == |s.up|
  {
    forall r :: 0 <= r < |s.ranks| ==>
      && (s.down[r] ==> s.ranks[r].pc == Signalled)
      && match s.master
         case Collect(i) =>
           if r < i then Held(s, r)
           else Released(s, r) == s.round && (s.up[r] <==> s.ranks[r].pc == Signalled && !s.down[r])
         case Release(i) =>
           if r < i then Released(s, r) == s.round + 1 && (s.up[r] <==> s.ranks[r].pc == Signalled && !s.down[r])
           else Held(s, r)
  }

  /** What each program point guarantees about the cells sent and unpacked. */
  ghost predicate PlacesInv(c: Setup, s: State)
    requires WellFormed(c, s)
  {
    forall r :: 0 <= r < |s.ranks| ==>
      var k := s.ranks[r];
      && k.sent <= AllPlaces(c.p) && k.unpacked <= AllPlaces(c.p)
      && (k.pc.Early? ==> k.sent == {})
      && (!k.pc.Early? || k.step == 0 ==> k.unpacked == AllPlaces(c.p))
      && (k.pc == Signalled ==> k.sent == AllPlaces(c.p))
  }

  /** Rank w, through place pl, is the only writer of its target; its progress counts the sends. */
  ghost predicate SendsInv(c: Setup, s: State)
    requires WellFormed(c, s)
  {
    forall w, pl :: 0 <= w < |s.ranks| && IsPlace(c.p, pl) ==>
      && Target(c, w, pl) in s.slots
      && s.slots[Target(c, w, pl)].sends == s.ranks[w].step + (if pl in s.ranks[w].sent then 1 else 0)
  }

  /** With the order between peers no cell is overwritten before it is unpacked. */
  ghost predicate PeerInv(c: Setup, s: State)
    requires WellFormed(c, s)
  {
    forall r, pl :: 0 <= r < |s.ranks| && IsPlace(c.p, pl) ==>
      var sends := s.slots[Slot(r, pl)].sends;
      && sends <= s.ranks[r].step + 1
      && (sends == s.ranks[r].step + 1 ==> pl in s.ranks[r].unpacked)
  }

  ghost predicate Inv(c: Setup, s: State) {
    WellFormed(c, s) && BarrierInv(s) && PlacesInv(c, s) && SendsInv(c, s) && (c.peer ==> PeerInv(c, s))
  }

  lemma TargetFacts(c: Setup, r: nat, pl: Place)
    requires c.Valid() && r < c.g.Ranks() && IsPlace(c.p, pl)
    ensures var to := Target(c, r, pl);
            to.r < c.g.Ranks() && IsPlace(c.p, to.pl) && Target(c, to.r, to.pl) == Slot(r, pl)
  {
    MatchingLengths(c.p, pl.f);
    NeighbourSymmetry(c.g, r, pl.f);
    ReverseIsInvolution(pl.f);
  }

  lemma TargetInjective(c: Setup, r: nat, pl: Place, r': nat, pl': Place)
    requires c.Valid() && r < c.g.Ranks() && r' < c.g.Ranks() && IsPlace(c.p, pl) && IsPlace(c.p, pl')
    requires Target(c, r, pl) == Target(c, r', pl')
    ensures r == r' && pl == pl'
  {
    TargetFacts(c, r, pl);
    TargetFacts(c, r', pl');
  }

  lemma InitInv(c: Setup, s: State)
    requires Init(c, s)
    ensures Inv(c, s)
  {
    forall w, pl | 0 <= w < |s.ranks| && IsPlace(c.p, pl)
      ensures Target(c, w, pl) in s.slots && s.slots[Target(c, w, pl)].sends == 0
    {
      TargetFacts(c, w, pl);
    }
  }

  lemma {:induction false} MasterKeepsInv(c: Setup, s: State, s': State)
    requires Inv(c, s) && MasterStep(c, s, s')
    ensures Inv(c, s')
  {
    hide Target, AllPlaces, IsPlace, Setup.Valid, RecvBuffers, Points.Volume, Grid.Ranks;
  }

  /** A transition of rank r that touches neither events nor receive buffers. */
  lemma {:induction false} LocalKeepsInv(c: Setup, s: State, s': State, r: nat, k: Rank)
    requires Inv(c, s) && r < |s.ranks| && SetRank(s, s', r, k)
    requires s.ranks[r].pc != Signalled && k.pc != Signalled
    requires k.step == s.ranks[r].step && k.sent == s.ranks[r].sent
             && s.ranks[r].unpacked <= k.unpacked <= AllPlaces(c.p)
    requires |k.cur| == c.p.Volume() && |k.nxt| == c.p.Volume() && RecvBuffers(c.p, k.send)
    requires k.pc.Early? ==> s.ranks[r].pc.Early?
    requires !k.pc.Early? ==> k.unpacked == AllPlaces(c.p)
    ensures Inv(c, s')
  {
    hide Target, AllPlaces, IsPlace, Setup.Valid, RecvBuffers, Points.Volume, Grid.Ranks;
  }

  lemma {:induction false} SignalKeepsInv(c: Setup, s: State, s': State, r: nat)
    requires Inv(c, s) && r < |s.ranks| && Signal(c, s, s', r)
    ensures Inv(c, s')
  {
    hide Target, AllPlaces, IsPlace, Setup.Valid, RecvBuffers, Points.Volume, Grid.Ranks;
  }

  lemma {:induction false} WakeKeepsInv(c: Setup, s: State, s': State, r: nat)
    requires Inv(c, s) && r < |s.ranks| && Wake(c, s, s', r)
    ensures Inv(c, s')
  {
    hide Target, IsPlace, Setup.Valid, RecvBuffers, Points.Volume, Grid.Ranks;
    forall w, pl | 0 <= w < |s.ranks| && IsPlace(c.p, pl)
      ensures Target(c, w, pl) in s'.slots
      ensures s'.slots[Target(c, w, pl)].sends == s'.ranks[w].step + (if pl in s'.ranks[w].sent then 1 else 0)
    {
      PlaceInAll(c.p, pl);
    }
  }

  lemma PlaceInAll(p: Points, pl: Place)
    requires IsPlace(p, pl)
    ensures pl in AllPlaces(p)
  {
  }

  lemma {:induction false} SendKeepsInv(c: Setup, s: State, s': State, r: nat, pl: Place)
    requires Inv(c, s) && r < |s.ranks| && SendCell(c, s, s', r, pl)
    ensures Inv(c, s')
  {
    hide Target, Setup.Valid, RecvBuffers, Points.Volume, Grid.Ranks, BufferLen;
    TargetFacts(c, r, pl);
    PlaceInAll(c.p, pl);
    forall w, q | 0 <= w < |s.ranks| && IsPlace(c.p, q)
      ensures Target(c, w, q) in s'.slots
      ensures s'.slots[Target(c, w, q)].sends == s'.ranks[w].step + (if q in s'.ranks[w].sent then 1 else 0)
    {
      if Target(c, w, q) == Target(c, r, pl) {
        TargetInjective(c, w, q, r, pl);
      }
    }
  }

  lemma {:induction false} UpdateKeepsInv(c: Setup, s: State, s': State, r: nat)
    requires Inv(c, s) && r < |s.ranks|
    requires UpdateFirst(c, s, s', r) || UpdateRest(c, s, s', r) || UpdateInside(c, s, s', r)
    ensures Inv(c, s')
  {
    hide AllPlaces, IsPlace, Setup.Valid, Points.Volume, Grid.Ranks, Inv, UpdateFacets, LaterFacets, LaterSend,
         UpdateKernel, BufferLen;
    InvFacts(c, s);
    LocalKeepsInv(c, s, s', r, s'.ranks[r]);
  }

  lemma {:induction false} UnpackKeepsInv(c: Setup, s: State, s': State, r: nat, pl: Place)
    requires Inv(c, s) && r < |s.ranks| && UnpackCell(c, s, s', r, pl)
    ensures Inv(c, s')
  {
    hide AllPlaces, Setup.Valid, Points.Volume, Grid.Ranks, Inv, BufferLen, GhostIndex, RecvBuffers;
    InvFacts(c, s);
    PlaceInAll(c.p, pl);
    LocalKeepsInv(c, s, s', r, s'.ranks[r]);
  }

  lemma {:induction false} StepKeepsInv(c: Setup, s: State, s': State)
    requires Inv(c, s) && Step(c, s, s')
    ensures Inv(c, s')
  {
    hide Inv, WellFormed, UpdateFirst, UpdateRest, UpdateInside, Signal, Wake, SendCell, UnpackCell, MasterStep,
         PeerInv, SendsInv, PlacesInv, BarrierInv;
    InvFacts(c, s);
    if MasterStep(c, s, s') {
      MasterKeepsInv(c, s, s');
    } else {
      var r :| 0 <= r < |s.ranks| && RankStep(c, s, s', r);
      if {
        case UpdateFirst(c, s, s', r) || UpdateRest(c, s, s', r) || UpdateInside(c, s, s', r) =>
          UpdateKeepsInv(c, s, s', r);
        case Signal(c, s, s', r) => SignalKeepsInv(c, s, s', r);
        case Wake(c, s, s', r) => WakeKeepsInv(c, s, s', r);
        case exists pl :: SendCell(c, s, s', r, pl) =>
          var pl :| SendCell(c, s, s', r, pl);
          SendKeepsInv(c, s, s', r, pl);
        case exists pl :: UnpackCell(c, s, s', r, pl) =>
          var pl :| UnpackCell(c, s, s', r, pl);
          UnpackKeepsInv(c, s, s', r, pl);
      }
    }
  }

  lemma InvFacts(c: Setup, s: State)
    requires Inv(c, s)
    ensures WellFormed(c, s) && BarrierInv(s) && PlacesInv(c, s) && SendsInv(c, s) && (c.peer ==> PeerInv(c, s))
  {
  }

  // ----- runs

  /** A run: consecutive states related by one transition of one rank or of the master. */
  ghost predicate IsRun(c: Setup, ss: seq<State>) {
    && |ss| > 0 && Init(c, ss[0])
    && forall i :: 0 <= i < |ss| - 1 ==> WellFormed(c, ss[i]) && Step(c, ss[i], ss[i + 1])
  }

  lemma {:induction false} RunInv(c: Setup, ss: seq<State>, i: nat)
    requires IsRun(c, ss) && i < |ss|
    ensures Inv(c, ss[i])
  {
    hide Inv, Init, Step, WellFormed;
    if i == 0 {
      InitInv(c, ss[0]);
    } else {
      RunInv(c, ss, i - 1);
      StepKeepsInv(c, ss[i - 1], ss[i]);
    }
  }

  /** A rank that is past its barrier and not yet at the next one is at most one step from any other
      rank, and a rank one step behind is still inside the barrier. */
  lemma BarrierBounds(c: Setup, s: State, r: nat, w: nat)
    requires Inv(c, s) && r < |s.ranks| && w < |s.ranks|
    ensures s.ranks[r].step <= s.ranks[w].step + 1
    ensures s.ranks[r].pc != Signalled && s.ranks[w].step < s.ranks[r].step ==> s.ranks[w].pc == Signalled
    ensures s.ranks[r].pc != Signalled ==> s.ranks[w].step <= s.ranks[r].step
  {
  }

  /** In every state of every run the step counters of any two ranks differ by at most one. */
  lemma {:induction false} CountersWithinOne(c: Setup, ss: seq<State>, i: nat, r: nat, w: nat)
    requires IsRun(c, ss) && i < |ss| && r < |ss[i].ranks| && w < |ss[i].ranks|
    ensures -1 <= ss[i].ranks[r].step - ss[i].ranks[w].step <= 1
  {
    hide IsRun, Inv;
    RunInv(c, ss, i);
    BarrierBounds(c, ss[i], r, w);
    BarrierBounds(c, ss[i], w, r);
  }

  /** Asynchronous safety, for every interleaving: a cell unpacked in step t (counting from the first
      unpacking as 1) holds what its sender sent for step t or for step t + 1; for step t exactly if
      the peers are ordered or the rank is its own neighbour there. */
  lemma {:induction false} AsyncSafety(c: Setup, ss: seq<State>, i: nat, r: nat, pl: Place)
    requires IsRun(c, ss) && i < |ss| && WellFormed(c, ss[i]) && r < |ss[i].ranks|
    requires ss[i].ranks[r].pc.Early? && IsPlace(c.p, pl) && pl !in ss[i].ranks[r].unpacked
    ensures ss[i].slots[Slot(r, pl)].sends - ss[i].ranks[r].step in {0, 1}
    ensures c.peer || Neighbour(c.g, r, pl.f) == r ==> ss[i].slots[Slot(r, pl)].sends == ss[i].ranks[r].step
  {
    hide IsRun, Inv;
    RunInv(c, ss, i);
    SendsOfOutstanding(c, ss[i], r, pl);
  }

  lemma {:induction false} SendsOfOutstanding(c: Setup, s: State, r: nat, pl: Place)
    requires Inv(c, s) && r < |s.ranks| && s.ranks[r].pc.Early? && IsPlace(c.p, pl) && pl !in s.ranks[r].unpacked
    ensures s.ranks[r].step > 0 && s.slots[Slot(r, pl)].sends - s.ranks[r].step in {0, 1}
    ensures c.peer || Neighbour(c.g, r, pl.f) == r ==> s.slots[Slot(r, pl)].sends == s.ranks[r].step
  {
    hide Inv, Neighbour, AllPlaces, Points.Volume, Grid.Ranks, BufferLen;
    InvFacts(c, s);
    TargetFacts(c, r, pl);
    var from := Target(c, r, pl);
    BarrierBounds(c, s, r, from.r);
    PlaceInAll(c.p, from.pl);
    PlaceInAll(c.p, pl);
  }

  // ----- data

  ghost function Mem(c: Setup, t: nat, r: nat): (k: RankMem)
    requires c.Valid() && r < c.g.Ranks()
    ensures Buffers(c.p, k.cur, k.nxt)
  {
    SyncRun(c.m, c.S, c.g, c.p, c.start, t)[r]
  }

  /** What the bulk-synchronous run delivers to place pl of rank r in step t. */
  ghost function Delivered(c: Setup, t: nat, r: nat, pl: Place): real
    requires c.Valid() && r < c.g.Ranks() && IsPlace(c.p, pl)
  {
    ReceivedFacet(c.m, c.S, c.g, c.p, SyncRun(c.m, c.S, c.g, c.p, c.start, t), r, pl.f)[pl.j]
  }

  /** The orders that keep every run on the bulk-synchronous data: a rank's own, and the one between
      peers unless what travels between different ranks never changes. */
  ghost predicate Orderly(c: Setup)
    requires c.Valid()
  {
    && c.own
    && (c.peer || forall t: nat, r: nat, pl | r < c.g.Ranks() && IsPlace(c.p, pl) && Neighbour(c.g, r, pl.f) != r ::
          Delivered(c, t + 1, r, pl) == Delivered(c, t, r, pl))
  }

  /** Element i of the current sub-domain is a ghost cell whose unpacking is outstanding. */
  ghost predicate Pending(p: Points, k: Rank, i: nat)
    requires p.Valid()
  {
    exists pl :: IsPlace(p, pl) && pl !in k.unpacked && GhostIndex(p, pl) == i
  }

  /** A rank in step t holds the bulk-synchronous contents of step t, as far as it has got. */
  ghost predicate RankData(c: Setup, k: Rank, r: nat)
    requires c.Valid() && r < c.g.Ranks() && |k.cur| == c.p.Volume() && RecvBuffers(c.p, k.send)
  {
    var mem := Mem(c, k.step, r);
    match k.pc
    case Early(updated) =>
      && (forall i :: 0 <= i < c.p.Volume() && !Pending(c.p, k, i) ==> k.cur[i] == mem.cur[i])
      && (updated ==> k.unpacked == AllPlaces(c.p))
      && k.nxt == UpdateFacets(c.S, c.p, mem.cur, mem.nxt, if updated then 1 else 0)
    case Exchanging(interior) =>
      && k.cur == mem.cur
      && k.nxt == (if interior then Computed(c.S, c.p, mem.cur, mem.nxt)
                   else UpdateFacets(c.S, c.p, mem.cur, mem.nxt, 6))
      && forall f :: k.send[Code(f)] == SendBuffer(c.m, c.S, c.p, mem.cur, mem.nxt, f)
    case Signalled =>
      k.cur == mem.cur && k.nxt == Computed(c.S, c.p, mem.cur, mem.nxt)
  }

  /** A receive cell holds what its sender packed in the step of its last send. */
  ghost predicate SlotData(c: Setup, cell: Cell, r: nat, pl: Place)
    requires c.Valid() && r < c.g.Ranks() && IsPlace(c.p, pl)
  {
    cell.sends > 0 ==> cell.value == Delivered(c, cell.sends - 1, r, pl)
  }

  ghost predicate DataInv(c: Setup, s: State)
    requires WellFormed(c, s)
  {
    && (forall r :: 0 <= r < |s.ranks| ==> RankData(c, s.ranks[r], r))
    && (forall r, pl :: 0 <= r < |s.ranks| && IsPlace(c.p, pl) ==> SlotData(c, s.slots[Slot(r, pl)], r, pl))
  }

  lemma {:induction false} LaterFacetsCompose(S: Stencil, p: Points, cur: seq<real>, nxt: seq<real>, k: nat)
    requires Buffers(p, cur, nxt) && 1 <= k <= 6
    ensures LaterFacets(S, p, cur, UpdateFacets(S, p, cur, nxt, 1), k) == UpdateFacets(S, p, cur, nxt, k)
  {
    hide UpdateKernel, Points.Volume, Points.AreasFit;
    if k > 1 {
      LaterFacetsCompose(S, p, cur, nxt, k - 1);
    }
  }

  lemma {:induction false} NothingPending(c: Setup, k: Rank, r: nat)
    requires c.Valid() && r < c.g.Ranks() && |k.cur| == c.p.Volume() && RecvBuffers(c.p, k.send)
    requires RankData(c, k, r) && k.pc.Early? && k.unpacked == AllPlaces(c.p)
    ensures k.cur == Mem(c, k.step, r).cur
  {
    hide Mem, Points.Volume, Grid.Ranks, GhostIndex, UpdateFacets;
    forall i | 0 <= i < c.p.Volume()
      ensures !Pending(c.p, k, i)
    {
      forall pl | IsPlace(c.p, pl)
        ensures pl in k.unpacked
      {
        PlaceInAll(c.p, pl);
      }
    }
  }

  lemma {:induction false} GhostIndexOf(p: Points, f: Facet, d: Coord)
    requires p.Countable() && p.Valid() && GhostOf(p, f, d) && Padded(p, d)
    ensures 0 <= BoxIndex(Halo(p, f), d) < BufferLen(p, f)
    ensures GhostIndex(p, Place(f, BoxIndex(Halo(p, f), d))) == Flat(p, d)
  {
    hide Flat, BoxIndex, BoxCell, Points.Volume, Box.Size, Halo;
    CopiesWithinBounds(p, f);
    FacetBoxes(p, f, d);
    BoxIndexRoundTrip(Halo(p, f), d);
  }

  /** Unpacking changes exactly the ghost cells. */
  lemma {:induction false} UnpackedOffGhosts(p: Points, sub: seq<real>, recv: seq<seq<real>>, i: nat)
    requires p.Countable() && p.Valid() && |sub| == p.Volume() && RecvBuffers(p, recv) && i < p.Volume()
    requires forall pl :: IsPlace(p, pl) ==> GhostIndex(p, pl) != i
    ensures Unpacked(p, sub, recv)[i] == sub[i]
  {
    hide Flat, CellAt, BoxIndex, Points.Volume, GhostIndex, Unpacked, BufferLen, Halo;
    CellRoundTrip(p, i);
    var d := CellAt(p, i);
    forall f | GhostOf(p, f, d)
      ensures false
    {
      GhostIndexOf(p, f, d);
    }
    UnpackedAt(p, sub, recv, d);
  }

  lemma {:induction false} UnpackedOnGhost(p: Points, sub: seq<real>, recv: seq<seq<real>>, pl: Place)
    requires p.Countable() && p.Valid() && |sub| == p.Volume() && RecvBuffers(p, recv) && IsPlace(p, pl)
    ensures Unpacked(p, sub, recv)[GhostIndex(p, pl)] == recv[Code(pl.f)][pl.j]
  {
    hide Flat, BoxIndex, BoxCell, Points.Volume, Unpacked, BufferLen, Halo, Box.Size, Box.Has;
    CopiesWithinBounds(p, pl.f);
    BoxCellRoundTrip(Halo(p, pl.f), pl.j);
    var d := BoxCell(Halo(p, pl.f), pl.j);
    FacetBoxes(p, pl.f, d);
    UnpackedAt(p, sub, recv, d);
  }

  lemma MemNext(c: Setup, t: nat, r: nat)
    requires c.Valid() && r < c.g.Ranks()
    ensures var mem := Mem(c, t, r); var sys := SyncRun(c.m, c.S, c.g, c.p, c.start, t);
            && Mem(c, t + 1, r).nxt == mem.cur
            && Mem(c, t + 1, r).cur == Unpacked(c.p, Computed(c.S, c.p, mem.cur, mem.nxt),
                                                Received(c.m, c.S, c.g, c.p, sys, r))
            && forall f :: Received(c.m, c.S, c.g, c.p, sys, r)[Code(f)] == ReceivedFacet(c.m, c.S, c.g, c.p, sys, r, f)
  {
  }

  /** Only rank r changed, and its new contents are right. */
  lemma LocalData(c: Setup, s: State, s': State, r: nat)
    requires Inv(c, s) && DataInv(c, s) && WellFormed(c, s') && r < |s.ranks|
    requires s'.ranks == s.ranks[r := s'.ranks[r]] && s'.slots == s.slots && RankData(c, s'.ranks[r], r)
    ensures DataInv(c, s')
  {
    hide RankData, SlotData, Inv, Points.Volume, Grid.Ranks;
  }

  lemma {:induction false} UpdateFirstData(c: Setup, s: State, s': State, r: nat)
    requires Inv(c, s) && DataInv(c, s) && c.own && r < |s.ranks| && WellFormed(c, s') && UpdateFirst(c, s, s', r)
    ensures DataInv(c, s')
  {
    hide Inv, AllPlaces, UpdateFacets, Mem, Points.Volume, Grid.Ranks, Pending;
    InvFacts(c, s);
    NothingPending(c, s.ranks[r], r);
    FacetsZero(c.S, c.p, Mem(c, s.ranks[r].step, r).cur, Mem(c, s.ranks[r].step, r).nxt);
    LocalData(c, s, s', r);
  }

  lemma FacetsZero(S: Stencil, p: Points, cur: seq<real>, nxt: seq<real>)
    requires Buffers(p, cur, nxt)
    ensures UpdateFacets(S, p, cur, nxt, 0) == nxt
  {
  }

  lemma {:induction false} UpdateRestData(c: Setup, s: State, s': State, r: nat)
    requires Inv(c, s) && DataInv(c, s) && c.own && r < |s.ranks| && WellFormed(c, s') && UpdateRest(c, s, s', r)
    ensures DataInv(c, s')
  {
    hide Inv, AllPlaces, UpdateFacets, LaterFacets, Mem, Points.Volume, Grid.Ranks, Pending, PackKernel;
    var k, mem := s.ranks[r], Mem(c, s.ranks[r].step, r);
    InvFacts(c, s);
    NothingPending(c, k, r);
    LaterFacetsCompose(c.S, c.p, mem.cur, mem.nxt, 6);
    forall f
      ensures LaterSend(c.m, c.S, c.p, mem.cur, k.nxt, f) == SendBuffer(c.m, c.S, c.p, mem.cur, mem.nxt, f)
    {
      LaterFacetsCompose(c.S, c.p, mem.cur, mem.nxt, Code(f) + 1);
    }
    LocalData(c, s, s', r);
  }

  lemma {:induction false} UpdateInsideData(c: Setup, s: State, s': State, r: nat)
    requires Inv(c, s) && DataInv(c, s) && r < |s.ranks| && WellFormed(c, s') && UpdateInside(c, s, s', r)
    ensures DataInv(c, s')
  {
    hide Inv, AllPlaces, UpdateFacets, Mem, Points.Volume, Grid.Ranks, Pending, UpdateKernel;
    LocalData(c, s, s', r);
  }

  lemma {:induction false} SignalData(c: Setup, s: State, s': State, r: nat)
    requires Inv(c, s) && DataInv(c, s) && r < |s.ranks| && WellFormed(c, s') && Signal(c, s, s', r)
    ensures DataInv(c, s')
  {
    hide Inv, AllPlaces, UpdateFacets, Computed, Mem, Points.Volume, Grid.Ranks, Pending;
    LocalData(c, s, s', r);
  }

  lemma {:induction false} WakeData(c: Setup, s: State, s': State, r: nat)
    requires Inv(c, s) && DataInv(c, s) && r < |s.ranks| && WellFormed(c, s') && Wake(c, s, s', r)
    ensures DataInv(c, s')
  {
    hide Inv, AllPlaces, UpdateFacets, Computed, Mem, Points.Volume, Grid.Ranks, GhostIndex, Unpacked, Received,
         ReceivedFacet;
    var k, k', mem := s.ranks[r], s'.ranks[r], Mem(c, s.ranks[r].step, r);
    MemNext(c, k.step, r);
    var recv := Received(c.m, c.S, c.g, c.p, SyncRun(c.m, c.S, c.g, c.p, c.start, k.step), r);
    FacetsZero(c.S, c.p, Mem(c, k.step + 1, r).cur, mem.cur);
    forall i | 0 <= i < c.p.Volume() && !Pending(c.p, k', i)
      ensures k'.cur[i] == Mem(c, k.step + 1, r).cur[i]
    {
      UnpackedOffGhosts(c.p, Computed(c.S, c.p, mem.cur, mem.nxt), recv, i);
    }
    LocalData(c, s, s', r);
  }

  lemma {:induction false} UnpackData(c: Setup, s: State, s': State, r: nat, pl: Place)
    requires Inv(c, s) && DataInv(c, s) && r < |s.ranks| && WellFormed(c, s') && UnpackCell(c, s, s', r, pl)
    requires s.ranks[r].step > 0 && s.slots[Slot(r, pl)].value == Delivered(c, s.ranks[r].step - 1, r, pl)
    ensures DataInv(c, s')
  {
    hide Inv, UpdateFacets, Computed, Mem, Points.Volume, Grid.Ranks, GhostIndex, Unpacked, Received, ReceivedFacet,
         BufferLen, AllPlaces;
    var k, k', t := s.ranks[r], s'.ranks[r], s.ranks[r].step - 1;
    var mem, mem' := Mem(c, t, r), Mem(c, t + 1, r);
    InvFacts(c, s);
    PlaceInAll(c.p, pl);
    MemNext(c, t, r);
    var sys := SyncRun(c.m, c.S, c.g, c.p, c.start, t);
    var recv := Received(c.m, c.S, c.g, c.p, sys, r);
    UnpackedOnGhost(c.p, Computed(c.S, c.p, mem.cur, mem.nxt), recv, pl);
    assert RankData(c, k, r) && SlotData(c, s.slots[Slot(r, pl)], r, pl);
    forall i | 0 <= i < c.p.Volume() && !Pending(c.p, k', i)
      ensures k'.cur[i] == mem'.cur[i]
    {
      if i == GhostIndex(c.p, pl) {
        assert k'.cur[i] == recv[Code(pl.f)][pl.j];
      } else {
        OnlyOnePlace(c.p, k, k', pl, i);
      }
    }
    assert !k.pc.updated;
    LocalData(c, s, s', r);
  }

  lemma OnlyOnePlace(p: Points, k: Rank, k': Rank, pl: Place, i: nat)
    requires p.Valid() && IsPlace(p, pl) && k'.unpacked == k.unpacked + {pl} && i != GhostIndex(p, pl)
    ensures Pending(p, k, i) <==> Pending(p, k', i)
  {
    hide GhostIndex, Points.Valid;
    if Pending(p, k, i) {
      var q :| IsPlace(p, q) && q !in k.unpacked && GhostIndex(p, q) == i;
      assert q !in k'.unpacked;
    }
  }

  lemma {:induction false} SendData(c: Setup, s: State, s': State, r: nat, pl: Place)
    requires Inv(c, s) && DataInv(c, s) && r < |s.ranks| && WellFormed(c, s') && SendCell(c, s, s', r, pl)
    ensures DataInv(c, s')
  {
    hide Inv, AllPlaces, UpdateFacets, Computed, Points.Volume, Grid.Ranks, SendBuffer, SyncRun, Neighbour, Pending,
         BufferLen;
    var k, to := s.ranks[r], Target(c, r, pl);
    InvFacts(c, s);
    TargetFacts(c, r, pl);
    ReverseIsInvolution(pl.f);
    assert s'.slots[to].value == SendBuffer(c.m, c.S, c.p, Mem(c, k.step, r).cur, Mem(c, k.step, r).nxt, pl.f)[pl.j];
    assert SlotData(c, s'.slots[to], to.r, to.pl);
    forall w | 0 <= w < |s.ranks|
      ensures RankData(c, s'.ranks[w], w)
    {
      assert RankData(c, s.ranks[w], w);
    }
  }

  lemma {:induction false} StepKeepsData(c: Setup, s: State, s': State)
    requires Inv(c, s) && DataInv(c, s) && Orderly(c) && Step(c, s, s')
    ensures Inv(c, s') && DataInv(c, s')
  {
    hide Inv, DataInv, WellFormed, UpdateFirst, UpdateRest, UpdateInside, Signal, Wake, SendCell, UnpackCell,
         MasterStep, PeerInv, SendsInv;
    StepKeepsInv(c, s, s');
    InvFacts(c, s);
    InvFacts(c, s');
    if MasterStep(c, s, s') {
      MasterData(c, s, s');
    } else {
      var r :| 0 <= r < |s.ranks| && RankStep(c, s, s', r);
      if {
        case UpdateFirst(c, s, s', r) => UpdateFirstData(c, s, s', r);
        case UpdateRest(c, s, s', r) => UpdateRestData(c, s, s', r);
        case UpdateInside(c, s, s', r) => UpdateInsideData(c, s, s', r);
        case Signal(c, s, s', r) => SignalData(c, s, s', r);
        case Wake(c, s, s', r) => WakeData(c, s, s', r);
        case exists pl :: SendCell(c, s, s', r, pl) =>
          var pl :| SendCell(c, s, s', r, pl);
          SendData(c, s, s', r, pl);
        case exists pl :: UnpackCell(c, s, s', r, pl) =>
          var pl :| UnpackCell(c, s, s', r, pl);
          UnpackIsRight(c, s, s', r, pl);
          UnpackData(c, s, s', r, pl);
      }
    }
  }

  lemma MasterData(c: Setup, s: State, s': State)
    requires Inv(c, s) && DataInv(c, s) && MasterStep(c, s, s') && WellFormed(c, s')
    ensures DataInv(c, s')
  {
    hide RankData, SlotData, Inv, Points.Volume, Grid.Ranks;
  }

  /** Then every cell is unpacked with the bulk-synchronous value of its step. */
  lemma {:induction false} UnpackIsRight(c: Setup, s: State, s': State, r: nat, pl: Place)
    requires Inv(c, s) && DataInv(c, s) && Orderly(c) && r < |s.ranks| && UnpackCell(c, s, s', r, pl)
    ensures s.ranks[r].step > 0 && s.slots[Slot(r, pl)].value == Delivered(c, s.ranks[r].step - 1, r, pl)
  {
    hide Inv, Delivered, Neighbour, AllPlaces, Points.Volume, Grid.Ranks, BufferLen, GhostIndex, RankData;
    InvFacts(c, s);
    SendsOfOutstanding(c, s, r, pl);
    var t := s.ranks[r].step - 1;
    assert SlotData(c, s.slots[Slot(r, pl)], r, pl);
    if s.slots[Slot(r, pl)].sends == t + 2 {
      assert Delivered(c, t + 1, r, pl) == Delivered(c, t, r, pl);
    }
  }

  lemma InitData(c: Setup, s: State)
    requires Init(c, s)
    ensures DataInv(c, s)
  {
    hide SyncInit, Points.Volume, Grid.Ranks, AllPlaces, Pending;
    forall r | 0 <= r < |s.ranks|
      ensures RankData(c, s.ranks[r], r)
    {
      assert SyncRun(c.m, c.S, c.g, c.p, c.start, 0) == SyncInit(c.m, c.g, c.p, c.start);
    }
  }

  lemma {:induction false} RunData(c: Setup, ss: seq<State>, i: nat)
    requires IsRun(c, ss) && i < |ss| && c.Valid() && Orderly(c)
    ensures Inv(c, ss[i]) && DataInv(c, ss[i])
  {
    hide Inv, Init, Step, WellFormed, DataInv, Orderly;
    if i == 0 {
      InitInv(c, ss[0]);
      InvFacts(c, ss[0]);
      InitData(c, ss[0]);
    } else {
      RunData(c, ss, i - 1);
      InvFacts(c, ss[i - 1]);
      StepKeepsData(c, ss[i - 1], ss[i]);
    }
  }

  /** Inner points are never ghost cells. */
  lemma {:induction false} InnerNotPending(p: Points, k: Rank, d: Coord)
    requires p.Countable() && p.Valid() && Inner(p, d)
    ensures 0 <= Flat(p, d) < p.Volume() && !Pending(p, k, Flat(p, d))
  {
    hide Flat, BoxIndex, BoxCell, Points.Volume, Box.Size, Halo, BufferLen, Box.Has;
    FlatRoundTrip(p, d);
    forall pl | IsPlace(p, pl)
      ensures GhostIndex(p, pl) != Flat(p, d)
    {
      CopiesWithinBounds(p, pl.f);
      BoxCellRoundTrip(Halo(p, pl.f), pl.j);
      var e := BoxCell(Halo(p, pl.f), pl.j);
      FacetBoxes(p, pl.f, e);
      FlatRoundTrip(p, e);
    }
  }

  /** The global computation at a local point of a rank. */
  ghost function GlobalAt(S: Stencil, g: Grid, p: Points, F: Field, t: nat, r: nat, d: Coord): real
    requires ValidSetup(g, p) && r < g.Ranks() && Padded(p, d)
  {
    GlobalRun(S, Mesh(g, p), F, t, Glue(g, p, r, d))
  }

  /** From step 1 on nothing changes in the ghost points that belong to another rank. */
  ghost predicate Settled(S: Stencil, g: Grid, p: Points, F: Field)
    requires ValidSetup(g, p)
  {
    forall t: nat, r: nat, f: Facet, d: Coord |
      0 < t && r < g.Ranks() && Padded(p, d) && GhostOf(p, f, d) && Neighbour(g, r, f) != r ::
      GlobalAt(S, g, p, F, t, r, d) == GlobalAt(S, g, p, F, t + 1, r, d)
  }

  /** The ghost point that place pl is unpacked to. */
  ghost function GhostAt(p: Points, pl: Place): (d: Coord)
    requires p.Valid() && IsPlace(p, pl)
    ensures Padded(p, d) && GhostOf(p, pl.f, d) && BoxIndex(Halo(p, pl.f), d) == pl.j && Flat(p, d) == GhostIndex(p, pl)
  {
    CopiesWithinBounds(p, pl.f);
    BoxCellRoundTrip(Halo(p, pl.f), pl.j);
    FacetBoxes(p, pl.f, BoxCell(Halo(p, pl.f), pl.j));
    BoxCell(Halo(p, pl.f), pl.j)
  }

  /** With the documented packing the value delivered in step t is the global one of step t + 1. */
  lemma {:induction false} DeliveredIsGlobal(c: Setup, F: Field, t: nat, r: nat, pl: Place)
    requires c.Valid() && c.m == Documented && Initialised(c.g, c.p, F, c.start) && r < c.g.Ranks() && IsPlace(c.p, pl)
    ensures Delivered(c, t, r, pl) == GlobalAt(c.S, c.g, c.p, F, t + 1, r, GhostAt(c.p, pl))
  {
    hide Initialised, Glue, GlobalRun, Mesh, Points.Volume, Points.Valid, Grid.Ranks, GhostAt, ReceivedFacet,
         BufferLen, BoxIndex, SyncRun, Faithful;
    var sys := SyncRun(c.m, c.S, c.g, c.p, c.start, t);
    SyncRefinesGlobal(c.S, c.g, c.p, F, c.start, t);
    StepGhost(c.S, c.g, c.p, F, sys, t, r, pl.f, GhostAt(c.p, pl));
  }

  lemma {:induction false} SettledIsOrderly(c: Setup, F: Field)
    requires c.Valid() && c.m == Documented && Initialised(c.g, c.p, F, c.start)
    requires c.own && (c.peer || Settled(c.S, c.g, c.p, F))
    ensures Orderly(c)
  {
    hide Initialised, GlobalAt, Points.Volume, Points.Valid, Grid.Ranks, GhostAt, Delivered, BufferLen, Neighbour;
    if !c.peer {
      forall t: nat, r: nat, pl | r < c.g.Ranks() && IsPlace(c.p, pl) && Neighbour(c.g, r, pl.f) != r
        ensures Delivered(c, t + 1, r, pl) == Delivered(c, t, r, pl)
      {
        DeliveredIsGlobal(c, F, t, r, pl);
        DeliveredIsGlobal(c, F, t + 1, r, pl);
      }
    }
  }

  /** The concurrent solver refines the global periodic computation: in every interleaving of ranks,
      master and halo cells that unpacks a rank's halo before its next update, and before the peers'
      next sends unless what they send has settled, a rank's inner points hold in its step t, from
      one barrier to the next, t applications of the global stencil. */
  lemma {:induction false} ConcurrentRefinesGlobal(c: Setup, F: Field, ss: seq<State>, i: nat, r: nat, d: Coord)
    requires c.Valid() && c.m == Documented && Initialised(c.g, c.p, F, c.start)
    requires c.own && (c.peer || Settled(c.S, c.g, c.p, F))
    requires IsRun(c, ss) && i < |ss| && r < c.g.Ranks() && Inner(c.p, d)
    ensures WellFormed(c, ss[i]) && Padded(c.p, d)
    ensures Read(c.p, ss[i].ranks[r].cur, d)
         == GlobalRun(c.S, Mesh(c.g, c.p), F, ss[i].ranks[r].step, Glue(c.g, c.p, r, d))
  {
    hide Inv, IsRun, Initialised, Glue, GlobalRun, Mesh, Points.Volume, Grid.Ranks, Flat, Pending, UpdateFacets,
         Computed, SyncRun, SlotData, Settled, Orderly;
    SettledIsOrderly(c, F);
    RunData(c, ss, i);
    InvFacts(c, ss[i]);
    var k := ss[i].ranks[r];
    assert RankData(c, k, r);
    InnerNotPending(c.p, k, d);
    SyncRefinesGlobal(c.S, c.g, c.p, F, c.start, k.step);
    StencilReadsUsed(c.p, d);
    assert Read(c.p, k.cur, d) == Read(c.p, Mem(c, k.step, r).cur, d);
  }

  // ----- no order blocks

  lemma {:induction false} EarlyCanMove(c: Setup, s: State, r: nat) returns (s': State)
    requires Inv(c, s) && r < |s.ranks| && s.ranks[r].pc.Early?
    ensures RankStep(c, s, s', r)
  {
    hide Inv, Points.Volume, Grid.Ranks, GhostIndex, UpdateFacets, LaterFacets, LaterSend, BufferLen;
    InvFacts(c, s);
    var k := s.ranks[r];
    if pl :| IsPlace(c.p, pl) && pl !in k.unpacked {
      s' := s.(ranks := s.ranks[r := k.(unpacked := k.unpacked + {pl},
                                        cur := k.cur[GhostIndex(c.p, pl) := s.slots[Slot(r, pl)].value])]);
      assert UnpackCell(c, s, s', r, pl);
    } else {
      assert k.unpacked == AllPlaces(c.p);
      if k.pc.updated {
        var sends := seq(6, i requires 0 <= i < 6 => LaterSend(c.m, c.S, c.p, k.cur, k.nxt, FacetOf(i)));
        s' := s.(ranks := s.ranks[r := k.(pc := Exchanging(false), nxt := LaterFacets(c.S, c.p, k.cur, k.nxt, 6),
                                          send := sends)]);
        assert UpdateRest(c, s, s', r);
      } else {
        s' := s.(ranks := s.ranks[r := k.(pc := Early(true), nxt := UpdateFacets(c.S, c.p, k.cur, k.nxt, 1))]);
      }
    }
  }

  lemma {:induction false} WakeCanMove(c: Setup, s: State, r: nat) returns (s': State)
    requires Inv(c, s) && r < |s.ranks| && s.down[r]
    ensures RankStep(c, s, s', r)
  {
    hide Inv, Points.Volume, Grid.Ranks, BufferLen, PlacesInv, SendsInv, PeerInv;
    InvFacts(c, s);
    var k := s.ranks[r];
    s' := s.(ranks := s.ranks[r := Rank(k.step + 1, Early(false), k.nxt, k.cur, k.send, {}, {})],
             down := s.down[r := false]);
  }

  lemma {:induction false} ExchangingCanMove(c: Setup, s: State, r: nat) returns (s': State)
    requires Inv(c, s) && r < |s.ranks| && s.ranks[r].pc.Exchanging? && s.master.Collect?
    requires forall w :: 0 <= w < |s.ranks| ==> !s.ranks[w].pc.Early? && !s.down[w]
    ensures RankStep(c, s, s', r)
  {
    hide Inv, Points.Volume, Grid.Ranks, BufferLen, UpdateKernel, Target;
    InvFacts(c, s);
    var k := s.ranks[r];
    if !k.pc.interior {
      UpdatesWithinInner(c.p);
      s' := s.(ranks := s.ranks[r := k.(pc := Exchanging(true),
                                        nxt := UpdateKernel(c.S, c.p, k.cur, k.nxt, InteriorBox(c.p)))]);
    } else if pl :| IsPlace(c.p, pl) && pl !in k.sent {
      var to := Target(c, r, pl);
      TargetFacts(c, r, pl);
      PlaceInAll(c.p, to.pl);
      BarrierBounds(c, s, r, to.r);
      s' := s.(ranks := s.ranks[r := k.(sent := k.sent + {pl})],
               slots := s.slots[to := Cell(k.send[Code(pl.f)][pl.j], k.step + 1)]);
      assert SendCell(c, s, s', r, pl);
    } else {
      assert k.sent == AllPlaces(c.p);
      s' := s.(ranks := s.ranks[r := k.(pc := Signalled)], up := s.up[r := true]);
    }
  }

  /** Some rank or the master can always move, whichever orders are kept: the hypotheses of the
      refinement theorem are met by schedules that run for ever. */
  lemma {:induction false} NeverStuck(c: Setup, ss: seq<State>, i: nat) returns (s': State)
    requires IsRun(c, ss) && i < |ss|
    ensures WellFormed(c, ss[i]) && Step(c, ss[i], s')
  {
    hide IsRun, Inv, RankStep, Points.Volume, Grid.Ranks, PlacesInv, SendsInv, PeerInv;
    RunInv(c, ss, i);
    var s := ss[i];
    InvFacts(c, s);
    var n := s.master.i;
    var last := n + 1 == |s.ranks|;
    if s.master.Release? {
      s' := s.(down := s.down[n := true], master := if last then Collect(0) else Release(n + 1),
               round := if last then s.round + 1 else s.round);
    } else if s.up[n] {
      s' := s.(up := s.up[n := false], master := if last then Release(0) else Collect(n + 1));
    } else if r :| 0 <= r < |s.ranks| && s.ranks[r].pc.Early? {
      s' := EarlyCanMove(c, s, r);
    } else if r :| 0 <= r < |s.ranks| && s.down[r] {
      s' := WakeCanMove(c, s, r);
    } else {
      s' := ExchangingCanMove(c, s, n);
    }
  }
}
