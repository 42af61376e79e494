/** What the program's own ordering allows. Runs are built step by step; without the order `own` some
    compute from ghosts that have not been unpacked yet, without the order `peer` some unpack the
    data of the next step. */
module HeatSchedules {
  import opened LinearIndex
  import opened HeatGeometry
  import opened HeatKernels
  import opened HeatStep
  import opened HeatRefinement
  import opened HeatAsync

  // ----- building runs

  ghost function Last(ss: seq<State>): State
    requires |ss| > 0
  {
    ss[|ss| - 1]
  }

  lemma {:induction false} Here(c: Setup, ss: seq<State>)
    requires IsRun(c, ss)
    ensures |ss| > 0 && WellFormed(c, Last(ss)) && Inv(c, Last(ss))
  {
    hide Inv, Init, Step, WellFormed;
    RunInv(c, ss, |ss| - 1);
    InvFacts(c, Last(ss));
  }

  lemma {:induction false} Append(c: Setup, ss: seq<State>, s': State) returns (tt: seq<State>)
    requires IsRun(c, ss) && WellFormed(c, Last(ss)) && Step(c, Last(ss), s')
    ensures IsRun(c, tt) && Last(tt) == s' && WellFormed(c, s') && Inv(c, s')
  {
    hide Init, Step, WellFormed, Inv;
    tt := ss + [s'];
    forall i | 0 <= i < |tt| - 1
      ensures WellFormed(c, tt[i]) && Step(c, tt[i], tt[i + 1])
    {
      assert tt[i] == ss[i];
      if i + 1 < |ss| {
        assert tt[i + 1] == ss[i + 1];
      }
    }
    Here(c, tt);
  }

  lemma {:induction false} AppendRank(c: Setup, ss: seq<State>, r: nat, s': State) returns (tt: seq<State>)
    requires IsRun(c, ss) && WellFormed(c, Last(ss)) && r < |Last(ss).ranks| && RankStep(c, Last(ss), s', r)
    ensures IsRun(c, tt) && Last(tt) == s' && WellFormed(c, s') && Inv(c, s')
  {
    hide Init, RankStep, WellFormed, Inv, IsRun;
    tt := Append(c, ss, s');
  }

  /** Rank r alone has changed, from k. */
  ghost function WithRank(s: State, r: nat, k: Rank): State
    requires r < |s.ranks|
  {
    s.(ranks := s.ranks[r := k])
  }

  /** Unpack everything but `rest`. */
  lemma {:induction false} UnpackMost(c: Setup, ss: seq<State>, r: nat, rest: set<Place>) returns (tt: seq<State>)
    requires IsRun(c, ss) && r < |Last(ss).ranks| && Last(ss).ranks[r].pc.Early?
    requires rest <= AllPlaces(c.p) && rest !! Last(ss).ranks[r].unpacked
    ensures IsRun(c, tt) && |Last(tt).ranks| == |Last(ss).ranks|
    ensures Last(tt) == WithRank(Last(ss), r, Last(ss).ranks[r].(unpacked := AllPlaces(c.p) - rest,
                                                                 cur := Last(tt).ranks[r].cur))
    decreases AllPlaces(c.p) - Last(ss).ranks[r].unpacked
  {
    hide IsRun, Inv, AllPlaces, GhostIndex, Points.Volume, Grid.Ranks, BufferLen, BarrierInv, SendsInv, PeerInv;
    Here(c, ss);
    var s := Last(ss);
    InvFacts(c, s);
    var k := s.ranks[r];
    if k.unpacked == AllPlaces(c.p) - rest {
      tt := ss;
    } else {
      var pl :| pl in AllPlaces(c.p) - rest && pl !in k.unpacked;
      PlacesAreAll(c.p, pl);
      var s' := WithRank(s, r, k.(unpacked := k.unpacked + {pl},
                                  cur := k.cur[GhostIndex(c.p, pl) := s.slots[Slot(r, pl)].value]));
      assert UnpackCell(c, s, s', r, pl);
      var next := AppendRank(c, ss, r, s');
      tt := UnpackMost(c, next, r, rest);
    }
  }

  lemma PlacesAreAll(p: Points, pl: Place)
    ensures pl in AllPlaces(p) <==> IsPlace(p, pl)
  {
  }

  /** Every rank is in step t and has unpacked everything. */
  ghost predicate Level(p: Points, s: State, t: nat) {
    forall w :: 0 <= w < |s.ranks| ==> s.ranks[w].unpacked == AllPlaces(p) && s.ranks[w].step == t
  }

  lemma {:induction false} SendAll(c: Setup, ss: seq<State>, r: nat) returns (tt: seq<State>)
    requires IsRun(c, ss) && r < |Last(ss).ranks| && Last(ss).ranks[r].pc.Exchanging?
             && Level(c.p, Last(ss), Last(ss).ranks[r].step)
    ensures IsRun(c, tt) && |Last(tt).ranks| == |Last(ss).ranks|
    ensures Last(tt) == WithRank(Last(ss), r, Last(ss).ranks[r].(sent := AllPlaces(c.p))).(slots := Last(tt).slots)
    decreases AllPlaces(c.p) - Last(ss).ranks[r].sent
  {
    hide IsRun, Inv, AllPlaces, Target, Points.Volume, Grid.Ranks, BufferLen, BarrierInv, PeerInv;
    Here(c, ss);
    var s := Last(ss);
    InvFacts(c, s);
    var k := s.ranks[r];
    if k.sent == AllPlaces(c.p) {
      tt := ss;
    } else {
      var pl :| pl in AllPlaces(c.p) && pl !in k.sent;
      PlacesAreAll(c.p, pl);
      TargetFacts(c, r, pl);
      PlacesAreAll(c.p, Target(c, r, pl).pl);
      var cell := Cell(k.send[Code(pl.f)][pl.j], k.step + 1);
      var s' := WithRank(s, r, k.(sent := k.sent + {pl})).(slots := s.slots[Target(c, r, pl) := cell]);
      assert SendCell(c, s, s', r, pl);
      var next := AppendRank(c, ss, r, s');
      tt := SendAll(c, next, r);
    }
  }

  // ----- a whole timestep of every rank

  /** The new sub-domain at the host synchronisation, for a rank that has unpacked everything. */
  ghost function Finished(c: Setup, k: Rank): (r: seq<real>)
    requires Buffers(c.p, k.cur, k.nxt)
    ensures |r| == c.p.Volume()
  {
    UpdatesWithinInner(c.p);
    UpdateKernel(c.S, c.p, k.cur, LaterFacets(c.S, c.p, k.cur, FirstFacet(c, k), 6), InteriorBox(c.p))
  }

  /** The new sub-domain after the first facet, and after the six. */
  ghost function FirstFacet(c: Setup, k: Rank): (r: seq<real>)
    requires Buffers(c.p, k.cur, k.nxt)
    ensures |r| == c.p.Volume()
  {
    if k.pc == Early(true) then k.nxt else UpdateFacets(c.S, c.p, k.cur, k.nxt, 1)
  }

  lemma {:induction false} UpdateXU(c: Setup, ss: seq<State>, r: nat) returns (tt: seq<State>)
    requires IsRun(c, ss) && WellFormed(c, Last(ss)) && r < |Last(ss).ranks|
    requires Last(ss).ranks[r].pc.Early? && (c.own ==> Last(ss).ranks[r].unpacked == AllPlaces(c.p))
    ensures IsRun(c, tt) && WellFormed(c, Last(tt))
    ensures var k := Last(ss).ranks[r];
            Last(tt) == WithRank(Last(ss), r, k.(pc := Early(true), nxt := FirstFacet(c, k)))
  {
    hide IsRun, Inv, AllPlaces, Points.Volume, Grid.Ranks, BufferLen, UpdateFacets;
    Here(c, ss);
    var s := Last(ss);
    var k := s.ranks[r];
    if k.pc == Early(true) {
      tt := ss;
      assert s.ranks[r := k] == s.ranks;
    } else {
      var s' := WithRank(s, r, k.(pc := Early(true), nxt := FirstFacet(c, k)));
      assert UpdateFirst(c, s, s', r);
      tt := AppendRank(c, ss, r, s');
    }
  }

  lemma {:induction false} UpdateOthers(c: Setup, ss: seq<State>, r: nat) returns (tt: seq<State>)
    requires IsRun(c, ss) && WellFormed(c, Last(ss)) && r < |Last(ss).ranks|
    requires Last(ss).ranks[r].pc == Early(true) && Last(ss).ranks[r].unpacked == AllPlaces(c.p)
    ensures IsRun(c, tt) && |Last(tt).ranks| == |Last(ss).ranks| && WellFormed(c, Last(tt))
    ensures var k := Last(ss).ranks[r];
            Last(tt) == WithRank(Last(ss), r, k.(pc := Exchanging(false),
                                                 nxt := LaterFacets(c.S, c.p, k.cur, k.nxt, 6),
                                                 send := Last(tt).ranks[r].send))
  {
    hide IsRun, Inv, AllPlaces, Points.Volume, Grid.Ranks, BufferLen, LaterFacets, LaterSend;
    Here(c, ss);
    var s := Last(ss);
    var k := s.ranks[r];
    var sends := seq(6, i requires 0 <= i < 6 => LaterSend(c.m, c.S, c.p, k.cur, k.nxt, FacetOf(i)));
    var s' := WithRank(s, r, k.(pc := Exchanging(false), nxt := LaterFacets(c.S, c.p, k.cur, k.nxt, 6), send := sends));
    assert UpdateRest(c, s, s', r);
    tt := AppendRank(c, ss, r, s');
  }

  lemma {:induction false} UpdateTheInterior(c: Setup, ss: seq<State>, r: nat) returns (tt: seq<State>)
    requires IsRun(c, ss) && WellFormed(c, Last(ss)) && r < |Last(ss).ranks|
             && Last(ss).ranks[r].pc == Exchanging(false)
    ensures IsRun(c, tt) && WithinInner(c.p, InteriorBox(c.p))
    ensures var k := Last(ss).ranks[r];
            Last(tt) == WithRank(Last(ss), r, k.(pc := Exchanging(true),
                                                 nxt := UpdateKernel(c.S, c.p, k.cur, k.nxt, InteriorBox(c.p))))
  {
    hide IsRun, Inv, Points.Volume, Grid.Ranks, BufferLen, UpdateKernel;
    Here(c, ss);
    var s := Last(ss);
    var k := s.ranks[r];
    UpdatesWithinInner(c.p);
    var s' := WithRank(s, r, k.(pc := Exchanging(true), nxt := UpdateKernel(c.S, c.p, k.cur, k.nxt, InteriorBox(c.p))));
    assert UpdateInside(c, s, s', r);
    tt := AppendRank(c, ss, r, s');
  }

  /** From the exchange to the barrier. */
  lemma {:induction false} Depart(c: Setup, ss: seq<State>, r: nat) returns (tt: seq<State>)
    requires IsRun(c, ss) && WellFormed(c, Last(ss)) && r < |Last(ss).ranks|
    requires Last(ss).ranks[r].pc.Exchanging? && Level(c.p, Last(ss), Last(ss).ranks[r].step)
    ensures IsRun(c, tt) && |Last(tt).ranks| == |Last(ss).ranks| && WithinInner(c.p, InteriorBox(c.p))
    ensures var s, t := Last(ss), Last(tt); var k := s.ranks[r];
            && t == WithRank(s, r, t.ranks[r]).(slots := t.slots, up := s.up[r := true])
            && t.ranks[r].pc == Signalled && t.ranks[r].step == k.step && t.ranks[r].unpacked == AllPlaces(c.p)
            && (k.pc == Exchanging(false) ==> t.ranks[r].nxt == UpdateKernel(c.S, c.p, k.cur, k.nxt, InteriorBox(c.p)))
  {
    hide IsRun, Inv, AllPlaces, Points.Volume, Grid.Ranks, BufferLen, UpdateKernel, Setup.Valid, RecvBuffers, IsPlace;
    Here(c, ss);
    var one := ss;
    UpdatesInside(c);
    if Last(ss).ranks[r].pc == Exchanging(false) {
      one := UpdateTheInterior(c, ss, r);
    }
    var two := SendAll(c, one, r);
    Here(c, two);
    var s := Last(two);
    var s' := s.(ranks := s.ranks[r := s.ranks[r].(pc := Signalled)], up := s.up[r := true]);
    assert Signal(c, s, s', r);
    tt := AppendRank(c, two, r, s');
  }

  lemma UpdatesInside(c: Setup)
    requires c.Valid()
    ensures WithinInner(c.p, InteriorBox(c.p))
  {
    UpdatesWithinInner(c.p);
  }

  lemma {:induction false} ArriveRank(c: Setup, ss: seq<State>, r: nat) returns (tt: seq<State>)
    requires IsRun(c, ss) && WellFormed(c, Last(ss)) && r < |Last(ss).ranks|
    requires Last(ss).ranks[r].pc.Early? && Level(c.p, Last(ss), Last(ss).ranks[r].step)
    ensures IsRun(c, tt) && |Last(tt).ranks| == |Last(ss).ranks|
    ensures var s, t := Last(ss), Last(tt);
            && t == WithRank(s, r, t.ranks[r]).(slots := t.slots, up := s.up[r := true])
            && t.ranks[r].pc == Signalled && t.ranks[r].step == s.ranks[r].step && t.ranks[r].unpacked == AllPlaces(c.p)
            && t.ranks[r].nxt == Finished(c, s.ranks[r])
  {
    hide IsRun, Inv, AllPlaces, Points.Volume, Grid.Ranks, BufferLen, LaterFacets, FirstFacet, UpdateKernel,
         Setup.Valid, RecvBuffers, IsPlace;
    var one := UpdateXU(c, ss, r);
    var two := UpdateOthers(c, one, r);
    tt := Depart(c, two, r);
  }

  /** Every rank is in step t and has unpacked everything; the first n wait for the barrier. */
  ghost predicate Gathering(c: Setup, s: State, t: nat, n: nat) {
    && WellFormed(c, s) && n <= |s.ranks| && s.master == Collect(0) && Level(c.p, s, t)
    && forall r :: 0 <= r < |s.ranks| ==>
         !s.down[r] && if r < n then s.ranks[r].pc == Signalled && s.up[r] else s.ranks[r].pc != Signalled
  }

  lemma {:induction false} GatherAll(c: Setup, ss: seq<State>, t: nat, n: nat) returns (tt: seq<State>)
    requires IsRun(c, ss) && Gathering(c, Last(ss), t, n)
    ensures IsRun(c, tt) && Gathering(c, Last(tt), t, |Last(tt).ranks|) && |Last(tt).ranks| == |Last(ss).ranks|
    ensures forall q :: 0 <= q < n ==> Last(tt).ranks[q] == Last(ss).ranks[q]
    ensures forall q :: n <= q < |Last(ss).ranks| && Last(ss).ranks[q].pc.Early? ==>
              Last(tt).ranks[q].nxt == Finished(c, Last(ss).ranks[q])
    decreases |Last(ss).ranks| - n
  {
    hide IsRun, AllPlaces, Points.Volume, Grid.Ranks, BufferLen, Finished, Setup.Valid, RecvBuffers, IsPlace,
         UpdateKernel;
    Here(c, ss);
    if n == |Last(ss).ranks| {
      tt := ss;
    } else {
      var next;
      if Last(ss).ranks[n].pc.Early? {
        next := ArriveRank(c, ss, n);
      } else {
        next := Depart(c, ss, n);
      }
      Here(c, next);
      tt := GatherAll(c, next, t, n + 1);
    }
  }

  /** All ranks wait for the barrier; the master has collected n events, or released n ranks. */
  ghost predicate Collecting(c: Setup, s: State, t: nat, n: nat) {
    && WellFormed(c, s) && s.master == Collect(n)
    && forall r :: 0 <= r < |s.ranks| ==>
         s.ranks[r].pc == Signalled && s.ranks[r].step == t && !s.down[r] && (r >= n ==> s.up[r])
  }

  ghost predicate Releasing(c: Setup, s: State, t: nat, n: nat) {
    && WellFormed(c, s) && s.master == Release(n)
    && forall r :: 0 <= r < |s.ranks| ==> s.ranks[r].pc == Signalled && s.ranks[r].step == t && (s.down[r] <==> r < n)
  }

  lemma {:induction false} CollectAll(c: Setup, ss: seq<State>, t: nat, n: nat) returns (tt: seq<State>)
    requires IsRun(c, ss) && Collecting(c, Last(ss), t, n)
    ensures IsRun(c, tt) && Releasing(c, Last(tt), t, 0) && Last(tt).ranks == Last(ss).ranks
    decreases |Last(ss).ranks| - n
  {
    hide IsRun, Inv, Points.Volume, Grid.Ranks, BufferLen, Setup.Valid, RecvBuffers, IsPlace;
    Here(c, ss);
    var s := Last(ss);
    var last := n + 1 == |s.ranks|;
    var s' := s.(up := s.up[n := false], master := if last then Release(0) else Collect(n + 1));
    assert MasterStep(c, s, s');
    var next := Append(c, ss, s');
    if last {
      tt := next;
    } else {
      tt := CollectAll(c, next, t, n + 1);
    }
  }

  /** Every rank in step t waits to wake up, except that the first n have done so. */
  ghost predicate Waking(c: Setup, s: State, t: nat, n: nat) {
    && WellFormed(c, s) && n <= |s.ranks| && s.master == Collect(0)
    && forall r :: 0 <= r < |s.ranks| ==>
         if r < n then s.ranks[r].pc == Early(false) && s.ranks[r].step == t + 1 && s.ranks[r].unpacked == {}
            && !s.down[r]
         else s.ranks[r].pc == Signalled && s.ranks[r].step == t && s.down[r]
  }

  lemma {:induction false} ReleaseAll(c: Setup, ss: seq<State>, t: nat, n: nat) returns (tt: seq<State>)
    requires IsRun(c, ss) && Releasing(c, Last(ss), t, n)
    ensures IsRun(c, tt) && Waking(c, Last(tt), t, 0) && Last(tt).ranks == Last(ss).ranks
    decreases |Last(ss).ranks| - n
  {
    hide IsRun, Inv, Points.Volume, Grid.Ranks, BufferLen, Setup.Valid, RecvBuffers, IsPlace;
    Here(c, ss);
    var s := Last(ss);
    var last := n + 1 == |s.ranks|;
    var s' := s.(down := s.down[n := true], master := if last then Collect(0) else Release(n + 1),
                 round := if last then s.round + 1 else s.round);
    assert MasterStep(c, s, s');
    var next := Append(c, ss, s');
    if last {
      tt := next;
    } else {
      tt := ReleaseAll(c, next, t, n + 1);
    }
  }

  lemma {:induction false} WakeAll(c: Setup, ss: seq<State>, t: nat, n: nat) returns (tt: seq<State>)
    requires IsRun(c, ss) && Waking(c, Last(ss), t, n)
    ensures IsRun(c, tt) && Waking(c, Last(tt), t, |Last(tt).ranks|) && |Last(tt).ranks| == |Last(ss).ranks|
    ensures forall q :: 0 <= q < n ==> Last(tt).ranks[q] == Last(ss).ranks[q]
    ensures forall q :: n <= q < |Last(ss).ranks| ==> Last(tt).ranks[q].cur == Last(ss).ranks[q].nxt
    decreases |Last(ss).ranks| - n
  {
    hide IsRun, Inv, Points.Volume, Grid.Ranks, BufferLen, Setup.Valid, RecvBuffers, IsPlace;
    Here(c, ss);
    var s := Last(ss);
    if n == |s.ranks| {
      tt := ss;
    } else {
      var k := s.ranks[n];
      var s' := s.(ranks := s.ranks[n := Rank(k.step + 1, Early(false), k.nxt, k.cur, k.send, {}, {})],
                   down := s.down[n := false]);
      assert Wake(c, s, s', n);
      var next := AppendRank(c, ss, n, s');
      tt := WakeAll(c, next, t, n + 1);
    }
  }

  /** From every rank on its way to the barrier of step t to every rank just past it. */
  lemma {:induction false} Round(c: Setup, ss: seq<State>, t: nat) returns (tt: seq<State>)
    requires IsRun(c, ss) && Gathering(c, Last(ss), t, 0)
    ensures IsRun(c, tt) && Waking(c, Last(tt), t, |Last(tt).ranks|) && |Last(tt).ranks| == |Last(ss).ranks|
    ensures forall q :: 0 <= q < |Last(ss).ranks| && Last(ss).ranks[q].pc.Early? ==>
              Last(tt).ranks[q].cur == Finished(c, Last(ss).ranks[q])
  {
    hide IsRun, Points.Volume, Grid.Ranks, BufferLen, Setup.Valid, RecvBuffers, IsPlace, AllPlaces, Finished;
    tt := GatherAll(c, ss, t, 0);
    tt := CollectAll(c, tt, t, 0);
    tt := ReleaseAll(c, tt, t, 0);
    tt := WakeAll(c, tt, t, 0);
  }

  /** Every rank is in step t, not at the barrier, and the first n have unpacked everything. */
  ghost predicate Underway(c: Setup, s: State, t: nat, n: nat) {
    && WellFormed(c, s) && n <= |s.ranks| && s.master == Collect(0)
    && forall r :: 0 <= r < |s.ranks| ==>
         && s.ranks[r].step == t && !s.down[r] && s.ranks[r].pc != Signalled
         && (r < n || !s.ranks[r].pc.Early? ==> s.ranks[r].unpacked == AllPlaces(c.p))
  }

  lemma {:induction false} UnpackEveryone(c: Setup, ss: seq<State>, t: nat, n: nat) returns (tt: seq<State>)
    requires IsRun(c, ss) && Underway(c, Last(ss), t, n)
    ensures IsRun(c, tt) && Gathering(c, Last(tt), t, 0) && |Last(tt).ranks| == |Last(ss).ranks|
    ensures forall r :: 0 <= r < |Last(ss).ranks| ==>
              var k, k' := Last(ss).ranks[r], Last(tt).ranks[r];
              k'.pc == k.pc && k'.nxt == k.nxt && (k.unpacked == AllPlaces(c.p) ==> k' == k)
    decreases |Last(ss).ranks| - n
  {
    hide IsRun, Inv, Points.Volume, Grid.Ranks, BufferLen, Setup.Valid, RecvBuffers, IsPlace, AllPlaces;
    Here(c, ss);
    if n == |Last(ss).ranks| {
      tt := ss;
    } else if Last(ss).ranks[n].unpacked == AllPlaces(c.p) {
      tt := UnpackEveryone(c, ss, t, n + 1);
    } else {
      var next := UnpackMost(c, ss, n, {});
      Here(c, next);
      tt := UnpackEveryone(c, next, t, n + 1);
    }
  }

  // ----- a first state

  ghost function AllSlots(c: Setup): set<Slot>
    requires c.Valid()
  {
    set r: nat, f: Facet, j: nat | 0 <= r < c.g.Ranks() && 0 <= j < BufferLen(c.p, f) :: Slot(r, Place(f, j))
  }

  lemma {:induction false} FirstRun(c: Setup) returns (ss: seq<State>)
    requires c.Valid()
    ensures IsRun(c, ss) && Init(c, Last(ss)) && Gathering(c, Last(ss), 0, 0)
  {
    hide AllPlaces, Points.Volume, Grid.Ranks, SyncInit;
    AxisBounds(c.g);
    var mems := SyncInit(c.m, c.g, c.p, c.start);
    var sends := seq(6, i requires 0 <= i < 6 => seq(BufferLen(c.p, FacetOf(i)), j => 0.0));
    var n := |c.start|;
    var s := State(
      seq(n, r requires 0 <= r < n => Rank(0, Early(false), mems[r].cur, mems[r].nxt, sends, {}, AllPlaces(c.p))),
      map sl | sl in AllSlots(c) :: Cell(0.0, 0), seq(n, r => false), seq(n, r => false), Collect(0), 0);
    forall r, pl | 0 <= r < n && IsPlace(c.p, pl)
      ensures Slot(r, pl) in AllSlots(c)
    {
      assert Slot(r, pl) == Slot(r, Place(pl.f, pl.j));
    }
    assert Init(c, s);
    ss := [s];
  }

  /** Every rank just past the barrier of step t. */
  lemma {:induction false} Advance(c: Setup, t: nat) returns (ss: seq<State>)
    requires c.Valid()
    ensures IsRun(c, ss) && Waking(c, Last(ss), t, |Last(ss).ranks|)
  {
    hide IsRun, Inv, AllPlaces, Points.Volume, Grid.Ranks, BufferLen, Finished, Setup.Valid, RecvBuffers, IsPlace, Init;
    if t == 0 {
      ss := FirstRun(c);
    } else {
      ss := Advance(c, t - 1);
      Here(c, ss);
      ss := UnpackEveryone(c, ss, t, 0);
    }
    Here(c, ss);
    ss := Round(c, ss, t);
  }

  // ----- fresh data

  /** Place pl of rank r is still to be unpacked. */
  ghost predicate Outstanding(c: Setup, s: State, r: nat, pl: Place) {
    WellFormed(c, s) && r < |s.ranks| && s.ranks[r].pc.Early? && IsPlace(c.p, pl) && pl !in s.ranks[r].unpacked
  }

  /** Whatever is unpacked was sent for the step it is unpacked in. */
  ghost predicate AlwaysFresh(c: Setup) {
    forall ss: seq<State>, i: nat, r: nat, pl :: IsRun(c, ss) && i < |ss| && Outstanding(c, ss[i], r, pl) ==>
      ss[i].slots[Slot(r, pl)].sends == ss[i].ranks[r].step
  }

  lemma AloneIsOwnNeighbour(g: Grid, f: Facet)
    requires g.Valid() && g.Ranks() == 1
    ensures Neighbour(g, 0, f) == 0
  {
    hide Neighbour;
  }

  lemma {:induction false} SomeOtherNeighbour(g: Grid) returns (f: Facet)
    requires g.Valid() && g.Ranks() > 1
    ensures Neighbour(g, 0, f) != 0
  {
    hide CoordToRank, CoordUp, CoordDown, RankToCoord;
    AxisBounds(g);
    f := if g.nx > 1 then XU else if g.ny > 1 then YU else ZU;
    assert g.nx > 1 || g.ny > 1 || g.nz > 1;
    var o := RankToCoord(g, 0);
    NeighbourIsBeside(g, 0, f);
    CoordUpDown(g.nx, o.x);
    CoordUpDown(g.ny, o.y);
    CoordUpDown(g.nz, o.z);
  }

  lemma {:induction false} FirstPlace(p: Points, f: Facet)
    requires p.Valid()
    ensures IsPlace(p, Place(f, 0))
  {
    PositiveProduct(p.py, p.pz);
    PositiveProduct(p.px, p.pz);
    PositiveProduct(p.px, p.py);
  }

  /** Rank `sender` about to send in step t, all else as it was. */
  lemma {:induction false} GetReady(c: Setup, ss: seq<State>, sender: nat) returns (tt: seq<State>)
    requires IsRun(c, ss) && sender < |Last(ss).ranks| && Last(ss).ranks[sender].pc == Early(false)
             && Last(ss).ranks[sender].unpacked == {}
    ensures IsRun(c, tt) && WellFormed(c, Last(tt)) && |Last(tt).ranks| == |Last(ss).ranks|
    ensures Last(tt) == WithRank(Last(ss), sender, Last(tt).ranks[sender])
    ensures Last(tt).ranks[sender].pc == Exchanging(false) && Last(tt).ranks[sender].step == Last(ss).ranks[sender].step
  {
    hide IsRun, Inv, AllPlaces, Points.Volume, Grid.Ranks, BufferLen, LaterFacets, FirstFacet, Setup.Valid,
         RecvBuffers, IsPlace;
    tt := UnpackMost(c, ss, sender, {});
    Here(c, tt);
    tt := UpdateXU(c, tt, sender);
    tt := UpdateOthers(c, tt, sender);
  }

  /** A rank that is exchanging sends any cell, or has done so. */
  lemma {:induction false} SendOne(c: Setup, ss: seq<State>, r: nat, pl: Place) returns (tt: seq<State>)
    requires IsRun(c, ss) && !c.peer && WellFormed(c, Last(ss)) && r < |Last(ss).ranks|
    requires Last(ss).ranks[r].pc.Exchanging? && IsPlace(c.p, pl) && DataInv(c, Last(ss))
    ensures IsRun(c, tt) && |Last(tt).ranks| == |Last(ss).ranks| && WellFormed(c, Last(tt)) && DataInv(c, Last(tt))
    ensures Last(tt) == Last(ss).(ranks := Last(tt).ranks, slots := Last(tt).slots)
    ensures Last(tt).ranks == Last(ss).ranks[r := Last(ss).ranks[r].(sent := Last(ss).ranks[r].sent + {pl})]
    ensures Target(c, r, pl) in Last(tt).slots && Last(tt).slots[Target(c, r, pl)].sends == Last(ss).ranks[r].step + 1
  {
    hide IsRun, Target, AllPlaces, Points.Volume, Grid.Ranks, BufferLen, Inv, BarrierInv, PlacesInv, SendsInv,
         PeerInv, DataInv;
    Here(c, ss);
    var s := Last(ss);
    var k, to := s.ranks[r], Target(c, r, pl);
    TargetFacts(c, r, pl);
    if pl in k.sent {
      tt := ss;
      assert k.(sent := k.sent + {pl}) == k;
      SentOnce(c, s, r, pl);
    } else {
      var cell := Cell(k.send[Code(pl.f)][pl.j], k.step + 1);
      var s' := WithRank(s, r, k.(sent := k.sent + {pl})).(slots := s.slots[to := cell]);
      assert SendCell(c, s, s', r, pl);
      tt := AppendRank(c, ss, r, s');
      SendData(c, s, s', r, pl);
    }
  }

  lemma SentOnce(c: Setup, s: State, r: nat, pl: Place)
    requires Inv(c, s) && r < |s.ranks| && IsPlace(c.p, pl) && pl in s.ranks[r].sent
    ensures Target(c, r, pl) in s.slots && s.slots[Target(c, r, pl)].sends == s.ranks[r].step + 1
  {
    hide Target, IsPlace, BarrierInv, PeerInv, PlacesInv;
  }

  /** More order, fewer runs. */
  lemma {:induction false} RelaxedRun(c: Setup, c': Setup, ss: seq<State>)
    requires IsRun(c', ss) && c' == c.(own := true, peer := true)
    ensures IsRun(c, ss)
  {
    hide Points.Volume, Grid.Ranks, BufferLen, AllPlaces, UpdateFacets, LaterFacets, LaterSend, UpdateKernel,
         SyncInit, Target, GhostIndex, RecvBuffers;
    forall i | 0 <= i < |ss| - 1
      ensures WellFormed(c, ss[i]) && Step(c, ss[i], ss[i + 1])
    {
      RelaxedStep(c, c', ss[i], ss[i + 1]);
    }
  }

  lemma {:induction false} RelaxedStep(c: Setup, c': Setup, s: State, s': State)
    requires c' == c.(own := true, peer := true) && WellFormed(c', s) && Step(c', s, s')
    ensures WellFormed(c, s) && Step(c, s, s')
  {
    hide Points.Volume, Grid.Ranks, BufferLen, AllPlaces, UpdateFacets, LaterFacets, UpdateKernel, GhostIndex,
         RecvBuffers, SetRank;
    if !MasterStep(c', s, s') {
      var r :| 0 <= r < |s.ranks| && RankStep(c', s, s', r);
      if pl :| SendCell(c', s, s', r, pl) {
        assert SendCell(c, s, s', r, pl);
      } else if pl :| UnpackCell(c', s, s', r, pl) {
        assert UnpackCell(c, s, s', r, pl);
      }
      assert RankStep(c, s, s', r);
    }
  }

  lemma OrderedIsOrderly(c: Setup)
    requires c.Valid() && c.own && c.peer
    ensures Orderly(c)
  {
  }

  /** Rank r in step t has unpacked everything but pl, and everything is still bulk-synchronous; the
      sender of pl is about to send for step t + 1. */
  lemma {:induction false} BeforeOvertaking(c: Setup, t: nat, r: nat, pl: Place) returns (ss: seq<State>)
    requires c.Valid() && 0 < t && r < c.g.Ranks() && IsPlace(c.p, pl) && Neighbour(c.g, r, pl.f) != r
    ensures IsRun(c, ss) && Underway(c, Last(ss), t, 0) && DataInv(c, Last(ss))
    ensures Last(ss).ranks[r].pc == Early(false) && Last(ss).ranks[r].unpacked == AllPlaces(c.p) - {pl}
    ensures Last(ss).ranks[Neighbour(c.g, r, pl.f)].pc == Exchanging(false)
  {
    hide IsRun, Inv, AllPlaces, Points.Volume, Grid.Ranks, BufferLen, RecvBuffers, IsPlace, DataInv, Neighbour, Orderly;
    var c', sender := c.(own := true, peer := true), Neighbour(c.g, r, pl.f);
    OrderedIsOrderly(c');
    PlacesAreAll(c.p, pl);
    ss := Advance(c', t - 1);
    Here(c', ss);
    ss := UnpackMost(c', ss, r, {pl});
    Here(c', ss);
    ss := GetReady(c', ss, sender);
    Here(c', ss);
    InvFacts(c', Last(ss));
    RunData(c', ss, |ss| - 1);
    SameData(c, c', Last(ss));
    RelaxedRun(c, c', ss);
  }

  lemma SameData(c: Setup, c': Setup, s: State)
    requires c' == c.(own := true, peer := true) && WellFormed(c', s) && DataInv(c', s)
    ensures WellFormed(c, s) && DataInv(c, s)
  {
    hide Points.Volume, Grid.Ranks, BufferLen, AllPlaces, UpdateFacets, Computed, SyncRun, SendBuffer, ReceivedFacet,
         RecvBuffers, Pending;
  }

  /** The sender overtakes: the cell that rank r is about to unpack holds the value of step t + 1. */
  lemma {:induction false} Overtake(c: Setup, t: nat, r: nat, pl: Place) returns (ss: seq<State>)
    requires c.Valid() && !c.peer && 0 < t && r < c.g.Ranks() && IsPlace(c.p, pl) && Neighbour(c.g, r, pl.f) != r
    ensures IsRun(c, ss) && Underway(c, Last(ss), t, 0) && DataInv(c, Last(ss)) && Outstanding(c, Last(ss), r, pl)
    ensures Last(ss).ranks[r].pc == Early(false) && Last(ss).ranks[r].unpacked == AllPlaces(c.p) - {pl}
    ensures Last(ss).slots[Slot(r, pl)].sends == t + 1
  {
    hide IsRun, Inv, AllPlaces, Points.Volume, Grid.Ranks, BufferLen, RecvBuffers, DataInv, Neighbour;
    ss := BeforeOvertaking(c, t, r, pl);
    Here(c, ss);
    TargetFacts(c, r, pl);
    var from := Target(c, r, pl);
    ss := SendOne(c, ss, from.r, from.pl);
  }

  /** Exact condition: every run unpacks only fresh data if and only if the peers are ordered or there
      is a single rank. */
  lemma {:induction false} FreshIff(c: Setup)
    requires c.Valid()
    ensures AlwaysFresh(c) <==> c.peer || c.g.Ranks() == 1
  {
    hide IsRun, Grid.Ranks, Points.Volume, RecvBuffers, BufferLen, Neighbour, DataInv, AllPlaces;
    AxisBounds(c.g);
    if !c.peer && c.g.Ranks() > 1 {
      var f := SomeOtherNeighbour(c.g);
      FirstPlace(c.p, f);
      var ss := Overtake(c, 1, 0, Place(f, 0));
      Here(c, ss);
      assert Outstanding(c, ss[|ss| - 1], 0, Place(f, 0));
    } else {
      forall ss: seq<State>, i: nat, r: nat, pl | IsRun(c, ss) && i < |ss| && Outstanding(c, ss[i], r, pl)
        ensures ss[i].slots[Slot(r, pl)].sends == ss[i].ranks[r].step
      {
        if !c.peer {
          AloneIsOwnNeighbour(c.g, pl.f);
        }
        AsyncSafety(c, ss, i, r, pl);
      }
    }
  }

  // ----- refinement

  /** In state s every rank's inner points hold the global computation of its own step. */
  ghost predicate RefinesAt(c: Setup, F: Field, s: State)
    requires c.Valid()
  {
    && WellFormed(c, s)
    && forall r, d :: 0 <= r < |s.ranks| && Padded(c.p, d) && Inner(c.p, d) ==>
         Read(c.p, s.ranks[r].cur, d) == GlobalAt(c.S, c.g, c.p, F, s.ranks[r].step, r, d)
  }

  /** All runs from all memory contents that hold the initial field F. */
  ghost predicate AllRunsRefine(S: Stencil, own: bool, peer: bool, m: PackMode, g: Grid, p: Points, F: Field) {
    forall c: Setup, ss: seq<State>, i: nat ::
      c == Setup(own, peer, m, S, g, p, c.start) && c.Valid() && Initialised(g, p, F, c.start) && IsRun(c, ss)
        && i < |ss| ==>
        RefinesAt(c, F, ss[i])
  }

  /** An inner point that contradicts the refinement. */
  ghost predicate WrongAt(c: Setup, F: Field, s: State, r: nat, d: Coord) {
    && WellFormed(c, s) && r < |s.ranks| && Padded(c.p, d) && Inner(c.p, d)
    && Read(c.p, s.ranks[r].cur, d) != GlobalAt(c.S, c.g, c.p, F, s.ranks[r].step, r, d)
  }

  lemma {:induction false} WrongRefutes(c: Setup, F: Field, ss: seq<State>, r: nat, d: Coord)
    requires c.Valid() && Initialised(c.g, c.p, F, c.start) && IsRun(c, ss) && WrongAt(c, F, Last(ss), r, d)
    ensures !AllRunsRefine(c.S, c.own, c.peer, c.m, c.g, c.p, F)
  {
    hide IsRun, Initialised, Setup.Valid, WellFormed, Padded, GlobalAt;
    Here(c, ss);
    assert !RefinesAt(c, F, ss[|ss| - 1]);
  }

  lemma {:induction false} FinishedIsComputed(c: Setup, k: Rank)
    requires Buffers(c.p, k.cur, k.nxt) && k.pc == Early(false)
    ensures Finished(c, k) == Computed(c.S, c.p, k.cur, k.nxt)
  {
    hide UpdateKernel, UpdateFacets, LaterFacets, Points.Volume, Points.AreasFit;
    LaterFacetsCompose(c.S, c.p, k.cur, k.nxt, 6);
  }

  /** After one round from the start rank 0 holds what its first timestep computes. */
  lemma {:induction false} FirstRound(c: Setup) returns (ss: seq<State>)
    requires c.Valid()
    ensures IsRun(c, ss) && WellFormed(c, Last(ss)) && 0 < |Last(ss).ranks| == |c.start|
    ensures Waking(c, Last(ss), 0, |Last(ss).ranks|)
    ensures var mem := SyncInit(c.m, c.g, c.p, c.start)[0];
            Last(ss).ranks[0].cur == Computed(c.S, c.p, mem.cur, mem.nxt)
  {
    hide IsRun, Points.Volume, Grid.Ranks, BufferLen, Finished, Computed, SyncInit, AllPlaces, RecvBuffers, IsPlace;
    var first := FirstRun(c);
    Here(c, first);
    FinishedIsComputed(c, Last(first).ranks[0]);
    ss := Round(c, first, 0);
    Here(c, ss);
  }

  /** The packing as written is wrong after one timestep from every field, whatever the order. */
  lemma {:induction false} AsWrittenFailsConcurrently(w: real, own: bool, peer: bool, g: Grid, p: Points, F: Field)
    requires ValidSetup(g, p) && w != 0.0
    ensures !AllRunsRefine(HeatStencil(w), own, peer, AsWritten, g, p, F)
  {
    hide IsRun, Points.Volume, Points.Valid, Points.AreasFit, Grid.Ranks, Grid.Valid, Computed, SyncInit, FieldStart,
         Read, GlobalRun, Glue, Mesh, Initialised, WellFormed, ApplyStencil;
    var rest := WrongRest(w, g, p, F);
    var c := Setup(own, peer, AsWritten, HeatStencil(w), g, p, FieldStart(g, p, F, rest, 0.0));
    FieldStartInitialised(g, p, F, rest, 0.0);
    var ss := FirstRound(c);
    Here(c, ss);
    var mem := SyncInit(AsWritten, g, p, c.start)[0];
    ComputedAt(c.S, p, mem.cur, mem.nxt, Beside(p));
    assert WrongAt(c, F, Last(ss), 0, Beside(p));
    WrongRefutes(c, F, ss, 0, Beside(p));
  }

  // ----- computing from ghosts that are not there yet

  lemma {:induction false} LaterFacetsKeep(S: Stencil, p: Points, cur: seq<real>, nxt: seq<real>, k: nat, a: Coord)
    requires Buffers(p, cur, nxt) && 1 <= k <= 6 && Padded(p, a)
    requires forall j :: 1 <= j < 6 ==> !Dedup(p, FacetOf(j)).Has(a)
    ensures Read(p, LaterFacets(S, p, cur, nxt, k), a) == Read(p, nxt, a)
  {
    hide Points.Volume, Points.AreasFit, Dedup, Read, Box.Has, UpdateKernel;
    if k > 1 {
      LaterFacetsKeep(S, p, cur, nxt, k - 1, a);
      UpdatesWithinInner(p);
      UpdateKernelAt(S, p, cur, LaterFacets(S, p, cur, nxt, k - 1), Dedup(p, FacetOf(k - 1)), a);
    }
  }

  /** The rest of the timestep leaves facet XU alone. */
  lemma {:induction false} FinishedKeepsXU(c: Setup, k: Rank, a: Coord)
    requires Buffers(c.p, k.cur, k.nxt) && k.pc == Early(true) && Dedup(c.p, XU).Has(a) && Padded(c.p, a)
    ensures Read(c.p, Finished(c, k), a) == Read(c.p, k.nxt, a)
  {
    hide Points.Volume, Points.AreasFit, Dedup, Read, Box.Has, UpdateKernel, LaterFacets;
    PartitionCell(c.p, a);
    assert FacetOf(1) == XD && FacetOf(2) == YU && FacetOf(3) == YD && FacetOf(4) == ZU && FacetOf(5) == ZD;
    LaterFacetsKeep(c.S, c.p, k.cur, k.nxt, 6, a);
    UpdatesWithinInner(c.p);
    UpdateKernelAt(c.S, c.p, k.cur, LaterFacets(c.S, c.p, k.cur, k.nxt, 6), InteriorBox(c.p), a);
  }

  /** What rank 0 holds after its first timestep, before it unpacks anything. */
  ghost function Stale(S: Stencil, m: PackMode, g: Grid, p: Points, F: Field, behind: real): (sub: seq<real>)
    requires ValidSetup(g, p) && 0 < g.Ranks()
    ensures |sub| == p.Volume()
  {
    var mem := SyncInit(m, g, p, FieldStart(g, p, F, 0.0, behind))[0];
    Computed(S, p, mem.cur, mem.nxt)
  }

  lemma InitBehind(m: PackMode, g: Grid, p: Points, F: Field, behind: real)
    requires ValidSetup(g, p) && 0 < g.Ranks()
    ensures SyncInit(m, g, p, FieldStart(g, p, F, 0.0, behind))[0].nxt == Constant(p, behind)
  {
    hide Points.Volume, Grid.Ranks, Unpacked, InitReceived, FieldBuffer;
  }

  /** The first exchange does not notice the other buffer. */
  lemma {:induction false} InitIgnoresBehind(m: PackMode, g: Grid, p: Points, F: Field, behind: real, behind': real,
                                             c: Coord)
    requires ValidSetup(g, p) && 0 < g.Ranks() && Used(p, c) && Padded(p, c)
    ensures Read(p, SyncInit(m, g, p, FieldStart(g, p, F, 0.0, behind))[0].cur, c)
         == Read(p, SyncInit(m, g, p, FieldStart(g, p, F, 0.0, behind'))[0].cur, c)
  {
    hide Points.Valid, Points.AreasFit, Points.Volume, Grid.Valid, Grid.Ranks, Read, SyncInit, Neighbour, FieldBuffer,
         PackedValue;
    var one, two := FieldStart(g, p, F, 0.0, behind), FieldStart(g, p, F, 0.0, behind');
    if Inner(p, c) {
      InitInner(m, g, p, one, 0, c);
      InitInner(m, g, p, two, 0, c);
    } else {
      var f :| GhostOf(p, f, c);
      GhostsArePadded(p, f, c);
      InitGhost(m, g, p, one, 0, f, c);
      InitGhost(m, g, p, two, 0, f, c);
    }
  }

  /** The inner points do not notice it either, the ghosts hold nothing else. */
  lemma {:induction false} StaleAt(S: Stencil, m: PackMode, g: Grid, p: Points, F: Field, behind: real, behind': real,
                                   c: Coord)
    requires ValidSetup(g, p) && 0 < g.Ranks() && Padded(p, c)
    ensures Inner(p, c) ==> Read(p, Stale(S, m, g, p, F, behind), c) == Read(p, Stale(S, m, g, p, F, behind'), c)
    ensures !Inner(p, c) ==> Read(p, Stale(S, m, g, p, F, behind), c) == behind
  {
    hide Points.Volume, Points.Valid, Points.AreasFit, Grid.Ranks, Grid.Valid, SyncInit, Computed, Flat, Used,
         FieldStart;
    var mem, mem' := SyncInit(m, g, p, FieldStart(g, p, F, 0.0, behind))[0],
        SyncInit(m, g, p, FieldStart(g, p, F, 0.0, behind'))[0];
    InitBehind(m, g, p, F, behind);
    ComputedAt(S, p, mem.cur, mem.nxt, c);
    ComputedAt(S, p, mem'.cur, mem'.nxt, c);
    if Inner(p, c) {
      hide Read;
      StencilReadsUsed(p, c);
      InitIgnoresBehind(m, g, p, F, behind, behind', c);
      InitIgnoresBehind(m, g, p, F, behind, behind', c.(x := c.x - 1));
      InitIgnoresBehind(m, g, p, F, behind, behind', c.(x := c.x + 1));
      InitIgnoresBehind(m, g, p, F, behind, behind', c.(y := c.y - 1));
      InitIgnoresBehind(m, g, p, F, behind, behind', c.(y := c.y + 1));
      InitIgnoresBehind(m, g, p, F, behind, behind', c.(z := c.z - 1));
      InitIgnoresBehind(m, g, p, F, behind, behind', c.(z := c.z + 1));
    } else {
      FlatRoundTrip(p, c);
    }
  }

  /** The next update computes from them. */
  lemma {:induction false} BehindShows(w: real, m: PackMode, g: Grid, p: Points, F: Field)
    requires ValidSetup(g, p) && 0 < g.Ranks() && w != 0.0
    ensures Inner(p, Beside(p))
    ensures ApplyStencil(HeatStencil(w), p, Stale(HeatStencil(w), m, g, p, F, 0.0), Beside(p))
         != ApplyStencil(HeatStencil(w), p, Stale(HeatStencil(w), m, g, p, F, 1.0), Beside(p))
  {
    hide Points.Volume, Points.AreasFit, Points.Valid, Grid.Ranks, Grid.Valid, Stale, Read, HeatStencil, ApplyStencil;
    var S, a := HeatStencil(w), Beside(p);
    StaleAgrees(S, m, g, p, F, a);
    StaleAgrees(S, m, g, p, F, a.(x := a.x - 1));
    StaleAgrees(S, m, g, p, F, a.(x := a.x + 1));
    StaleAgrees(S, m, g, p, F, a.(y := a.y - 1));
    StaleAgrees(S, m, g, p, F, a.(y := a.y + 1));
    StaleAgrees(S, m, g, p, F, a.(z := a.z - 1));
    StaleAgrees(S, m, g, p, F, a.(z := a.z + 1));
    SurroundingsShow(w, p, Stale(S, m, g, p, F, 0.0), Stale(S, m, g, p, F, 1.0), a);
  }

  lemma {:induction false} StaleAgrees(S: Stencil, m: PackMode, g: Grid, p: Points, F: Field, c: Coord)
    requires ValidSetup(g, p) && 0 < g.Ranks() && Padded(p, c)
    ensures Read(p, Stale(S, m, g, p, F, 1.0), c) - Read(p, Stale(S, m, g, p, F, 0.0), c) == if Inner(p, c) then 0.0
            else 1.0
  {
    StaleAt(S, m, g, p, F, 0.0, 1.0, c);
    StaleAt(S, m, g, p, F, 1.0, 0.0, c);
  }

  /** A run in which rank 0 updates its first facet before it unpacks. */
  lemma {:induction false} StaleRun(c: Setup, F: Field, behind: real) returns (ss: seq<State>)
    requires ValidSetup(c.g, c.p) && c.start == FieldStart(c.g, c.p, F, 0.0, behind) && !c.own
    ensures IsRun(c, ss) && WellFormed(c, Last(ss)) && 0 < |Last(ss).ranks| && Last(ss).ranks[0].step == 2
    ensures Inner(c.p, Beside(c.p)) && Padded(c.p, Beside(c.p))
    ensures Read(c.p, Last(ss).ranks[0].cur, Beside(c.p))
         == ApplyStencil(c.S, c.p, Stale(c.S, c.m, c.g, c.p, F, behind), Beside(c.p))
  {
    hide IsRun, Points.Volume, Points.Valid, Points.AreasFit, Grid.Ranks, Grid.Valid, Computed, SyncInit, Read,
         Finished, UpdateFacets, AllPlaces, RecvBuffers, IsPlace, ApplyStencil, FieldStart;
    var a := Beside(c.p);
    var one := FirstRound(c);
    Here(c, one);
    var k := Last(one).ranks[0];
    assert Dedup(c.p, FacetOf(0)).Has(a);
    UpdateFacetsAt(c.S, c.p, k.cur, k.nxt, 1, a);
    var two := UpdateXU(c, one, 0);
    Here(c, two);
    var three := UnpackEveryone(c, two, 1, 0);
    Here(c, three);
    ss := Round(c, three, 1);
    Here(c, ss);
    FinishedKeepsXU(c, Last(three).ranks[0], a);
  }

  /** Without its own order the solver is wrong two timesteps after every start. */
  lemma {:induction false} UnorderedFails(w: real, peer: bool, m: PackMode, g: Grid, p: Points, F: Field)
    requires ValidSetup(g, p) && w != 0.0
    ensures !AllRunsRefine(HeatStencil(w), false, peer, m, g, p, F)
  {
    hide IsRun, Points.Volume, Points.Valid, Points.AreasFit, Grid.Ranks, Grid.Valid, Read, GlobalAt, Initialised,
         HeatStencil, FieldStart, ApplyStencil, WellFormed, Stale;
    AxisBounds(g);
    BehindShows(w, m, g, p, F);
    var a, S := Beside(p), HeatStencil(w);
    var behind := if ApplyStencil(S, p, Stale(S, m, g, p, F, 0.0), a) == GlobalAt(S, g, p, F, 2, 0, a) then 1.0
        else 0.0;
    var c := Setup(false, peer, m, S, g, p, FieldStart(g, p, F, 0.0, behind));
    FieldStartInitialised(g, p, F, 0.0, behind);
    var ss := StaleRun(c, F, behind);
    Here(c, ss);
    assert WrongAt(c, F, Last(ss), 0, a);
    WrongRefutes(c, F, ss, 0, a);
  }

  // ----- computing from ghosts of the next step

  /** The inner point beside a ghost point. */
  function InnerBeside(p: Points, f: Facet, d: Coord): Coord {
    match f
    case XU => d.(x := p.px) case XD => d.(x := 1)
    case YU => d.(y := p.py) case YD => d.(y := 1)
    case ZU => d.(z := p.pz) case ZD => d.(z := 1)
  }

  /** Exactly one of the six points around it is that ghost point. */
  lemma OneGhostBeside(p: Points, f: Facet, d: Coord)
    requires p.Countable() && GhostOf(p, f, d)
    ensures var a := InnerBeside(p, f, d);
            && Inner(p, a)
            && (a.(x := a.x + 1) == d <==> f == XU) && (a.(x := a.x - 1) == d <==> f == XD)
            && (a.(y := a.y + 1) == d <==> f == YU) && (a.(y := a.y - 1) == d <==> f == YD)
            && (a.(z := a.z + 1) == d <==> f == ZU) && (a.(z := a.z - 1) == d <==> f == ZD)
  {
  }

  /** One changed ghost changes the temperature beside it. */
  lemma {:induction false} GhostShows(w: real, p: Points, sub: seq<real>, f: Facet, d: Coord, v: real)
    requires |sub| == p.Volume() && p.Countable() && Padded(p, d) && GhostOf(p, f, d) && w != 0.0
             && Read(p, sub, d) != v
    ensures 0 <= Flat(p, d) < |sub| && Inner(p, InnerBeside(p, f, d))
    ensures ApplyStencil(HeatStencil(w), p, sub[Flat(p, d) := v], InnerBeside(p, f, d))
         != ApplyStencil(HeatStencil(w), p, sub, InnerBeside(p, f, d))
  {
    hide Points.Volume, Flat, ApplyStencil, HeatStencil, InnerBeside, GhostOf, Read;
    FlatRoundTrip(p, d);
    OneGhostBeside(p, f, d);
    var a, sub' := InnerBeside(p, f, d), sub[Flat(p, d) := v];
    ReadUpdated(p, sub, d, v, a);
    ReadUpdated(p, sub, d, v, a.(x := a.x - 1));
    ReadUpdated(p, sub, d, v, a.(x := a.x + 1));
    ReadUpdated(p, sub, d, v, a.(y := a.y - 1));
    ReadUpdated(p, sub, d, v, a.(y := a.y + 1));
    ReadUpdated(p, sub, d, v, a.(z := a.z - 1));
    ReadUpdated(p, sub, d, v, a.(z := a.z + 1));
    SurroundingsShow(w, p, sub', sub, a);
  }

  lemma ReadUpdated(p: Points, sub: seq<real>, d: Coord, v: real, c: Coord)
    requires |sub| == p.Volume() && Padded(p, d) && Padded(p, c)
    ensures 0 <= Flat(p, d) < |sub|
    ensures Read(p, sub[Flat(p, d) := v], c) == if c == d then v else Read(p, sub, c)
  {
    hide Points.Volume, Flat;
    FlatRoundTrip(p, c);
    FlatRoundTrip(p, d);
  }

  /** After the overtaken cell is unpacked rank r holds the right contents but for that cell. */
  lemma {:induction false} UnpackOvertaken(c: Setup, t: nat, r: nat, pl: Place) returns (ss: seq<State>)
    requires c.Valid() && !c.peer && 0 < t && r < c.g.Ranks() && IsPlace(c.p, pl) && Neighbour(c.g, r, pl.f) != r
    ensures IsRun(c, ss) && Underway(c, Last(ss), t, 0)
    ensures var k, mem := Last(ss).ranks[r], Mem(c, t, r);
            && k.pc == Early(false) && k.unpacked == AllPlaces(c.p) && k.nxt == mem.nxt
            && k.cur == mem.cur[GhostIndex(c.p, pl) := Delivered(c, t, r, pl)]
  {
    hide IsRun, Inv, Points.Volume, Grid.Ranks, BufferLen, Neighbour, Mem, Delivered, GhostIndex, UpdateFacets,
         SendBuffer, Computed, RecvBuffers;
    ss := Overtake(c, t, r, pl);
    Here(c, ss);
    var s := Last(ss);
    var k, mem := s.ranks[r], Mem(c, t, r);
    assert RankData(c, k, r) && SlotData(c, s.slots[Slot(r, pl)], r, pl);
    FacetsZero(c.S, c.p, mem.cur, mem.nxt);
    PlacesAreAll(c.p, pl);
    var s' := WithRank(s, r, k.(unpacked := k.unpacked + {pl},
                                cur := k.cur[GhostIndex(c.p, pl) := s.slots[Slot(r, pl)].value]));
    assert UnpackCell(c, s, s', r, pl);
    forall i | 0 <= i < |k.cur| && i != GhostIndex(c.p, pl)
      ensures !Pending(c.p, k, i)
    {
      OnlyPending(c.p, k, pl, i);
    }
    ss := AppendRank(c, ss, r, s');
  }

  lemma OnlyPending(p: Points, k: Rank, pl: Place, i: nat)
    requires p.Valid() && IsPlace(p, pl) && k.unpacked == AllPlaces(p) - {pl}
    ensures Pending(p, k, i) ==> i == GhostIndex(p, pl)
  {
    hide GhostIndex, Points.Valid, BufferLen;
    if q :| IsPlace(p, q) && q !in k.unpacked && GhostIndex(p, q) == i {
      PlacesAreAll(p, q);
    }
  }

  /** Without the order between peers the solver is wrong as soon as what travels has changed. */
  lemma {:induction false} OvertakenFails(w: real, own: bool, g: Grid, p: Points, F: Field)
    requires ValidSetup(g, p) && w != 0.0 && !Settled(HeatStencil(w), g, p, F)
    ensures !AllRunsRefine(HeatStencil(w), own, false, Documented, g, p, F)
  {
    hide IsRun, Points.Volume, Points.Valid, Points.AreasFit, Grid.Ranks, Grid.Valid, Neighbour, GlobalAt,
         HeatStencil, FieldStart, Initialised, Mem, Halo, BufferLen, BoxIndex;
    var c := Setup(own, false, Documented, HeatStencil(w), g, p, FieldStart(g, p, F, 0.0, 0.0));
    FieldStartInitialised(g, p, F, 0.0, 0.0);
    var t: nat, r: nat, f: Facet, d: Coord :|
      0 < t && r < g.Ranks() && Padded(p, d) && GhostOf(p, f, d) && Neighbour(g, r, f) != r
      && GlobalAt(c.S, g, p, F, t, r, d) != GlobalAt(c.S, g, p, F, t + 1, r, d);
    GhostIndexOf(p, f, d);
    OvertakenWrong(c, F, w, t, r, f, d);
  }

  lemma {:induction false} OvertakenWrong(c: Setup, F: Field, w: real, t: nat, r: nat, f: Facet, d: Coord)
    requires c.Valid() && Initialised(c.g, c.p, F, c.start) && !c.peer && c.m == Documented && c.S == HeatStencil(w)
             && w != 0.0
    requires 0 < t && r < c.g.Ranks() && Padded(c.p, d) && GhostOf(c.p, f, d) && Neighbour(c.g, r, f) != r
    requires GlobalAt(c.S, c.g, c.p, F, t, r, d) != GlobalAt(c.S, c.g, c.p, F, t + 1, r, d)
    ensures !AllRunsRefine(c.S, c.own, c.peer, c.m, c.g, c.p, F)
  {
    hide IsRun, Points.Volume, Points.Valid, Points.AreasFit, Grid.Ranks, Grid.Valid, Neighbour, HeatStencil,
         Initialised, Halo, BufferLen, BoxIndex, Computed, SyncRun, Finished, Delivered, Read, GlobalRun, Glue, Mesh,
         ApplyStencil, GhostIndex, AllPlaces, RecvBuffers;
    GhostIndexOf(c.p, f, d);
    var pl := Place(f, BoxIndex(Halo(c.p, f), d));
    var a, mem := InnerBeside(c.p, f, d), Mem(c, t, r);
    var ss := UnpackOvertaken(c, t, r, pl);
    Here(c, ss);
    var k := Last(ss).ranks[r];
    var tt := UnpackEveryone(c, ss, t, 0);
    Here(c, tt);
    var uu := Round(c, tt, t);
    Here(c, uu);
    FinishedIsComputed(c, k);
    SyncRefinesGlobal(c.S, c.g, c.p, F, c.start, t);
    GhostIsUsed(c.p, f, d);
    DeliveredAt(c, F, t, r, f, d);
    GhostShows(w, c.p, mem.cur, f, d, Delivered(c, t, r, pl));
    StencilIsGlobalStep(c.S, c.g, c.p, F, SyncRun(c.m, c.S, c.g, c.p, c.start, t), t, r, a);
    ComputedAt(c.S, c.p, k.cur, k.nxt, a);
    assert WrongAt(c, F, Last(uu), r, a);
    WrongRefutes(c, F, uu, r, a);
  }

  lemma GhostIsUsed(p: Points, f: Facet, d: Coord)
    requires GhostOf(p, f, d)
    ensures Used(p, d)
  {
  }

  lemma {:induction false} DeliveredAt(c: Setup, F: Field, t: nat, r: nat, f: Facet, d: Coord)
    requires c.Valid() && c.m == Documented && Initialised(c.g, c.p, F, c.start) && r < c.g.Ranks()
    requires Padded(c.p, d) && GhostOf(c.p, f, d) && 0 <= BoxIndex(Halo(c.p, f), d) < BufferLen(c.p, f)
    ensures Delivered(c, t, r, Place(f, BoxIndex(Halo(c.p, f), d))) == GlobalAt(c.S, c.g, c.p, F, t + 1, r, d)
  {
    hide Initialised, Glue, GlobalRun, Mesh, Points.Volume, Points.Valid, Grid.Ranks, ReceivedFacet, BufferLen,
         BoxIndex, SyncRun, Faithful;
    SyncRefinesGlobal(c.S, c.g, c.p, F, c.start, t);
    StepGhost(c.S, c.g, c.p, F, SyncRun(c.m, c.S, c.g, c.p, c.start, t), t, r, f, d);
  }

  // ----- the exact conditions

  /** Exact condition, for every rank grid, sub-domain size, initial field and every weight but zero:
      all concurrent runs refine the global periodic computation if and only if a rank unpacks before
      it updates, the packing is the documented one, and the peers are ordered or nothing that
      travels between different ranks changes any more. */
  lemma {:induction false} AllRunsRefineIff(w: real, own: bool, peer: bool, m: PackMode, g: Grid, p: Points, F: Field)
    requires ValidSetup(g, p) && w != 0.0
    ensures AllRunsRefine(HeatStencil(w), own, peer, m, g, p, F)
       <==> own && m == Documented && (peer || Settled(HeatStencil(w), g, p, F))
  {
    hide IsRun, Points.Volume, Grid.Ranks, WellFormed, Initialised, HeatStencil, Settled, RefinesAt;
    var S := HeatStencil(w);
    if !own {
      UnorderedFails(w, peer, m, g, p, F);
    } else if m == AsWritten {
      AsWrittenFailsConcurrently(w, own, peer, g, p, F);
    } else if !peer && !Settled(S, g, p, F) {
      OvertakenFails(w, own, g, p, F);
    } else {
      forall c: Setup, ss: seq<State>, i: nat |
        c == Setup(own, peer, m, S, g, p, c.start) && c.Valid() && Initialised(g, p, F, c.start) && IsRun(c, ss)
          && i < |ss|
        ensures RefinesAt(c, F, ss[i])
      {
        OrderedRefines(c, F, ss, i);
      }
    }
  }

  lemma {:induction false} OrderedRefines(c: Setup, F: Field, ss: seq<State>, i: nat)
    requires c.Valid() && c.m == Documented && Initialised(c.g, c.p, F, c.start) && IsRun(c, ss) && i < |ss|
    requires c.own && (c.peer || Settled(c.S, c.g, c.p, F))
    ensures RefinesAt(c, F, ss[i])
  {
    hide IsRun, Points.Volume, Grid.Ranks, Initialised, Read, Glue, GlobalRun, Mesh, RecvBuffers, IsPlace, Settled;
    RunInv(c, ss, i);
    InvFacts(c, ss[i]);
    forall r, d | 0 <= r < |ss[i].ranks| && Padded(c.p, d) && Inner(c.p, d)
      ensures Read(c.p, ss[i].ranks[r].cur, d) == GlobalAt(c.S, c.g, c.p, F, ss[i].ranks[r].step, r, d)
    {
      ConcurrentRefinesGlobal(c, F, ss, i, r, d);
    }
  }

  // ----- fields that have not settled

  /** thermalConductivity * deltaTime / deltaSpace^2 with deltaTime = deltaSpace^2 / (8.1 * thermalConductivity). */
  const WEIGHT := 10.0 / 81.0

  /** One hot point. */
  ghost function OneHot(hot: Coord): Field {
    (c: Coord) => if c == hot then 1.0 else 0.0
  }

  function Is(c: Coord, d: Coord): int { if c == d then 1 else 0 }

  /** How many of the six periodic neighbours of c are the hot point. */
  function HotNeighbours(mesh: Grid, hot: Coord, c: Coord): int
    requires InGrid(mesh, c)
  {
    Is(c.(x := Prev(mesh.nx, c.x)), hot) + Is(c.(x := Next(mesh.nx, c.x)), hot) +
    Is(c.(y := Prev(mesh.ny, c.y)), hot) + Is(c.(y := Next(mesh.ny, c.y)), hot) +
    Is(c.(z := Prev(mesh.nz, c.z)), hot) + Is(c.(z := Next(mesh.nz, c.z)), hot)
  }

  /** The number h + w * e. */
  datatype Linear = Linear(h: int, e: int) {
    ghost function At(w: real): real { h as real + w * (e as real) }

    function Plus(that: Linear): Linear { Linear(h + that.h, e + that.e) }

    function Minus6(that: Linear): Linear { Linear(h - 6 * that.h, e - 6 * that.e) }
  }

  lemma LinearArithmetic(w: real, a: Linear, b: Linear)
    ensures a.Plus(b).At(w) == a.At(w) + b.At(w)
    ensures a.Minus6(b).At(w) == a.At(w) - 6.0 * b.At(w)
  {
    assert w * ((a.e + b.e) as real) == w * (a.e as real) + w * (b.e as real);
    assert w * ((a.e - 6 * b.e) as real) == w * (a.e as real) - 6.0 * (w * (b.e as real));
  }

  /** Field values after one step from a hot point. */
  function HotLinear(mesh: Grid, hot: Coord, c: Coord): Linear
    requires InGrid(mesh, c)
  {
    Linear(Is(c, hot), HotNeighbours(mesh, hot, c) - 6 * Is(c, hot))
  }

  lemma HeatIs(w: real, xd: real, xu: real, yd: real, yu: real, zd: real, zu: real, c: real)
    ensures HeatStencil(w)(xd, xu, yd, yu, zd, zu, c) == c + w * (xd + xu + yd + yu + zd + zu - 6.0 * c)
  {
  }

  lemma {:induction false} HotAfterOne(w: real, mesh: Grid, hot: Coord, c: Coord)
    requires InGrid(mesh, c)
    ensures GlobalRun(HeatStencil(w), mesh, OneHot(hot), 1, c) == HotLinear(mesh, hot, c).At(w)
  {
    assert forall d :: InGrid(mesh, d) ==> GlobalRun(HeatStencil(w), mesh, OneHot(hot), 0, d) == OneHot(hot)(d);
  }

  /** An integer combination that vanishes for the program's weight. */
  lemma {:induction false} WeightIsNoRatio(v: Linear)
    requires v.At(WEIGHT) == 0.0
    ensures v.h % 10 == 0
  {
    assert 81.0 * (v.h as real) + 10.0 * (v.e as real) == 0.0;
    assert (81 * v.h + 10 * v.e) as real == 0.0;
  }

  lemma {:induction false} NoStep(w: real, c: real, flow: real)
    requires w != 0.0 && flow != 0.0
    ensures c + w * flow != c
  {
  }

  /** What flows into the hot point in the second step. */
  function HotFlow(mesh: Grid, hot: Coord): Linear
    requires InGrid(mesh, hot)
  {
    HotLinear(mesh, hot, hot.(x := Prev(mesh.nx, hot.x))).Plus(
    HotLinear(mesh, hot, hot.(x := Next(mesh.nx, hot.x)))).Plus(
    HotLinear(mesh, hot, hot.(y := Prev(mesh.ny, hot.y)))).Plus(
    HotLinear(mesh, hot, hot.(y := Next(mesh.ny, hot.y)))).Plus(
    HotLinear(mesh, hot, hot.(z := Prev(mesh.nz, hot.z)))).Plus(
    HotLinear(mesh, hot, hot.(z := Next(mesh.nz, hot.z)))).Minus6(HotLinear(mesh, hot, hot))
  }

  lemma HotFlows(mesh: Grid, hot: Coord)
    requires InGrid(mesh, hot) && mesh.nx > 1
    ensures -6 <= HotFlow(mesh, hot).h <= -2
  {
    hide HotNeighbours;
  }

  lemma {:induction false} FlowSum(w: real, a: Linear, b: Linear, c: Linear, d: Linear, e: Linear, f: Linear, m: Linear)
    ensures a.Plus(b).Plus(c).Plus(d).Plus(e).Plus(f).Minus6(m).At(w)
         == a.At(w) + b.At(w) + c.At(w) + d.At(w) + e.At(w) + f.At(w) - 6.0 * m.At(w)
  {
    hide *;
    LinearArithmetic(w, a, b);
    LinearArithmetic(w, a.Plus(b), c);
    LinearArithmetic(w, a.Plus(b).Plus(c), d);
    LinearArithmetic(w, a.Plus(b).Plus(c).Plus(d), e);
    LinearArithmetic(w, a.Plus(b).Plus(c).Plus(d).Plus(e), f);
    LinearArithmetic(w, a.Plus(b).Plus(c).Plus(d).Plus(e).Plus(f), m);
  }

  lemma GlobalNext(S: Stencil, mesh: Grid, F: Field, t: nat, c: Coord)
    requires InGrid(mesh, c)
    ensures GlobalRun(S, mesh, F, t + 1, c)
         == S(GlobalRun(S, mesh, F, t, c.(x := Prev(mesh.nx, c.x))),
              GlobalRun(S, mesh, F, t, c.(x := Next(mesh.nx, c.x))),
              GlobalRun(S, mesh, F, t, c.(y := Prev(mesh.ny, c.y))),
              GlobalRun(S, mesh, F, t, c.(y := Next(mesh.ny, c.y))),
              GlobalRun(S, mesh, F, t, c.(z := Prev(mesh.nz, c.z))),
              GlobalRun(S, mesh, F, t, c.(z := Next(mesh.nz, c.z))),
              GlobalRun(S, mesh, F, t, c))
  {
  }

  /** The second step adds it. */
  lemma {:induction false} HotAfterTwo(w: real, mesh: Grid, hot: Coord)
    requires InGrid(mesh, hot)
    ensures GlobalRun(HeatStencil(w), mesh, OneHot(hot), 2, hot)
         == GlobalRun(HeatStencil(w), mesh, OneHot(hot), 1, hot) + w * HotFlow(mesh, hot).At(w)
  {
    hide HeatStencil, GlobalRun, HotLinear, Linear.At, Linear.Plus, Linear.Minus6, OneHot;
    var xd, xu := hot.(x := Prev(mesh.nx, hot.x)), hot.(x := Next(mesh.nx, hot.x));
    var yd, yu := hot.(y := Prev(mesh.ny, hot.y)), hot.(y := Next(mesh.ny, hot.y));
    var zd, zu := hot.(z := Prev(mesh.nz, hot.z)), hot.(z := Next(mesh.nz, hot.z));
    hide Next, Prev;
    HotAfterOne(w, mesh, hot, hot);
    HotAfterOne(w, mesh, hot, xd);
    HotAfterOne(w, mesh, hot, xu);
    HotAfterOne(w, mesh, hot, yd);
    HotAfterOne(w, mesh, hot, yu);
    HotAfterOne(w, mesh, hot, zd);
    HotAfterOne(w, mesh, hot, zu);
    FlowSum(w, HotLinear(mesh, hot, xd), HotLinear(mesh, hot, xu), HotLinear(mesh, hot, yd), HotLinear(mesh, hot, yu),
            HotLinear(mesh, hot, zd), HotLinear(mesh, hot, zu), HotLinear(mesh, hot, hot));
    GlobalNext(HeatStencil(w), mesh, OneHot(hot), 1, hot);
    HeatIs(w, HotLinear(mesh, hot, xd).At(w), HotLinear(mesh, hot, xu).At(w), HotLinear(mesh, hot, yd).At(w),
           HotLinear(mesh, hot, yu).At(w),
           HotLinear(mesh, hot, zd).At(w), HotLinear(mesh, hot, zu).At(w), HotLinear(mesh, hot, hot).At(w));
  }

  /** The hot point itself changes from the first step to the second. */
  lemma {:induction false} HotIsNotSettled(mesh: Grid, hot: Coord)
    requires InGrid(mesh, hot) && mesh.nx > 1
    ensures GlobalRun(HeatStencil(WEIGHT), mesh, OneHot(hot), 1, hot)
         != GlobalRun(HeatStencil(WEIGHT), mesh, OneHot(hot), 2, hot)
  {
    hide HeatStencil, GlobalRun, HotFlow, Linear.At, OneHot;
    HotFlows(mesh, hot);
    HotAfterTwo(WEIGHT, mesh, hot);
    var flow := HotFlow(mesh, hot);
    if flow.At(WEIGHT) == 0.0 {
      WeightIsNoRatio(flow);
    } else {
      NoStep(WEIGHT, GlobalRun(HeatStencil(WEIGHT), mesh, OneHot(hot), 1, hot), flow.At(WEIGHT));
    }
  }

  /** Some ghost point of facet f. */
  function SomeGhost(p: Points, f: Facet): Coord {
    match f
    case XU => Coord(p.px + 1, 1, 1) case XD => Coord(0, 1, 1)
    case YU => Coord(1, p.py + 1, 1) case YD => Coord(1, 0, 1)
    case ZU => Coord(1, 1, p.pz + 1) case ZD => Coord(1, 1, 0)
  }

  lemma {:induction false} SomeFieldIsNotSettled(g: Grid, p: Points) returns (F: Field)
    requires ValidSetup(g, p) && g.Ranks() > 1
    ensures !Settled(HeatStencil(WEIGHT), g, p, F)
  {
    hide Points.Volume, Points.Valid, Points.AreasFit, Grid.Ranks, Grid.Valid, Neighbour, Glue, GlobalRun, HeatStencil;
    var f := SomeOtherNeighbour(g);
    var d := SomeGhost(p, f);
    assert GhostOf(p, f, d) && Padded(p, d);
    var hot := Glue(g, p, 0, d);
    AxisBounds(g);
    MulMono(1, g.nx, p.px);
    F := OneHot(hot);
    HotIsNotSettled(Mesh(g, p), hot);
    assert GlobalAt(HeatStencil(WEIGHT), g, p, F, 1, 0, d) != GlobalAt(HeatStencil(WEIGHT), g, p, F, 2, 0, d);
  }

  lemma {:induction false} AloneIsSettled(S: Stencil, g: Grid, p: Points, F: Field)
    requires ValidSetup(g, p) && g.Ranks() == 1
    ensures Settled(S, g, p, F)
  {
    hide Points.Volume, Points.Valid, Points.AreasFit, Grid.Ranks, Grid.Valid, Neighbour, GlobalAt;
    forall f
      ensures Neighbour(g, 0, f) == 0
    {
      AloneIsOwnNeighbour(g, f);
    }
  }

  /** Exact condition for all initial fields at once, with the program's own weight: a rank unpacks
      before it updates, the packing is the documented one, and the peers are ordered or there is a
      single rank. */
  lemma {:induction false} EveryFieldRefinesIff(own: bool, peer: bool, m: PackMode, g: Grid, p: Points)
    requires ValidSetup(g, p)
    ensures (forall F :: AllRunsRefine(HeatStencil(WEIGHT), own, peer, m, g, p, F))
       <==> own && m == Documented && (peer || g.Ranks() == 1)
  {
    hide AllRunsRefine, Settled, HeatStencil, Points.Volume, Points.Valid, Points.AreasFit, Grid.Ranks;
    AxisBounds(g);
    var S := HeatStencil(WEIGHT);
    if own && m == Documented && (peer || g.Ranks() == 1) {
      forall F
        ensures AllRunsRefine(S, own, peer, m, g, p, F)
      {
        AllRunsRefineIff(WEIGHT, own, peer, m, g, p, F);
        if g.Ranks() == 1 {
          AloneIsSettled(S, g, p, F);
        }
      }
    } else {
      var F := OneHot(Coord(0, 0, 0));
      if g.Ranks() > 1 {
        F := SomeFieldIsNotSettled(g, p);
      }
      AllRunsRefineIff(WEIGHT, own, peer, m, g, p, F);
    }
  }
}
