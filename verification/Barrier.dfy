/** The parent and its workers synchronising over per-worker pipes: every interleaving. */
module Barrier {
  import LinearIndex

  const SYNC_CHAR := '$'

  /** What the parent does, in order; the argument is the process index. */
  datatype Op = Wait(p: nat) | Signal(p: nat)

  datatype Phase = Waiting | Signalling

  /** Iteration, inner loop and process index of ProcessGroup::synchronizeAll. */
  datatype Parent = Parent(iteration: nat, phase: Phase, i: nat)

  /** What a worker's implementation does: how often it synchronises, and whether it reports Success. */
  datatype Plan = Plan(syncs: nat, ok: bool)

  /** Where a worker is: in its implementation, in the drain loop of a failed one, at the end of its
      process, or killed by the check for too many synchronisations. */
  datatype Life = Implementing | Draining | Exited | Died

  datatype IoOp = Written(c: char) | Read(c: char)

  /** Calls of synchronize a worker has entered and returned from, and what it has written and read. */
  datatype Worker = Worker(life: Life, entered: nat, returned: nat, log: seq<IoOp>) {
    predicate Waiting() { returned < entered }
    predicate Gone() { life == Exited || life == Died }
  }

  /** up and down are the pipes towards and from the parent; log is what the parent has done. */
  datatype State = State(workers: seq<Worker>, up: seq<string>, down: seq<string>, parent: Parent,
                         log: seq<Op>, failed: bool)

  /** The parent expects the same number of iterations of every worker. */
  datatype Setup = Setup(expected: nat, plans: seq<Plan>) {
    /** No implementation reports Success after too few synchronisations. */
    predicate Complete() {
      forall p :: 0 <= p < |plans| && plans[p].ok ==> plans[p].syncs >= expected
    }
  }

  predicate WellFormed(c: Setup, s: State) {
    |s.workers| == |s.up| == |s.down| == |c.plans| && (s.parent.i < |s.workers| || s.parent.i == 0 == |s.workers|)
  }

  predicate ParentDone(c: Setup, s: State) {
    |c.plans| == 0 || s.parent.iteration == c.expected
  }

  // ----- transitions

  /** A worker calls synchronize, from its implementation or from the drain loop, and writes its
      character. */
  predicate Enter(c: Setup, s: State, s': State, p: nat)
    requires WellFormed(c, s) && p < |s.workers|
  {
    var w := s.workers[p];
    && !w.Waiting() && w.entered < c.expected
    && (w.life == Draining || (w.life == Implementing && w.entered < c.plans[p].syncs))
    && s' == s.(workers := s.workers[p := w.(entered := w.entered + 1, log := w.log + [Written(SYNC_CHAR)])],
                up := s.up[p := s.up[p] + [SYNC_CHAR]])
  }

  /** A waiting worker reads one character: line ends are skipped, any other stranger is fatal. */
  predicate Receive(c: Setup, s: State, s': State, p: nat)
    requires WellFormed(c, s) && p < |s.workers|
  {
    var w := s.workers[p];
    && w.Waiting() && s.down[p] != ""
    && var ch := s.down[p][0];
       var s1 := s.(down := s.down[p := s.down[p][1..]], workers := s.workers[p := w.(log := w.log + [Read(ch)])]);
       s' == if ch == '\n' || ch == '\r' then s1
             else if ch == SYNC_CHAR then s1.(workers := s1.workers[p := s1.workers[p].(returned := w.returned + 1)])
             else s1.(failed := true)
  }

  /** Where a worker goes when it neither synchronises nor waits. */
  function NextLife(c: Setup, p: nat, w: Worker): Life
    requires p < |c.plans|
  {
    if w.life == Implementing && w.entered == c.plans[p].syncs then (if c.plans[p].ok then Exited else Draining)
    else if w.life == Implementing && w.entered == c.expected then Died
    else if w.life == Draining && w.entered >= c.expected then Exited
    else w.life
  }

  /** The implementation returns, a call too many kills the process, or the drain loop ends. */
  predicate MoveOn(c: Setup, s: State, s': State, p: nat)
    requires WellFormed(c, s) && p < |s.workers|
  {
    var w := s.workers[p];
    && !w.Waiting() && NextLife(c, p, w) != w.life
    && s' == s.(workers := s.workers[p := w.(life := NextLife(c, p, w))])
  }

  predicate WorkerStep(c: Setup, s: State, s': State, p: nat)
    requires WellFormed(c, s) && p < |s.workers|
  {
    Enter(c, s, s', p) || Receive(c, s, s', p) || MoveOn(c, s, s', p)
  }

  function Advance(c: Setup, q: Parent): Parent {
    if q.i + 1 < |c.plans| then q.(i := q.i + 1)
    else if q.phase == Waiting then Parent(q.iteration, Signalling, 0)
    else Parent(q.iteration + 1, Waiting, 0)
  }

  predicate ParentStep(c: Setup, s: State, s': State)
    requires WellFormed(c, s)
  {
    var q, i := s.parent, s.parent.i;
    && !ParentDone(c, s)
    && if q.phase == Waiting then
         && s.up[i] != ""
         && s' == s.(up := s.up[i := s.up[i][1..]], parent := Advance(c, q), log := s.log + [Wait(i)],
                     failed := s.failed || s.up[i][0] != SYNC_CHAR)
       else
         s' == s.(down := s.down[i := s.down[i] + [SYNC_CHAR]], parent := Advance(c, q), log := s.log + [Signal(i)])
  }

  ghost predicate Step(c: Setup, s: State, s': State)
    requires WellFormed(c, s)
  {
    && !s.failed
    && (ParentStep(c, s, s') || exists p :: 0 <= p < |s.workers| && WorkerStep(c, s, s', p))
  }

  predicate Init(c: Setup, s: State) {
    && WellFormed(c, s)
    && s.parent == Parent(0, Waiting, 0) && s.log == [] && !s.failed
    && forall p :: 0 <= p < |s.workers| ==>
         s.workers[p] == Worker(Implementing, 0, 0, []) && s.up[p] == "" && s.down[p] == ""
  }

  ghost predicate IsRun(c: Setup, ss: seq<State>) {
    && |ss| > 0 && Init(c, ss[0])
    && forall k :: 0 <= k < |ss| - 1 ==> WellFormed(c, ss[k]) && Step(c, ss[k], ss[k + 1])
  }

  // ----- characters that do not belong there

  /** A waiting worker skips a line end and dies of any other stranger; so does the parent. Nothing
      moves after that. No run gets there, but the pipes could carry anything. */
  lemma {:induction false} Strangers(c: Setup, s: State, s': State, p: nat)
    requires WellFormed(c, s) && p < |s.workers|
    ensures Receive(c, s, s', p) ==> s.down[p] != "" && s'.down[p] == s.down[p][1..] && s'.log == s.log
    ensures Receive(c, s, s', p) && s.down[p][0] in {'\n', '\r'} ==>
              s'.failed == s.failed && s'.workers[p].returned == s.workers[p].returned
    ensures Receive(c, s, s', p) && s.down[p][0] == '$' ==>
              s'.failed == s.failed && s'.workers[p].returned == s.workers[p].returned + 1
    ensures Receive(c, s, s', p) && s.down[p][0] !in {'\n', '\r', '$'} ==>
              s'.failed && s'.workers[p].returned == s.workers[p].returned
    ensures ParentStep(c, s, s') && s.parent.phase == Waiting ==>
              s.up[s.parent.i] != "" && (s'.failed <==> s.failed || s.up[s.parent.i][0] != '$')
    ensures s.failed ==> !Step(c, s, s')
  {
  }

  // ----- the invariant

  /** Characters the parent has taken from and sent to process p. */
  function Taken(s: State, p: nat): nat {
    s.parent.iteration + (if s.parent.phase == Signalling || p < s.parent.i then 1 else 0)
  }

  function Sent(s: State, p: nat): nat {
    s.parent.iteration + (if s.parent.phase == Signalling && p < s.parent.i then 1 else 0)
  }

  predicate OnlySync(t: string) {
    forall k :: 0 <= k < |t| ==> t[k] == SYNC_CHAR
  }

  /** Write, read, write, read, ... */
  function Alternating(n: nat): seq<IoOp> {
    if n == 0 then [] else Alternating(n - 1) + [Written(SYNC_CHAR), Read(SYNC_CHAR)]
  }

  /** What a worker's place in its life says about its count and its plan. */
  predicate LifeInv(expected: nat, plan: Plan, w: Worker) {
    && w.returned <= w.entered <= w.returned + 1 && w.entered <= expected
    && w.log == Alternating(w.returned) + (if w.Waiting() then [Written(SYNC_CHAR)] else [])
    && match w.life
       case Implementing => w.entered <= plan.syncs
       case Draining => !plan.ok && plan.syncs <= w.entered
       case Exited => !w.Waiting() && w.entered == (if plan.ok then plan.syncs else expected) && plan.syncs <= expected
       case Died => !w.Waiting() && w.entered == expected < plan.syncs
  }

  predicate Inv(c: Setup, s: State) {
    && WellFormed(c, s) && !s.failed
    && s.parent.iteration <= c.expected
    && (s.parent.iteration == c.expected ==> s.parent.phase == Waiting && s.parent.i == 0)
    && (forall p :: 0 <= p < |s.workers| ==>
          var w := s.workers[p];
          && LifeInv(c.expected, c.plans[p], w)
          && Taken(s, p) + |s.up[p]| == w.entered && OnlySync(s.up[p])
          && w.returned + |s.down[p]| == Sent(s, p) && OnlySync(s.down[p]))
  }

  lemma EnterKeepsInv(c: Setup, s: State, s': State, p: nat)
    requires Inv(c, s) && p < |s.workers| && Enter(c, s, s', p)
    ensures Inv(c, s')
  {
  }

  lemma ReceiveKeepsInv(c: Setup, s: State, s': State, p: nat)
    requires Inv(c, s) && p < |s.workers| && Receive(c, s, s', p)
    ensures Inv(c, s')
  {
  }

  lemma MoveOnKeepsInv(c: Setup, s: State, s': State, p: nat)
    requires Inv(c, s) && p < |s.workers| && MoveOn(c, s, s', p)
    ensures Inv(c, s')
  {
  }

  lemma ParentKeepsInv(c: Setup, s: State, s': State)
    requires Inv(c, s) && ParentStep(c, s, s')
    ensures Inv(c, s')
  {
    var i := s.parent.i;
    assert forall p :: 0 <= p < |s.workers| && p != i ==> s'.up[p] == s.up[p] && s'.down[p] == s.down[p];
  }

  lemma {:induction false} StepKeepsInv(c: Setup, s: State, s': State)
    requires Inv(c, s) && Step(c, s, s')
    ensures Inv(c, s')
  {
    hide Enter, Receive, MoveOn, ParentStep;
    if ParentStep(c, s, s') {
      ParentKeepsInv(c, s, s');
    } else {
      var p :| 0 <= p < |s.workers| && WorkerStep(c, s, s', p);
      if Enter(c, s, s', p) {
        EnterKeepsInv(c, s, s', p);
      } else if Receive(c, s, s', p) {
        ReceiveKeepsInv(c, s, s', p);
      } else {
        MoveOnKeepsInv(c, s, s', p);
      }
    }
  }

  lemma {:induction false} RunInv(c: Setup, ss: seq<State>, k: nat)
    requires IsRun(c, ss) && k < |ss|
    ensures Inv(c, ss[k])
  {
    hide Inv, Step;
    if k == 0 {
      assert Inv(c, ss[0]) by { InitInv(c, ss[0]); }
    } else {
      RunInv(c, ss, k - 1);
      StepKeepsInv(c, ss[k - 1], ss[k]);
    }
  }

  lemma InitInv(c: Setup, s: State)
    requires Init(c, s)
    ensures Inv(c, s)
  {
  }

  /** Barrier safety: in every state of every run no worker has returned from more calls than any
      worker has entered, each pipe holds at most one character, and nobody has failed. */
  lemma {:induction false} BarrierSafety(c: Setup, ss: seq<State>, k: nat, p: nat, q: nat)
    requires IsRun(c, ss) && k < |ss| && p < |c.plans| && q < |c.plans|
    ensures WellFormed(c, ss[k]) && !ss[k].failed
    ensures ss[k].workers[p].returned <= ss[k].workers[q].entered
    ensures |ss[k].up[p]| <= 1 && |ss[k].down[p]| <= 1
  {
    RunInv(c, ss, k);
  }

  // ----- the parent's order of operations

  function Waits(n: nat): seq<Op> { seq(n, i requires 0 <= i => Wait(i)) }
  function Signals(n: nat): seq<Op> { seq(n, i requires 0 <= i => Signal(i)) }

  /** k rounds over n processes: wait for all, then signal all. */
  function Rounds(n: nat, k: nat): seq<Op> {
    if k == 0 then [] else Rounds(n, k - 1) + Waits(n) + Signals(n)
  }

  ghost predicate LogInv(c: Setup, s: State) {
    s.log == Rounds(|c.plans|, s.parent.iteration) +
             if s.parent.phase == Waiting then Waits(s.parent.i) else Waits(|c.plans|) + Signals(s.parent.i)
  }

  lemma ParentKeepsLog(c: Setup, s: State, s': State)
    requires Inv(c, s) && LogInv(c, s) && ParentStep(c, s, s')
    ensures LogInv(c, s')
  {
    var i, n := s.parent.i, |c.plans|;
    assert Waits(i) + [Wait(i)] == Waits(i + 1);
    assert Signals(i) + [Signal(i)] == Signals(i + 1);
    if i + 1 == n {
      assert Waits(0) == [] && Signals(0) == [];
      if s.parent.phase == Waiting {
        assert s'.log == Rounds(n, s.parent.iteration) + (Waits(n) + Signals(0));
      } else {
        assert s'.log == Rounds(n, s.parent.iteration) + Waits(n) + Signals(n);
      }
    }
  }

  lemma {:induction false} RunLog(c: Setup, ss: seq<State>, k: nat)
    requires IsRun(c, ss) && k < |ss|
    ensures LogInv(c, ss[k])
  {
    if k > 0 {
      RunLog(c, ss, k - 1);
      RunInv(c, ss, k - 1);
      if ParentStep(c, ss[k - 1], ss[k]) {
        ParentKeepsLog(c, ss[k - 1], ss[k]);
      }
    }
  }

  // ----- progress

  /** Operations a worker still has to do, and changes of its life. */
  function WorkerLeft(expected: nat, w: Worker): int {
    2 * expected - w.entered - w.returned + (match w.life case Implementing => 2 case Draining => 1 case _ => 0)
  }

  function WorkersLeft(expected: nat, ws: seq<Worker>): int {
    if ws == [] then 0 else WorkersLeft(expected, ws[..|ws| - 1]) + WorkerLeft(expected, ws[|ws| - 1])
  }

  /** n processes, d iterations. */
  function RoundsLeft(n: nat, d: nat): nat {
    if d == 0 then 0 else 2 * n + RoundsLeft(n, d - 1)
  }

  function ParentLeft(c: Setup, q: Parent): int
    requires q.iteration <= c.expected
  {
    RoundsLeft(|c.plans|, c.expected - q.iteration) - (if q.phase == Waiting then q.i else |c.plans| + q.i)
  }

  function Left(c: Setup, s: State): int
    requires s.parent.iteration <= c.expected
  {
    WorkersLeft(c.expected, s.workers) + ParentLeft(c, s.parent)
  }

  lemma {:induction false} WorkersLeftUpdate(expected: nat, ws: seq<Worker>, p: nat, w: Worker)
    requires p < |ws|
    ensures WorkersLeft(expected, ws[p := w])
         == WorkersLeft(expected, ws) - WorkerLeft(expected, ws[p]) + WorkerLeft(expected, w)
  {
    hide WorkerLeft;
    var n := |ws| - 1;
    if p < n {
      assert ws[p := w][..n] == ws[..n][p := w];
      WorkersLeftUpdate(expected, ws[..n], p, w);
    } else {
      assert ws[p := w][..n] == ws[..n];
    }
  }

  lemma {:induction false} WorkersLeftBounds(expected: nat, ws: seq<Worker>)
    requires forall p :: 0 <= p < |ws| ==> ws[p].returned <= ws[p].entered <= expected
    ensures 0 <= WorkersLeft(expected, ws)
  {
    if ws != [] {
      WorkersLeftBounds(expected, ws[..|ws| - 1]);
      assert forall p :: 0 <= p < |ws| - 1 ==> ws[..|ws| - 1][p] == ws[p];
    }
  }

  lemma ParentLeftStep(c: Setup, q: Parent)
    requires q.i < |c.plans| && q.iteration < c.expected
    ensures ParentLeft(c, Advance(c, q)) == ParentLeft(c, q) - 1 >= 0
  {
  }

  lemma {:induction false} WorkerUsesSome(c: Setup, s: State, s': State, p: nat)
    requires Inv(c, s) && p < |s.workers| && WorkerStep(c, s, s', p)
    ensures s'.parent == s.parent && s'.workers == s.workers[p := s'.workers[p]]
    ensures WorkerLeft(c.expected, s'.workers[p]) < WorkerLeft(c.expected, s.workers[p])
  {
    hide Alternating;
  }

  /** Every transition uses up some of what is left. */
  lemma {:induction false} StepUsesSome(c: Setup, s: State, s': State)
    requires Inv(c, s) && Step(c, s, s')
    ensures s'.parent.iteration <= c.expected && Left(c, s') < Left(c, s)
  {
    hide ParentLeft, WorkersLeft, WorkerLeft, WorkerStep, LifeInv;
    if ParentStep(c, s, s') {
      ParentLeftStep(c, s.parent);
    } else {
      var p :| 0 <= p < |s.workers| && WorkerStep(c, s, s', p);
      WorkerUsesSome(c, s, s', p);
      WorkersLeftUpdate(c.expected, s.workers, p, s'.workers[p]);
    }
  }

  /** Everything is done: the parent has left its loop, every worker has performed all
      synchronisations and is gone. */
  predicate Final(c: Setup, s: State) {
    ParentDone(c, s) && forall p :: 0 <= p < |s.workers| ==> s.workers[p].Gone() && s.workers[p].returned == c.expected
  }

  lemma {:induction false} LeftBounds(c: Setup, s: State)
    requires Inv(c, s)
    ensures 0 <= Left(c, s)
  {
    hide RoundsLeft, WorkersLeft, Alternating;
    WorkersLeftBounds(c.expected, s.workers);
    if !ParentDone(c, s) {
      ParentLeftStep(c, s.parent);
    }
  }

  lemma {:induction false} WorkersLeftFresh(expected: nat, ws: seq<Worker>)
    requires forall p :: 0 <= p < |ws| ==> ws[p] == Worker(Implementing, 0, 0, [])
    ensures WorkersLeft(expected, ws) == 2 * expected * |ws| + 2 * |ws|
  {
    if ws != [] {
      WorkersLeftFresh(expected, ws[..|ws| - 1]);
      LinearIndex.MulSucc(|ws| - 1, 2 * expected);
    }
  }

  lemma {:induction false} RoundsLeftIs(n: nat, d: nat)
    ensures RoundsLeft(n, d) == 2 * n * d
  {
    if d > 0 {
      RoundsLeftIs(n, d - 1);
      LinearIndex.MulSucc(d - 1, 2 * n);
    }
  }

  /** Two operations per worker and iteration on each side, and two changes of each worker's life. */
  function Operations(c: Setup): nat {
    2 * c.expected * |c.plans| + 2 * |c.plans| + 2 * |c.plans| * c.expected
  }

  lemma {:induction false} LeftAtStart(c: Setup, s: State)
    requires Init(c, s)
    ensures Left(c, s) == Operations(c)
  {
    hide RoundsLeft, WorkersLeft;
    WorkersLeftFresh(c.expected, s.workers);
    RoundsLeftIs(|c.plans|, c.expected);
  }

  /** A run of k transitions has used at least k of the operations, so no run is longer than that. */
  lemma {:induction false} RunLength(c: Setup, ss: seq<State>, k: nat)
    requires IsRun(c, ss) && k < |ss|
    ensures ss[k].parent.iteration <= c.expected && Left(c, ss[k]) + k <= Operations(c)
    ensures k <= Operations(c)
  {
    RunInv(c, ss, k);
    assert ss[k].parent.iteration <= c.expected;
    hide Left, Operations, Inv, Init, Step;
    LeftBounds(c, ss[k]);
    if k == 0 {
      LeftAtStart(c, ss[0]);
    } else {
      RunLength(c, ss, k - 1);
      RunInv(c, ss, k - 1);
      StepUsesSome(c, ss[k - 1], ss[k]);
    }
  }

  lemma ExtendRun(c: Setup, ss: seq<State>, s': State)
    requires IsRun(c, ss) && WellFormed(c, ss[|ss| - 1]) && Step(c, ss[|ss| - 1], s')
    ensures IsRun(c, ss + [s'])
  {
  }

  /** Some worker that has not performed all synchronisations, or is not gone, can move. */
  lemma {:induction false} WorkerCanMove(c: Setup, s: State, p: nat) returns (s': State)
    requires Inv(c, s) && c.Complete() && p < |s.workers|
    requires s.workers[p].Waiting() ==> s.down[p] != ""
    requires s.workers[p].returned < c.expected || !s.workers[p].Gone()
    ensures WorkerStep(c, s, s', p)
  {
    var w := s.workers[p];
    if w.Waiting() {
      var read := w.(log := w.log + [Read(SYNC_CHAR)], returned := w.returned + 1);
      s' := s.(down := s.down[p := s.down[p][1..]], workers := s.workers[p := read]);
      assert Receive(c, s, s', p);
    } else if NextLife(c, p, w) != w.life {
      s' := s.(workers := s.workers[p := w.(life := NextLife(c, p, w))]);
      assert MoveOn(c, s, s', p);
    } else {
      s' := s.(workers := s.workers[p := w.(entered := w.entered + 1, log := w.log + [Written(SYNC_CHAR)])],
               up := s.up[p := s.up[p] + [SYNC_CHAR]]);
      assert Enter(c, s, s', p);
    }
  }

  /** If no implementation reports Success too early, no unfinished state is stuck. */
  lemma {:induction false} CanMove(c: Setup, s: State) returns (s': State)
    requires Inv(c, s) && c.Complete() && !Final(c, s)
    ensures Step(c, s, s')
  {
    hide WorkerStep, Setup.Complete;
    var p: nat;
    if !ParentDone(c, s) {
      p := s.parent.i;
      if s.parent.phase == Signalling {
        s' := s.(down := s.down[p := s.down[p] + [SYNC_CHAR]], parent := Advance(c, s.parent),
                 log := s.log + [Signal(p)]);
        assert ParentStep(c, s, s');
        return;
      } else if s.up[p] != "" {
        s' := s.(up := s.up[p := s.up[p][1..]], parent := Advance(c, s.parent), log := s.log + [Wait(p)]);
        assert ParentStep(c, s, s');
        return;
      }
    } else {
      p :| 0 <= p < |s.workers| && (!s.workers[p].Gone() || s.workers[p].returned != c.expected);
    }
    s' := WorkerCanMove(c, s, p);
  }

  lemma FinalMeans(c: Setup, s: State)
    requires WellFormed(c, s) && Final(c, s)
    ensures |s.workers| == |c.plans| && (|c.plans| > 0 ==> s.parent.iteration == c.expected)
    ensures forall p :: 0 <= p < |s.workers| ==>
              s.workers[p].life in {Exited, Died} && s.workers[p].returned == c.expected
  {
  }

  /** Then every run can be continued to the end, and (by RunLength) every run that is continued as
      long as possible ends there. */
  lemma {:induction false} RunCompletes(c: Setup, ss: seq<State>) returns (tt: seq<State>)
    requires IsRun(c, ss) && c.Complete()
    ensures IsRun(c, tt) && ss <= tt && Final(c, tt[|tt| - 1])
    ensures var last := tt[|tt| - 1];
            && |last.workers| == |c.plans| && (|c.plans| > 0 ==> last.parent.iteration == c.expected)
            && forall p :: 0 <= p < |last.workers| ==>
                 last.workers[p].life in {Exited, Died} && last.workers[p].returned == c.expected
    decreases Operations(c) + 1 - |ss|
  {
    hide Inv, IsRun, Operations, Step, Final, Setup.Complete;
    var last := LastOf(c, ss);
    if Final(c, last) {
      tt := ss;
      FinalMeans(c, last);
    } else {
      var s' := CanMove(c, last);
      ExtendRun(c, ss, s');
      RunLength(c, ss, |ss| - 1);
      tt := RunCompletes(c, ss + [s']);
    }
  }

  lemma LastOf(c: Setup, ss: seq<State>) returns (last: State)
    requires IsRun(c, ss)
    ensures |ss| > 0 && last == ss[|ss| - 1] && WellFormed(c, last) && Inv(c, last)
  {
    last := ss[|ss| - 1];
    RunInv(c, ss, |ss| - 1);
  }

  /** The parent's loop ends only if no worker reports Success too early. */
  lemma {:induction false} DoneNeedsEveryone(c: Setup, ss: seq<State>, k: nat)
    requires IsRun(c, ss) && k < |ss| && ParentDone(c, ss[k])
    ensures c.Complete()
  {
    RunInv(c, ss, k);
  }

  /** Exact condition: the parent can leave synchronizeAll if and only if no implementation reports
      Success after too few synchronisations. A failing worker never blocks it: whatever its
      implementation did before, its drain loop delivers the rest. */
  lemma {:induction false} ParentFinishesIff(c: Setup)
    ensures (exists ss :: IsRun(c, ss) && ParentDone(c, ss[|ss| - 1])) <==> c.Complete()
  {
    if ss :| IsRun(c, ss) && ParentDone(c, ss[|ss| - 1]) {
      DoneNeedsEveryone(c, ss, |ss| - 1);
    }
    if c.Complete() {
      var n := |c.plans|;
      var s := State(seq(n, i => Worker(Implementing, 0, 0, [])), seq(n, i => ""), seq(n, i => ""),
                     Parent(0, Waiting, 0), [], false);
      assert IsRun(c, [s]);
      var tt := RunCompletes(c, [s]);
      assert IsRun(c, tt) && ParentDone(c, tt[|tt| - 1]);
    }
  }

  /** Synchronisations a worker performs in a whole run. */
  function Performed(expected: nat, plan: Plan): nat {
    if plan.ok && plan.syncs < expected then plan.syncs else expected
  }

  /** In every state of every run a worker has done a prefix of the operations it performs in all,
      and all of them once it is gone; only one that asks for too many dies. */
  lemma {:induction false} WorkerLog(c: Setup, ss: seq<State>, k: nat, p: nat)
    requires IsRun(c, ss) && k < |ss| && p < |c.plans|
    ensures WellFormed(c, ss[k]) && ss[k].workers[p].log <= Alternating(Performed(c.expected, c.plans[p]))
    ensures ss[k].workers[p].Gone() ==> ss[k].workers[p].log == Alternating(Performed(c.expected, c.plans[p]))
    ensures ss[k].workers[p].Gone() ==> (ss[k].workers[p].life == Died <==> c.plans[p].syncs > c.expected)
  {
    hide Alternating;
    RunInv(c, ss, k);
    var w, n := ss[k].workers[p], Performed(c.expected, c.plans[p]);
    AlternatingPrefix(w.entered, n);
    if w.Waiting() {
      AlternatingStep(w.returned);
    }
  }

  lemma AlternatingStep(n: nat)
    ensures Alternating(n) + [Written(SYNC_CHAR)] <= Alternating(n + 1)
  {
  }

  lemma {:induction false} AlternatingPrefix(a: nat, b: nat)
    requires a <= b
    ensures Alternating(a) <= Alternating(b)
  {
    if a < b {
      AlternatingPrefix(a, b - 1);
    }
  }
}
