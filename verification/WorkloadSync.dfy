/** The two ends of the synchronisation pipes as the program writes them. Reading from a pipe whose
    other end has closed is the fatal error of a zero-byte read. */
module WorkloadSync {
  import opened Barrier

  datatype SyncError = TooManyIterations | InvalidCharacter(c: char) | PipeClosed

  datatype Outcome = Ok | Fatal(error: SyncError)

  predicate LineEnd(c: char) {
    c == '\n' || c == '\r'
  }

  /** Length of the run of line ends a text starts with. */
  function LineEnds(t: string): (n: nat)
    ensures n <= |t| && (n < |t| ==> !LineEnd(t[n])) && forall k :: 0 <= k < n ==> LineEnd(t[k])
  {
    if t != "" && LineEnd(t[0]) then 1 + LineEnds(t[1..]) else 0
  }

  function Reads(t: string): seq<IoOp> {
    seq(|t|, i requires 0 <= i < |t| => Read(t[i]))
  }

  function Syncs(n: nat): string {
    seq(n, i => SYNC_CHAR)
  }

  /** A worker's side of its two synchronisation pipes. `incoming` is what the parent will have
      written by the time it is read; `log` is what the worker has done. */
  class WorkloadIo {
    var incoming: string
    var outgoing: string
    var log: seq<IoOp>

    method WriteSynchronizationChar(c: char)
      modifies this
      ensures incoming == old(incoming) && outgoing == old(outgoing) + [c] && log == old(log) + [Written(c)]
    {
      outgoing := outgoing + [c];
      log := log + [Written(c)];
    }

    method ReadSynchronizationChar() returns (closed: bool, c: char)
      modifies this
      ensures outgoing == old(outgoing)
      ensures closed == (old(incoming) == "")
      ensures closed ==> incoming == "" && log == old(log)
      ensures !closed ==> c == old(incoming)[0] && incoming == old(incoming)[1..] && log == old(log) + [Read(c)]
    {
      closed, c := incoming == "", SYNC_CHAR;
      if !closed {
        c, incoming := incoming[0], incoming[1..];
        log := log + [Read(c)];
      }
    }
  }

  /** What one call of synchronize does to the counter and the pipes. */
  datatype Call = Call(count: nat, incoming: string, sent: string, ops: seq<IoOp>, outcome: Outcome)

  function CallSpec(count: nat, expected: nat, enabled: bool, incoming: string): Call {
    if count == expected then Call(count, incoming, "", [], Fatal(TooManyIterations))
    else if !enabled then Call(count + 1, incoming, "", [], Ok)
    else
      var n := LineEnds(incoming);
      if n == |incoming| then Call(count + 1, "", [SYNC_CHAR], [Written(SYNC_CHAR)] + Reads(incoming),
                                   Fatal(PipeClosed))
      else Call(count + 1, incoming[n + 1..], [SYNC_CHAR], [Written(SYNC_CHAR)] + Reads(incoming[..n + 1]),
                if incoming[n] == SYNC_CHAR then Ok else Fatal(InvalidCharacter(incoming[n])))
  }

  /** One piece of behaviour followed by another, if the first did not fail. */
  function Then(first: Call, second: Call): Call {
    if first.outcome != Ok then first
    else second.(sent := first.sent + second.sent, ops := first.ops + second.ops)
  }

  /** n calls in a row, up to the first fatal error. */
  function Repeat(n: nat, count: nat, expected: nat, enabled: bool, incoming: string): Call {
    if n == 0 then Call(count, incoming, "", [], Ok)
    else
      var first := CallSpec(count, expected, enabled, incoming);
      Then(first, Repeat(n - 1, first.count, expected, enabled, first.incoming))
  }

  lemma ThenAssociative(a: Call, b: Call, d: Call)
    ensures Then(Then(a, b), d) == Then(a, Then(b, d))
  {
  }

  /** Peeling one call off what is left to do. */
  lemma RepeatStep(done: Call, n: nat, expected: nat, enabled: bool)
    requires n > 0 && done.outcome == Ok
    ensures var call := CallSpec(done.count, expected, enabled, done.incoming);
            Then(done, Repeat(n, done.count, expected, enabled, done.incoming))
            == Then(Then(done, call), Repeat(n - 1, call.count, expected, enabled, call.incoming))
  {
    hide CallSpec, Then;
    var call := CallSpec(done.count, expected, enabled, done.incoming);
    ThenAssociative(done, call, Repeat(n - 1, call.count, expected, enabled, call.incoming));
  }

  lemma NoneLeft(done: Call, expected: nat, enabled: bool)
    ensures Then(done, Repeat(0, done.count, expected, enabled, done.incoming)) == done
  {
  }

  /** Doing nothing first changes nothing. */
  lemma ThenUnit(nothing: Call, a: Call)
    requires nothing.sent == "" && nothing.ops == [] && nothing.outcome == Ok
    ensures Then(nothing, a) == a
  {
  }

  /** What a second piece of behaviour adds to a successful first one; a fatal one stays as it is. */
  lemma ThenFacts(first: Call, second: Call, out: string, log: seq<IoOp>)
    ensures first.outcome != Ok ==> Then(first, second) == first
    ensures first.outcome == Ok ==>
              var both := Then(first, second);
              && both.outcome == second.outcome && both.count == second.count && both.incoming == second.incoming
              && out + first.sent + second.sent == out + both.sent && log + first.ops + second.ops == log + both.ops
  {
  }

  lemma CallCounts(count: nat, expected: nat, enabled: bool, incoming: string)
    requires count <= expected
    ensures var call := CallSpec(count, expected, enabled, incoming);
            call.count == if count == expected then count else count + 1
  {
  }

  /** Reading character k of t after the first k. */
  lemma ReadsSnoc(t: string, k: nat)
    requires k <= |t|
    ensures k == |t| ==> t[..k] == t && t[k..] == ""
    ensures k == 0 ==> t[k..] == t && Reads(t[..k]) == []
    ensures k < |t| ==>
              t[k..][0] == t[k] && t[k..][1..] == t[k + 1..] && Reads(t[..k + 1]) == Reads(t[..k]) + [Read(t[k])]
  {
  }

  class WorkloadSynchronization {
    var synchronizationCount: nat
    const expectedSynchronizationCount: nat
    const synchronizationEnabled: bool

    constructor (iterationsCount: nat, enabled: bool)
      ensures synchronizationCount == 0 && expectedSynchronizationCount == iterationsCount
              && synchronizationEnabled == enabled
    {
      synchronizationCount := 0;
      expectedSynchronizationCount := iterationsCount;
      synchronizationEnabled := enabled;
    }

    /** Write first, then wait: the order the barrier relies on. */
    method Synchronize(io: WorkloadIo) returns (r: Outcome)
      modifies this, io
      ensures var call := CallSpec(old(synchronizationCount), expectedSynchronizationCount, synchronizationEnabled,
                                   old(io.incoming));
              && r == call.outcome && synchronizationCount == call.count && io.incoming == call.incoming
              && io.outgoing == old(io.outgoing) + call.sent && io.log == old(io.log) + call.ops
      ensures !synchronizationEnabled ==>
                && io.outgoing == old(io.outgoing) && io.log == old(io.log) && io.incoming == old(io.incoming)
                && (r == Ok <==> old(synchronizationCount) != expectedSynchronizationCount)
    {
      if synchronizationCount == expectedSynchronizationCount {
        return Fatal(TooManyIterations);
      }
      synchronizationCount := synchronizationCount + 1;
      if !synchronizationEnabled {
        return Ok;
      }
      ghost var all, before := io.incoming, io.log + [Written(SYNC_CHAR)];
      io.WriteSynchronizationChar(SYNC_CHAR);
      var closed, character := io.ReadSynchronizationChar();
      ghost var k := 0;
      ReadsSnoc(all, 0);
      while !closed && LineEnd(character)
        invariant 0 <= k <= LineEnds(all) && io.outgoing == old(io.outgoing) + [SYNC_CHAR]
        invariant closed ==> k == |all| && io.incoming == ""
        invariant !closed ==> k < |all| && character == all[k] && io.incoming == all[k + 1..]
        invariant io.log == before + Reads(if closed then all else all[..k + 1])
        invariant synchronizationCount == old(synchronizationCount) + 1
        decreases |all| - k, !closed
      {
        hide Reads, LineEnds;
        closed, character := io.ReadSynchronizationChar();
        k := k + 1;
        ReadsSnoc(all, k);
      }
      hide Reads;
      assert k == LineEnds(all);
      if closed {
        return Fatal(PipeClosed);
      }
      return if character == SYNC_CHAR then Ok else Fatal(InvalidCharacter(character));
    }

    /** Exactly the expected number of calls, unless synchronisation is off. */
    method Validate() returns (valid: bool)
      ensures valid == (synchronizationEnabled ==> synchronizationCount == expectedSynchronizationCount)
    {
      if synchronizationEnabled {
        valid := synchronizationCount == expectedSynchronizationCount;
      } else {
        valid := true;
      }
    }

    /** The drain loop of a worker whose implementation did not succeed. */
    method ExecuteRemainingSynchronizations(io: WorkloadIo) returns (r: Outcome)
      requires synchronizationCount <= expectedSynchronizationCount
      modifies this, io
      ensures synchronizationCount <= expectedSynchronizationCount
      ensures var calls := Repeat(expectedSynchronizationCount - old(synchronizationCount), old(synchronizationCount),
                                  expectedSynchronizationCount, synchronizationEnabled, old(io.incoming));
              && r == calls.outcome && synchronizationCount == calls.count && io.incoming == calls.incoming
              && io.outgoing == old(io.outgoing) + calls.sent && io.log == old(io.log) + calls.ops
    {
      hide Repeat, CallSpec, Then;
      r := Ok;
      ghost var left := expectedSynchronizationCount - synchronizationCount;
      ghost var all := Repeat(left, synchronizationCount, expectedSynchronizationCount, synchronizationEnabled,
                              io.incoming);
      ghost var done := Call(synchronizationCount, io.incoming, "", [], Ok);
      ThenUnit(done, all);
      while synchronizationCount < expectedSynchronizationCount
        invariant r == Ok && 0 <= left == expectedSynchronizationCount - synchronizationCount
        invariant done.outcome == Ok && done.count == synchronizationCount && done.incoming == io.incoming
        invariant io.outgoing == old(io.outgoing) + done.sent && io.log == old(io.log) + done.ops
        invariant all == Then(done, Repeat(left, done.count, expectedSynchronizationCount, synchronizationEnabled,
                                           done.incoming))
      {
        ghost var call := CallSpec(synchronizationCount, expectedSynchronizationCount, synchronizationEnabled,
                                   io.incoming);
        RepeatStep(done, left, expectedSynchronizationCount, synchronizationEnabled);
        CallCounts(synchronizationCount, expectedSynchronizationCount, synchronizationEnabled, io.incoming);
        ThenFacts(done, call, old(io.outgoing), old(io.log));
        r := Synchronize(io);
        done := Then(done, call);
        ThenFacts(done, Repeat(left - 1, done.count, expectedSynchronizationCount, synchronizationEnabled,
                               done.incoming), "", []);
        if r != Ok {
          return;
        }
        left := left - 1;
      }
      NoneLeft(done, expectedSynchronizationCount, synchronizationEnabled);
    }
  }

  // ----- a whole worker

  /** Workload::run seen from the pipes: the implementation's calls, then the drain if it failed. */
  function WorkloadSpec(iterations: nat, enabled: bool, plan: Plan, incoming: string): Call {
    var calls := Repeat(plan.syncs, 0, iterations, enabled, incoming);
    if plan.ok || calls.count > iterations then calls
    else Then(calls, Repeat(iterations - calls.count, calls.count, iterations, enabled, calls.incoming))
  }

  lemma {:induction false} RepeatCounts(n: nat, count: nat, expected: nat, enabled: bool, incoming: string)
    requires count <= expected
    ensures count <= Repeat(n, count, expected, enabled, incoming).count <= expected
  {
    if n > 0 {
      var first := CallSpec(count, expected, enabled, incoming);
      if first.outcome == Ok {
        RepeatCounts(n - 1, first.count, expected, enabled, first.incoming);
      }
    }
  }

  /** The implementation's own calls. */
  method RunImplementation(syncs: nat, synchronization: WorkloadSynchronization, io: WorkloadIo) returns (r: Outcome)
    modifies synchronization, io
    ensures var calls := Repeat(syncs, old(synchronization.synchronizationCount),
                                synchronization.expectedSynchronizationCount,
                                synchronization.synchronizationEnabled, old(io.incoming));
            && r == calls.outcome && synchronization.synchronizationCount == calls.count
               && io.incoming == calls.incoming
            && io.outgoing == old(io.outgoing) + calls.sent && io.log == old(io.log) + calls.ops
  {
    hide Repeat, CallSpec, Then;
    r := Ok;
    var expected, enabled := synchronization.expectedSynchronizationCount, synchronization.synchronizationEnabled;
    ghost var all := Repeat(syncs, synchronization.synchronizationCount, expected, enabled, io.incoming);
    ghost var done := Call(synchronization.synchronizationCount, io.incoming, "", [], Ok);
    ThenUnit(done, all);
    var k := 0;
    while k < syncs
      invariant 0 <= k <= syncs && r == Ok
      invariant done.outcome == Ok && done.count == synchronization.synchronizationCount && done.incoming == io.incoming
      invariant io.outgoing == old(io.outgoing) + done.sent && io.log == old(io.log) + done.ops
      invariant all == Then(done, Repeat(syncs - k, done.count, expected, enabled, done.incoming))
    {
      ghost var call := CallSpec(done.count, expected, enabled, io.incoming);
      RepeatStep(done, syncs - k, expected, enabled);
      ThenFacts(done, call, old(io.outgoing), old(io.log));
      r := synchronization.Synchronize(io);
      done := Then(done, call);
      ThenFacts(done, Repeat(syncs - k - 1, done.count, expected, enabled, done.incoming), "", []);
      if r != Ok {
        return;
      }
      k := k + 1;
    }
    NoneLeft(done, expected, enabled);
  }

  method RunWorkload(iterations: nat, enabled: bool, plan: Plan, io: WorkloadIo) returns (r: Outcome, warned: bool)
    modifies io
    ensures var calls := WorkloadSpec(iterations, enabled, plan, old(io.incoming));
            && r == calls.outcome && io.incoming == calls.incoming
            && io.outgoing == old(io.outgoing) + calls.sent && io.log == old(io.log) + calls.ops
            && warned == (r == Ok && plan.ok && enabled && calls.count != iterations)
    ensures !enabled ==>
              && io.outgoing == old(io.outgoing) && io.log == old(io.log) && io.incoming == old(io.incoming)
              && (r == Ok <==> plan.syncs <= iterations) && !warned
    ensures enabled && OnlySync(old(io.incoming)) && iterations <= |old(io.incoming)| ==>
              && (r == Ok <==> plan.syncs <= iterations)
              && (warned <==> plan.ok && plan.syncs < iterations)
  {
    hide Repeat, CallSpec;
    var synchronization := new WorkloadSynchronization(iterations, enabled);
    warned := false;
    WorkloadDisabled(iterations, plan, io.incoming);
    if OnlySync(io.incoming) && iterations <= |io.incoming| {
      WorkloadAnswered(iterations, plan, io.incoming);
    }
    RepeatCounts(plan.syncs, 0, iterations, enabled, io.incoming);
    r := RunImplementation(plan.syncs, synchronization, io);
    if r != Ok {
      return;
    }
    if plan.ok {
      var valid := synchronization.Validate();
      warned := !valid;
    } else {
      r := synchronization.ExecuteRemainingSynchronizations(io);
    }
  }

  /** n answered calls, one after the other. */
  function Answered(n: nat, count: nat, incoming: string, outcome: Outcome): Call
    requires n <= |incoming|
  {
    Call(count + n, incoming[n..], Syncs(n), Alternating(n), outcome)
  }

  lemma {:induction false} OneAnswered(n: nat, count: nat, incoming: string, outcome: Outcome)
    requires 0 < n <= |incoming| && incoming[0] == SYNC_CHAR
    ensures Then(Answered(1, count, incoming, Ok), Answered(n - 1, count + 1, incoming[1..], outcome))
         == Answered(n, count, incoming, outcome)
  {
    hide Alternating;
    AlternatingSplit(1, n - 1);
    assert incoming[1..][n - 1..] == incoming[n..];
    assert Syncs(1) + Syncs(n - 1) == Syncs(n);
  }

  lemma {:induction false} CallAnswered(count: nat, expected: nat, incoming: string)
    requires count < expected && incoming != "" && incoming[0] == SYNC_CHAR
    ensures CallSpec(count, expected, true, incoming) == Answered(1, count, incoming, Ok)
  {
  }

  lemma {:induction false} RepeatAnswered(n: nat, count: nat, expected: nat, incoming: string)
    requires count <= expected && OnlySync(incoming) && expected - count <= |incoming|
    ensures Repeat(n, count, expected, true, incoming)
         == if n <= expected - count then Answered(n, count, incoming, Ok)
            else Answered(expected - count, count, incoming, Fatal(TooManyIterations))
  {
    if n == 0 || count == expected {
      assert incoming[0..] == incoming;
    } else {
      hide Answered, CallSpec, Then;
      CallAnswered(count, expected, incoming);
      AnsweredOne(count, incoming);
      RepeatAnswered(n - 1, count + 1, expected, incoming[1..]);
      OneAnswered(if n <= expected - count then n else expected - count, count, incoming,
                  if n <= expected - count then Ok else Fatal(TooManyIterations));
    }
  }

  lemma AnsweredOne(count: nat, incoming: string)
    requires incoming != ""
    ensures Answered(1, count, incoming, Ok).count == count + 1
            && Answered(1, count, incoming, Ok).incoming == incoming[1..]
  {
  }

  lemma {:induction false} AlternatingSplit(a: nat, b: nat)
    ensures Alternating(a) + Alternating(b) == Alternating(a + b)
    ensures Alternating(1) == [Written(SYNC_CHAR), Read(SYNC_CHAR)]
  {
    assert Alternating(1) == Alternating(0) + [Written(SYNC_CHAR), Read(SYNC_CHAR)];
    if b > 0 {
      AlternatingSplit(a, b - 1);
      assert Alternating(a) + Alternating(b) == (Alternating(a) + Alternating(b - 1))
             + [Written(SYNC_CHAR), Read(SYNC_CHAR)];
    } else {
      assert Alternating(a) + [] == Alternating(a);
    }
  }

  /** Against an answering parent a worker performs exactly Performed() synchronisations: a failing
      implementation is drained to the full count whatever it did before, a succeeding one keeps its
      own count, and only a worker that asks for too many dies. */
  lemma {:induction false} WorkloadAnswered(iterations: nat, plan: Plan, incoming: string)
    requires OnlySync(incoming) && iterations <= |incoming|
    ensures var calls := WorkloadSpec(iterations, true, plan, incoming);
            && calls.sent == Syncs(Performed(iterations, plan))
            && calls.ops == Alternating(Performed(iterations, plan))
            && calls.incoming == incoming[Performed(iterations, plan)..]
            && calls.count == Performed(iterations, plan)
            && calls.outcome == (if plan.syncs <= iterations then Ok else Fatal(TooManyIterations))
  {
    hide Repeat;
    RepeatAnswered(plan.syncs, 0, iterations, incoming);
    if !plan.ok && plan.syncs <= iterations {
      RepeatAnswered(iterations - plan.syncs, plan.syncs, iterations, incoming[plan.syncs..]);
      AlternatingSplit(plan.syncs, iterations - plan.syncs);
      assert Syncs(plan.syncs) + Syncs(iterations - plan.syncs) == Syncs(iterations);
      assert incoming[plan.syncs..][iterations - plan.syncs..] == incoming[iterations..];
    }
  }

  /** The characters written and read: '$' each time, written before it is read. */
  lemma {:induction false} WrittenThenRead(n: nat, k: nat)
    requires k < n
    ensures |Syncs(n)| == n && Syncs(n)[k] == '$'
    ensures |Alternating(n)| == 2 * n && Alternating(n)[2 * k] == Written('$') && Alternating(n)[2 * k + 1] == Read('$')
  {
    if n > 1 && k < n - 1 {
      WrittenThenRead(n - 1, k);
    } else if n > 1 {
      WrittenThenRead(n - 1, 0);
    } else {
      assert Alternating(0) == [];
    }
  }

  // ----- single calls, whatever the parent sends

  predicate AllLineEnds(s: string) {
    forall i :: 0 <= i < |s| ==> s[i] in ['\n', '\r']
  }

  /** One '$' is written, line ends are skipped, and the first other character decides. */
  lemma {:induction false} CallReads(count: nat, expected: nat, ends: string, c: char, rest: string)
    requires count < expected && AllLineEnds(ends) && c !in ['\n', '\r']
    ensures var call := CallSpec(count, expected, true, ends + [c] + rest);
            && call.count == count + 1 && call.incoming == rest && call.sent == "$"
            && call.outcome == (if c == '$' then Ok else Fatal(InvalidCharacter(c)))
            && |call.ops| == |ends| + 2 && call.ops[0] == Written('$')
            && forall i :: 0 <= i <= |ends| ==> call.ops[i + 1] == Read((ends + [c])[i])
  {
    var t := ends + [c] + rest;
    LineEndsIs(t, |ends|);
    assert t[|ends| + 1..] == rest && t[..|ends| + 1] == ends + [c];
  }

  lemma {:induction false} LineEndsIs(t: string, n: nat)
    requires n <= |t| && (n < |t| ==> t[n] !in ['\n', '\r']) && forall k :: 0 <= k < n ==> t[k] in ['\n', '\r']
    ensures LineEnds(t) == n
  {
  }

  /** A pipe that closes before that is fatal. */
  lemma {:induction false} CallOnClosedPipe(count: nat, expected: nat, ends: string)
    requires count < expected && AllLineEnds(ends)
    ensures var call := CallSpec(count, expected, true, ends);
            && call.count == count + 1 && call.incoming == "" && call.sent == "$" && call.outcome == Fatal(PipeClosed)
            && |call.ops| == |ends| + 1 && call.ops[0] == Written('$')
            && forall i :: 0 <= i < |ends| ==> call.ops[i + 1] == Read(ends[i])
  {
    LineEndsIs(ends, |ends|);
  }

  /** One call too many is fatal before anything is written, and a call with synchronisation off does
      nothing but count. */
  lemma {:induction false} CallsWithoutPipe(count: nat, expected: nat, enabled: bool, incoming: string)
    ensures count == expected ==>
              CallSpec(count, expected, enabled, incoming) == Call(count, incoming, "", [], Fatal(TooManyIterations))
    ensures count < expected && !enabled ==>
              CallSpec(count, expected, enabled, incoming) == Call(count + 1, incoming, "", [], Ok)
  {
  }

  /** A run of calls stops at the first character that does not belong there. */
  lemma {:induction false} RepeatStopsAtStranger(n: nat, k: nat, count: nat, expected: nat, c: char, rest: string)
    requires k < n && count + k < expected && c !in ['\n', '\r', '$']
    ensures var calls := Repeat(n, count, expected, true, Syncs(k) + [c] + rest);
            && calls.outcome == Fatal(InvalidCharacter(c)) && calls.incoming == rest
            && calls.sent == Syncs(k + 1) && calls.count == count + k + 1
  {
    hide CallSpec, Then;
    var t := Syncs(k) + [c] + rest;
    if k == 0 {
      assert t == "" + [c] + rest;
      CallReads(count, expected, "", c, rest);
      assert Syncs(1) == "$";
      ThenFacts(CallSpec(count, expected, true, t), Repeat(n - 1, count + 1, expected, true, rest), "", []);
    } else {
      var more := Syncs(k - 1) + [c] + rest;
      assert t == "" + ['$'] + more;
      CallReads(count, expected, "", '$', more);
      RepeatStopsAtStranger(n - 1, k - 1, count + 1, expected, c, rest);
      assert "$" + Syncs(k) == Syncs(k + 1);
      var first, second := CallSpec(count, expected, true, t), Repeat(n - 1, count + 1, expected, true, more);
      ThenFacts(first, second, "", []);
      assert Then(first, second).sent == "" + first.sent + second.sent;
    }
  }

  // ----- synchronisation off

  lemma {:induction false} RepeatDisabled(n: nat, count: nat, expected: nat, incoming: string)
    requires count <= expected
    ensures Repeat(n, count, expected, false, incoming)
         == if n <= expected - count then Call(count + n, incoming, "", [], Ok)
            else Call(expected, incoming, "", [], Fatal(TooManyIterations))
  {
    if n > 0 && count < expected {
      RepeatDisabled(n - 1, count + 1, expected, incoming);
    }
  }

  /** A worker without synchronisation, the default when it is started by hand, writes and reads
      nothing, whatever it does, and dies exactly if it asks for too many synchronisations. */
  lemma {:induction false} WorkloadDisabled(iterations: nat, plan: Plan, incoming: string)
    ensures var calls := WorkloadSpec(iterations, false, plan, incoming);
            && calls.sent == "" && calls.ops == [] && calls.incoming == incoming
            && calls.outcome == (if plan.syncs <= iterations then Ok else Fatal(TooManyIterations))
            && (plan.ok && plan.syncs <= iterations ==> calls.count == plan.syncs)
  {
    hide Repeat;
    RepeatDisabled(plan.syncs, 0, iterations, incoming);
    if plan.syncs <= iterations {
      RepeatDisabled(iterations - plan.syncs, plan.syncs, iterations, incoming);
    }
  }

  /** The interleaving model runs this program: in every state of every run each worker has done a
      prefix of what RunWorkload does against a parent that answers, and once it is gone all of it,
      with the same end. */
  lemma {:induction false} RunsFollowTheProgram(c: Setup, ss: seq<State>, k: nat, p: nat)
    requires IsRun(c, ss) && k < |ss| && p < |c.plans|
    ensures WellFormed(c, ss[k])
    ensures var w, calls := ss[k].workers[p], WorkloadSpec(c.expected, true, c.plans[p], Syncs(c.expected));
            && w.log <= calls.ops
            && (w.Gone() ==> w.log == calls.ops && (w.life == Died <==> calls.outcome != Ok))
  {
    hide WorkloadSpec, IsRun;
    WorkerLog(c, ss, k, p);
    WorkloadAnswered(c.expected, c.plans[p], Syncs(c.expected));
  }

  // ----- the parent

  class ProcessGroup {
    var fromChild: seq<string>
    var toChild: seq<string>
    var log: seq<Op>

    predicate Valid()
      reads this
    {
      |fromChild| == |toChild|
    }

    method SynchronizationWait(p: nat) returns (r: Outcome)
      requires Valid() && p < |fromChild|
      modifies this
      ensures Valid() && |fromChild| == old(|fromChild|) && toChild == old(toChild) && log == old(log) + [Wait(p)]
      ensures var t := old(fromChild[p]);
              && r == (if t == "" then Fatal(PipeClosed) else if t[0] != SYNC_CHAR then Fatal(InvalidCharacter(t[0]))
                       else Ok)
              && fromChild == old(fromChild)[p := if t == "" then "" else t[1..]]
    {
      log := log + [Wait(p)];
      var t := fromChild[p];
      if t == "" {
        return Fatal(PipeClosed);
      }
      fromChild := fromChild[p := t[1..]];
      return if t[0] != SYNC_CHAR then Fatal(InvalidCharacter(t[0])) else Ok;
    }

    method SynchronizationSignal(p: nat)
      requires Valid() && p < |toChild|
      modifies this
      ensures Valid() && fromChild == old(fromChild) && log == old(log) + [Signal(p)]
      ensures toChild == old(toChild)[p := old(toChild[p]) + [SYNC_CHAR]]
    {
      log := log + [Signal(p)];
      toChild := toChild[p := toChild[p] + [SYNC_CHAR]];
    }

    /** Succeeds exactly when every process delivers `iterations` synchronisation characters; then
        each is answered once and the operations are those of Rounds. */
    method SynchronizeAll(iterations: nat) returns (r: Outcome)
      requires Valid()
      modifies this
      ensures Valid() && |fromChild| == old(|fromChild|)
      ensures r == Ok <==> forall p :: 0 <= p < |old(fromChild)| ==> Delivers(old(fromChild)[p], iterations)
      ensures r == Ok ==> log == old(log) + Rounds(|fromChild|, iterations)
      ensures r == Ok ==> forall p :: 0 <= p < |fromChild| ==>
                fromChild[p] == old(fromChild)[p][iterations..] && toChild[p] == old(toChild)[p] + Syncs(iterations)
    {
      ghost var inbox, outbox, before, n := fromChild, toChild, log, |fromChild|;
      r := Ok;
      assert log == before + Rounds(n, 0);
      assert forall p :: 0 <= p < n ==> inbox[p][0..] == inbox[p] && outbox[p] + Syncs(0) == outbox[p];
      var iteration := 0;
      while iteration < iterations
        invariant 0 <= iteration <= iterations && r == Ok && Valid() && |fromChild| == n
        invariant log == before + Rounds(n, iteration)
        invariant forall p :: 0 <= p < n ==> Delivers(inbox[p], iteration) && fromChild[p] == inbox[p][iteration..]
        invariant forall p :: 0 <= p < n ==> toChild[p] == outbox[p] + Syncs(iteration)
      {
        r := WaitAll(iteration, inbox);
        if r != Ok {
          return;
        }
        SignalAll(iteration, outbox);
        assert log == before + (Rounds(n, iteration) + Waits(n) + Signals(n));
        iteration := iteration + 1;
      }
    }

    method WaitAll(iteration: nat, ghost inbox: seq<string>) returns (r: Outcome)
      requires Valid() && |inbox| == |fromChild|
      requires forall p :: 0 <= p < |inbox| ==> Delivers(inbox[p], iteration) && fromChild[p] == inbox[p][iteration..]
      modifies this
      ensures Valid() && toChild == old(toChild) && |fromChild| == |inbox|
      ensures r == Ok <==> forall p :: 0 <= p < |inbox| ==> Delivers(inbox[p], iteration + 1)
      ensures r == Ok ==> log == old(log) + Waits(|inbox|)
      ensures r == Ok ==> forall p :: 0 <= p < |inbox| ==> fromChild[p] == inbox[p][iteration + 1..]
    {
      r := Ok;
      ghost var n := |fromChild|;
      var p := 0;
      while p < |fromChild|
        invariant 0 <= p <= n && r == Ok && Valid() && |fromChild| == n && toChild == old(toChild)
        invariant log == old(log) + Waits(p)
        invariant forall q :: 0 <= q < p ==>
                  Delivers(inbox[q], iteration + 1) && fromChild[q] == inbox[q][iteration + 1..]
        invariant forall q :: p <= q < n ==> fromChild[q] == inbox[q][iteration..]
      {
        DeliversNext(inbox[p], iteration);
        r := SynchronizationWait(p);
        if r != Ok {
          return;
        }
        assert Waits(p) + [Wait(p)] == Waits(p + 1);
        p := p + 1;
      }
    }

    method SignalAll(iteration: nat, ghost outbox: seq<string>)
      requires Valid() && |outbox| == |toChild|
      requires forall p :: 0 <= p < |outbox| ==> toChild[p] == outbox[p] + Syncs(iteration)
      modifies this
      ensures Valid() && fromChild == old(fromChild) && log == old(log) + Signals(|outbox|)
      ensures forall p :: 0 <= p < |outbox| ==> toChild[p] == outbox[p] + Syncs(iteration + 1)
    {
      ghost var n := |toChild|;
      assert Syncs(iteration) + [SYNC_CHAR] == Syncs(iteration + 1);
      var p := 0;
      while p < |toChild|
        invariant 0 <= p <= n && Valid() && |toChild| == n && fromChild == old(fromChild)
        invariant log == old(log) + Signals(p)
        invariant forall q :: 0 <= q < n ==> toChild[q] == outbox[q] + Syncs(if q < p then iteration + 1 else iteration)
      {
        SynchronizationSignal(p);
        assert outbox[p] + Syncs(iteration) + [SYNC_CHAR] == outbox[p] + Syncs(iteration + 1);
        assert Signals(p) + [Signal(p)] == Signals(p + 1);
        p := p + 1;
      }
    }
  }

  /** A stream starts with n synchronisation characters. */
  predicate Delivers(t: string, n: nat) {
    n <= |t| && OnlySync(t[..n])
  }

  lemma DeliversNext(t: string, n: nat)
    requires Delivers(t, n)
    ensures Delivers(t, n + 1) <==> n < |t| && t[n..][0] == SYNC_CHAR
    ensures n < |t| ==> t[n..][1..] == t[n + 1..]
  {
  }
}
