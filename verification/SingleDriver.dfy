/**
 * At most one delivery drives the graph of a row, and the row never waits for
 * approval meanwhile, as long as every drive ends within its lease and the
 * lease sweeper clears no lease in use. Both conditions are needed.
 */
module SingleDriver {
  import opened Wrappers
  import opened ExecutionRow
  import opened Protocol

  /** Every drive is still within the lease its claim wrote. */
  ghost predicate Timely(s: State) {
    forall i :: 0 <= i < |s.workers| && Driving(s.workers[i]) ==> s.clock <= s.workers[i].phase.deadline
  }

  ghost predicate OneDriver(s: State) {
    forall i, j :: 0 <= i < j < |s.workers| ==> !(Driving(s.workers[i]) && Driving(s.workers[j]))
  }

  /** A driver of a live row holds its lease, and the row does not wait. */
  ghost predicate Held(s: State) {
    forall i :: 0 <= i < |s.workers| && Driving(s.workers[i]) && s.row.Some? && Active(s.row.value.status) ==>
      s.row.value.leaseExpiresAt == Some(s.workers[i].phase.deadline) && !s.row.value.status.WaitingApproval?
  }

  ghost predicate Safe(s: State) {
    OneDriver(s) && Held(s)
  }

  ghost predicate SomeDriver(s: State) {
    exists i :: 0 <= i < |s.workers| && Driving(s.workers[i])
  }

  /** The lease sweeper clears the lease of a live row that is being driven. */
  ghost predicate StaleClear(s: State, step: Step) {
    && step.SweepWrite? && step.i < |s.sweeps| && s.sweeps[step.i].ClearArmed?
    && s.row.Some? && Active(s.row.value.status) && SomeDriver(s)
  }

  // ---- every step keeps it -------------------------------------------------

  /** A worker that stops driving, or goes on under the same deadline, disturbs nothing. */
  lemma PhaseKeeps(s: State, i: nat, p: Phase)
    requires Safe(s) && i < |s.workers|
    requires Driving(s.workers[i].(phase := p)) ==> Driving(s.workers[i]) && s.workers[i].phase.deadline == p.deadline
    ensures Safe(SetPhase(s, i, p))
  {
  }

  /** A row that ends up dead, or live with the same lease and not waiting, disturbs nothing. */
  lemma RowKeeps(s: State, r: Row)
    requires Safe(s) && s.row.Some?
    requires Active(r.status) ==>
      Active(s.row.value.status) && r.leaseExpiresAt == s.row.value.leaseExpiresAt
      && (r.status.WaitingApproval? ==> s.row.value.status.WaitingApproval?)
    ensures Safe(s.(row := Some(r)))
  {
  }

  lemma ClaimSafe(s: State, i: nat, now: int)
    requires Safe(s) && Timely(s) && i < |s.workers| && !Driving(s.workers[i])
    ensures Safe(DoClaim(s, i, now))
  {
    var t := DoClaim(s, i, now);
    if s.row.Some? && Claimable(s.row.value, s.clock) {
      forall j | 0 <= j < |s.workers| ensures !Driving(s.workers[j]) {
      }
    } else {
      PhaseKeeps(s, i, Done);
    }
  }

  lemma PersistSafe(s: State, i: nat, outcome: Outcome)
    requires Safe(s) && i < |s.workers| && Driving(s.workers[i])
    ensures Safe(DoPersist(s, i, outcome))
    ensures !SomeDriver(DoPersist(s, i, outcome))
  {
    var t := DoPersist(s, i, outcome);
    forall j | 0 <= j < |t.workers| ensures !Driving(t.workers[j]) {
      if j != i {
        assert t.workers[j] == s.workers[j];
        assert !(Driving(s.workers[if i < j then i else j]) && Driving(s.workers[if i < j then j else i]));
      }
    }
  }

  lemma WorkSafe(s: State, i: nat, act: WorkerAct)
    requires Safe(s) && Timely(s) && i < |s.workers|
    ensures Safe(WorkerStep(s, i, act))
  {
    var p := s.workers[i].phase;
    match act
    case TryClaim =>
      if p.Arrived? {
        ClaimSafe(s, i, p.now);
      }
    case LoadRaises => PhaseKeeps(s, i, Crashing);
    case Proceed =>
      if p.Claimed? {
        PhaseKeeps(s, i, Invoking(p.deadline));
        PhaseKeeps(s, i, Done);
      }
    case GraphCompletes =>
      if p.Invoking? {
        PhaseKeeps(s, i, Returned(p.deadline, Finished));
      }
    case GraphPauses(node) =>
      if p.Invoking? {
        PhaseKeeps(s, i, Returned(p.deadline, Paused(Pause(node, s.clock))));
      }
    case GraphRaises => PhaseKeeps(s, i, Failing);
    case Persist =>
      if p.Returned? {
        PersistSafe(s, i, p.outcome);
      }
    case PersistRaises(landed) =>
      if p.Returned? {
        PersistSafe(s, i, p.outcome);
        PhaseKeeps(if landed then DoPersist(s, i, p.outcome) else s, i, Failing);
      }
    case TailEnds => PhaseKeeps(s, i, Done);
    case TailRaises => PhaseKeeps(s, i, Failing);
    case WriteFailed => WriteKeeps(s, MarkFailed); PhaseKeeps(Update(s, MarkFailed), i, Done);
    case WriteFailedRaises => PhaseKeeps(s, i, Crashing);
    case CrashWrite =>
      WriteKeeps(s, (r: Row) => FailIf(r, Running));
      PhaseKeeps(Update(s, (r: Row) => FailIf(r, Running)), i, Done);
    case Die => PhaseKeeps(s, i, Done);
  }

  /** A write that never revives a row, touches no lease of a live one and makes none wait. */
  lemma WriteKeeps(s: State, f: Row -> Row)
    requires Safe(s)
    requires forall r :: Active(f(r).status) ==>
      Active(r.status) && f(r).leaseExpiresAt == r.leaseExpiresAt
      && (f(r).status.WaitingApproval? ==> r.status.WaitingApproval?)
    ensures Safe(Update(s, f))
  {
    if s.row.Some? {
      RowKeeps(s, f(s.row.value));
    }
  }

  lemma FlipSafe(s: State, i: nat)
    requires Safe(s) && i < |s.requests|
    ensures Safe(DoFlip(s, i))
  {
    if s.row.Some? && s.row.value.status.WaitingApproval? {
      forall j | 0 <= j < |s.workers| ensures !Driving(s.workers[j]) {
      }
    }
  }

  lemma RequestSafe(s: State, i: nat, act: RequestAct)
    requires Safe(s) && i < |s.requests|
    ensures Safe(RequestStep(s, i, act))
  {
    if act.TryFlip? {
      FlipSafe(s, i);
    }
  }

  lemma SweepSafe(s: State, i: nat)
    requires Safe(s) && i < |s.sweeps| && !StaleClear(s, SweepWrite(i))
    ensures Safe(SweepStep(s, i))
  {
    match s.sweeps[i]
    case FailArmed => WriteKeeps(s, MarkFailed);
    case RequeueArmed(_) =>
    case ClearArmed =>
    case DeadLetterArmed => WriteKeeps(s, DeadLetter);
    case SweepDone =>
  }

  lemma StepSafe(s: State, step: Step)
    requires Safe(s) && Timely(s) && !StaleClear(s, step)
    ensures Safe(Apply(s, step))
  {
    match step
    case Work(i, act) =>
      if i < |s.workers| {
        WorkSafe(s, i, act);
      }
    case Handle(i, act) =>
      if i < |s.requests| {
        RequestSafe(s, i, act);
      }
    case SweepWrite(i) =>
      if i < |s.sweeps| {
        SweepSafe(s, i);
      }
    case FailQueued => WriteKeeps(s, (r: Row) => FailIf(r, Queued));
    case CancelRow => WriteKeeps(s, Cancel);
    case _ =>
  }

  /** A stale clear is the one step that breaks the invariant of a timely state. */
  lemma StepSafeIff(s: State, step: Step)
    requires Safe(s) && Timely(s)
    ensures Safe(Apply(s, step)) <==> !StaleClear(s, step)
  {
    if !StaleClear(s, step) {
      StepSafe(s, step);
    }
  }

  /** What a sweeper could test before it clears: a row whose lease has run out is not being driven. */
  lemma FreeLeaseIsNotStale(s: State, step: Step)
    requires Safe(s) && Timely(s) && s.row.Some? && LeaseFree(s.row.value, s.clock)
    ensures !StaleClear(s, step)
  {
  }

  /** A run in which every state is timely and no lease in use is cleared. */
  ghost predicate Orderly(s: State, steps: seq<Step>) {
    forall k :: 0 <= k < |steps| ==> Timely(Exec(s, steps[..k])) && !StaleClear(Exec(s, steps[..k]), steps[k])
  }

  /**
   * Single driver: over every interleaving, at most one delivery drives the
   * row, and the row never waits for approval while one does.
   */
  lemma {:induction false} AtMostOneDriver(s: State, steps: seq<Step>)
    requires Init(s) && Orderly(s, steps)
    ensures OneDriver(Exec(s, steps)) && Held(Exec(s, steps))
  {
    if steps != [] {
      var n := |steps| - 1;
      var before := steps[..n];
      forall k | 0 <= k < |before|
        ensures Timely(Exec(s, before[..k])) && !StaleClear(Exec(s, before[..k]), before[k])
      {
        assert before[..k] == steps[..k];
      }
      AtMostOneDriver(s, before);
      StepSafe(Exec(s, before), steps[n]);
    }
  }

  // ---- both conditions are needed ------------------------------------------

  lemma TwoSteps(s: State, a: Step, b: Step)
    ensures Exec(s, [a, b]) == Apply(Apply(s, a), b)
  {
    ExecSnoc(s, [a], b);
    ExecSnoc(s, [], a);
    assert [] + [a] == [a] && [a] + [b] == [a, b];
  }

  /** What a delivery does to the deliveries when the row has a free lease. */
  lemma SecondClaims(s: State, k: Kind)
    requires k in s.tasks && s.row.Some? && Claimable(s.row.value, s.clock)
    ensures var t := Apply(Apply(s, Deliver(k)), Work(|s.workers|, TryClaim));
      t.workers == s.workers + [Worker(k, Claimed(s.clock + s.lease))] && t.clock == s.clock
  {
  }

  /** A delivery that finds a driven row with a free lease becomes a second driver. */
  lemma FreeLeaseInvitesSecond(s: State, i: nat, k: Kind)
    requires i < |s.workers| && Driving(s.workers[i]) && k in s.tasks
    requires s.row.Some? && Claimable(s.row.value, s.clock)
    ensures var t := Exec(s, [Deliver(k), Work(|s.workers|, TryClaim)]);
      && !OneDriver(t) && t.clock == s.clock
      && |t.workers| == |s.workers| + 1 && t.workers[..|s.workers|] == s.workers
      && t.workers[|s.workers|].phase == Claimed(s.clock + s.lease)
  {
    TwoSteps(s, Deliver(k), Work(|s.workers|, TryClaim));
    SecondClaims(s, k);
    var t := Exec(s, [Deliver(k), Work(|s.workers|, TryClaim)]);
    assert Driving(t.workers[i]) && Driving(t.workers[|s.workers|]);
  }

  /** A drive that outlasts its lease on a live row can get company. */
  lemma OverdueInvitesSecond(s: State, i: nat, k: Kind)
    requires Safe(s) && i < |s.workers| && Driving(s.workers[i]) && k in s.tasks
    requires s.row.Some? && Active(s.row.value.status) && s.workers[i].phase.deadline < s.clock
    ensures !OneDriver(Exec(s, [Deliver(k), Work(|s.workers|, TryClaim)]))
  {
    FreeLeaseInvitesSecond(s, i, k);
  }

  lemma OneMoreTimely(s: State, t: State)
    requires Timely(s) && t.clock == s.clock && s.lease >= 0 && |t.workers| == |s.workers| + 1
    requires t.workers[..|s.workers|] == s.workers && t.workers[|s.workers|].phase == Claimed(s.clock + s.lease)
    ensures Timely(t)
  {
    forall j | 0 <= j < |t.workers| && Driving(t.workers[j]) ensures t.clock <= t.workers[j].phase.deadline {
      if j < |s.workers| {
        assert t.workers[j] == t.workers[..|s.workers|][j];
      }
    }
  }

  /** So can any drive on a live row whose lease the sweeper clears, even in timely runs. */
  lemma StaleClearInvitesSecond(s: State, step: Step, k: Kind)
    requires Safe(s) && Timely(s) && StaleClear(s, step) && k in s.tasks && s.lease >= 0
    ensures var t := Exec(s, [step, Deliver(k), Work(|s.workers|, TryClaim)]);
      !OneDriver(t) && Timely(t)
  {
    var i :| 0 <= i < |s.workers| && Driving(s.workers[i]);
    var a := Apply(s, step);
    FreeLeaseInvitesSecond(a, i, k);
    var rest := [Deliver(k), Work(|s.workers|, TryClaim)];
    ExecAppend(s, [step], rest);
    ExecSnoc(s, [], step);
    assert [] + [step] == [step];
    assert [step] + rest == [step, Deliver(k), Work(|s.workers|, TryClaim)];
    OneMoreTimely(a, Exec(a, rest));
  }

  // ---- and the sweeper does clear leases in use ----------------------------

  /** States that follow one another by the given steps. */
  ghost predicate Trace(ts: seq<State>, steps: seq<Step>) {
    |ts| == |steps| + 1 && forall k :: 0 <= k < |steps| ==> ts[k + 1] == Apply(ts[k], steps[k])
  }

  lemma {:induction false} TraceExec(ts: seq<State>, steps: seq<Step>, k: nat)
    requires Trace(ts, steps) && k <= |steps|
    ensures Exec(ts[0], steps[..k]) == ts[k]
  {
    if k > 0 {
      TraceExec(ts, steps, k - 1);
      assert steps[..k][..k - 1] == steps[..k - 1];
    }
  }

  lemma TraceOrderly(ts: seq<State>, steps: seq<Step>)
    requires Trace(ts, steps)
    requires forall k :: 0 <= k < |steps| ==> Timely(ts[k]) && !StaleClear(ts[k], steps[k])
    ensures Orderly(ts[0], steps) && Exec(ts[0], steps) == ts[|steps|]
  {
    forall k | 0 <= k < |steps|
      ensures Timely(Exec(ts[0], steps[..k])) && !StaleClear(Exec(ts[0], steps[..k]), steps[k])
    {
      TraceExec(ts, steps, k);
    }
    TraceExec(ts, steps, |steps|);
    assert steps[..|steps|] == steps;
  }

  /** Every drive keeps its lease at every moment of the run. */
  ghost predicate TimelyRun(s: State, steps: seq<Step>) {
    forall k :: 0 <= k <= |steps| ==> Timely(Exec(s, steps[..k]))
  }

  lemma TimelyExtends(s: State, steps: seq<Step>, step: Step)
    requires TimelyRun(s, steps) && Timely(Apply(Exec(s, steps), step))
    ensures TimelyRun(s, steps + [step]) && Exec(s, steps + [step]) == Apply(Exec(s, steps), step)
  {
    ExecSnoc(s, steps, step);
    var more := steps + [step];
    forall k | 0 <= k <= |more| ensures Timely(Exec(s, more[..k])) {
      if k <= |steps| {
        assert more[..k] == steps[..k];
      } else {
        assert more[..k] == more;
      }
    }
  }

  lemma OrderlyIsTimely(s: State, steps: seq<Step>)
    requires Orderly(s, steps) && Timely(Exec(s, steps))
    ensures TimelyRun(s, steps)
  {
    assert steps[..|steps|] == steps;
  }

  function S1(s: State): State { s.(creator := Created, tasks := {Run}) }
  function S2(s: State): State { S1(s).(workers := [Worker(Run, Arrived(s.clock))]) }
  function S3(s: State): State {
    S1(s).(workers := [Worker(Run, Claimed(s.clock + s.lease))], row := Some(Claim(FRESH_ROW, 0, s.clock + s.lease)),
           hist := s.hist.(claims := 1))
  }
  function S4(s: State): State { S3(s).(workers := [Worker(Run, Done)]) }
  function S5(s: State): State { S4(s).(clock := s.clock + s.lease + 1) }
  function S6(s: State): State { S5(s).(sweeps := [RequeueArmed(Run)]) }
  function S7(s: State): State { S5(s).(sweeps := [ClearArmed]) }
  function S8(s: State): State { S7(s).(workers := [Worker(Run, Done), Worker(Run, Arrived(s.clock + s.lease + 1))]) }
  function S9(s: State): State {
    var expires := s.clock + s.lease + 1 + s.lease;
    S7(s).(workers := [Worker(Run, Done), Worker(Run, Claimed(expires))],
           row := Some(Claim(S7(s).row.value, 1, expires)), hist := s.hist.(claims := 2))
  }

  lemma FirstSteps(s: State)
    requires Init(s) && s.lease >= 0
    ensures Apply(s, EnqueueRun) == S1(s)
    ensures Apply(S1(s), Deliver(Run)) == S2(s)
    ensures Apply(S2(s), Work(0, TryClaim)) == S3(s)
    ensures Apply(S3(s), Work(0, Die)) == S4(s)
  {
  }

  lemma NextSteps(s: State)
    requires Init(s) && s.lease >= 0
    ensures Apply(S4(s), Tick(s.lease + 1)) == S5(s)
    ensures Apply(S5(s), ScanLeases(2)) == S6(s)
    ensures Apply(S6(s), SweepWrite(0)) == S7(s)
  {
  }

  lemma LastSteps(s: State)
    requires Init(s) && s.lease >= 0
    ensures Apply(S7(s), Deliver(Run)) == S8(s)
    ensures Apply(S8(s), Work(1, TryClaim)) == S9(s)
  {
  }

  lemma AllTimely(s: State)
    requires Init(s) && s.lease >= 0
    ensures Timely(s) && Timely(S1(s)) && Timely(S2(s)) && Timely(S3(s)) && Timely(S4(s))
    ensures Timely(S5(s)) && Timely(S6(s)) && Timely(S7(s)) && Timely(S8(s)) && Timely(S9(s))
    ensures StaleClear(S9(s), SweepWrite(0)) && !SomeDriver(S6(s))
  {
    assert Driving(S9(s).workers[1]);
  }

  /**
   * The sweeper enqueues a new task before it clears the expired lease. If the
   * task is claimed in between, the clear hits the new claim's lease.
   */
  lemma StaleClearIsReachable(s: State) returns (steps: seq<Step>)
    requires Init(s) && s.lease >= 0
    ensures Orderly(s, steps) && Exec(s, steps) == S9(s) && Timely(S9(s))
    ensures StaleClear(S9(s), SweepWrite(0))
  {
    steps :=
        [EnqueueRun, Deliver(Run), Work(0, TryClaim), Work(0, Die), Tick(s.lease + 1), ScanLeases(2), SweepWrite(0),
              Deliver(Run), Work(1, TryClaim)];
    var ts := [s, S1(s), S2(s), S3(s), S4(s), S5(s), S6(s), S7(s), S8(s), S9(s)];
    FirstSteps(s);
    NextSteps(s);
    LastSteps(s);
    AllTimely(s);
    TraceOrderly(ts, steps);
  }

  function S10(s: State): State { S9(s).(sweeps := [SweepDone], row := Some(ClearLease(S9(s).row.value))) }
  function S11(s: State): State { S10(s).(workers := S9(s).workers + [Worker(Run, Arrived(s.clock + s.lease + 1))]) }
  function S12(s: State): State {
    var expires := s.clock + s.lease + 1 + s.lease;
    S10(s).(workers := S9(s).workers + [Worker(Run, Claimed(expires))],
            row := Some(Claim(S10(s).row.value, 2, expires)), hist := s.hist.(claims := 3))
  }

  lemma BreakingSteps(s: State)
    requires Init(s) && s.lease >= 0
    ensures Apply(S9(s), SweepWrite(0)) == S10(s)
    ensures Apply(S10(s), Deliver(Run)) == S11(s)
    ensures Apply(S11(s), Work(2, TryClaim)) == S12(s)
    ensures Timely(S10(s)) && Timely(S11(s)) && Timely(S12(s)) && !OneDriver(S12(s))
  {
    assert Driving(S12(s).workers[1]) && Driving(S12(s).workers[2]);
  }

  /**
   * With the lease sweeper running, single driver fails even in runs in which
   * every drive keeps its lease at every moment.
   */
  lemma SweeperBreaksSingleDriver(s: State) returns (steps: seq<Step>)
    requires Init(s) && s.lease >= 0
    ensures TimelyRun(s, steps) && !OneDriver(Exec(s, steps))
  {
    steps := StaleClearIsReachable(s);
    OrderlyIsTimely(s, steps);
    BreakingSteps(s);
    TimelyExtends(s, steps, SweepWrite(0));
    steps := steps + [SweepWrite(0)];
    TimelyExtends(s, steps, Deliver(Run));
    steps := steps + [Deliver(Run)];
    TimelyExtends(s, steps, Work(2, TryClaim));
    steps := steps + [Work(2, TryClaim)];
  }
}
