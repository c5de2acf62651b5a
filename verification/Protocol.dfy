/**
 * The durable execution protocol around one execution row, as a step system.
 * Every database statement is one step; deliveries, approvals, cancels, the
 * sweepers and deletion interleave freely. A step that is not enabled leaves
 * the state as it is, so any sequence of steps is a run.
 */
module Protocol {
  import opened Wrappers
  import opened ExecutionRow

  datatype Kind = Run | Resume

  datatype Outcome = Finished | Paused(pause: Pause)

  /**
   * Where a delivery stands. From Claimed to Returned it is driving the graph:
   * the row is claimed and the outcome not yet written.
   */
  datatype Phase =
    | Arrived(now: int)
    | Claimed(deadline: int)
    | Invoking(deadline: int)
    | Returned(deadline: int, outcome: Outcome)
    | Tail
    | Failing
    | Crashing
    | Done

  datatype Worker = Worker(kind: Kind, phase: Phase)

  predicate Driving(w: Worker) {
    w.phase.Claimed? || w.phase.Invoking? || w.phase.Returned?
  }

  /** An approval request: read the row, flip it, record the approval, stamp the decision, enqueue. */
  datatype Stage = Validated | Flipped | Recorded | Stamped | Closed

  /**
   * token: index of the pause an emailed token was issued for, if any.
   * from: pause whose data the request read; seen: pauses recorded by then;
   * sawStamp: whether a decision had been stamped over them; flippedAt: pauses
   * recorded when its flip took effect.
   */
  datatype Request = Request(
    stage: Stage, decision: Decision, snapshot: Vars, token: Option<nat>,
    from: nat, seen: nat, sawStamp: bool, flippedAt: nat)

  /** A sweeper that has scanned the row and not yet written. */
  datatype Sweep = FailArmed | RequeueArmed(kind: Kind) | ClearArmed | DeadLetterArmed | SweepDone

  datatype Creator = Creating | EnqueueFailed | Created

  /** A row of the audit trail: the node that was approved or rejected. */
  datatype Approval = Approval(node: string, decision: Decision)

  datatype History = History(
    claims: nat, pauses: seq<Pause>, flips: nat, approvals: seq<Approval>, varsFrom: nat, stamped: bool)

  datatype State = State(
    row: Option<Row>, clock: int, lease: int, tasks: set<Kind>,
    workers: seq<Worker>, requests: seq<Request>, sweeps: seq<Sweep>, deleteArmed: bool, creator: Creator,
    hist: History)

  ghost predicate Init(s: State) {
    && s.row == Some(FRESH_ROW) && s.tasks == {} && s.workers == [] && s.requests == [] && s.sweeps == []
    && !s.deleteArmed && s.creator == Creating && s.hist == History(0, [], 0, [], 0, false)
  }

  datatype WorkerAct =
    | TryClaim
    | LoadRaises
    | Proceed
    | GraphCompletes
    | GraphPauses(node: string)
    | GraphRaises
    | Persist
    | PersistRaises(landed: bool)
    | TailEnds
    | TailRaises
    | WriteFailed
    | WriteFailedRaises
    | CrashWrite
    | Die

  datatype RequestAct = TryFlip | RecordApproval | WriteStamp | EnqueueResume | GiveUp

  datatype Step =
    | Tick(seconds: nat)
    | EnqueueRun
    | EnqueueRunFails
    | FailQueued
    | Deliver(kind: Kind)
    | Work(i: nat, act: WorkerAct)
    | CancelRow
    | OpenInApp(decision: Decision)
    | OpenEmail(token: nat, decision: Decision)
    | Handle(i: nat, req: RequestAct)
    | ScanStuck
    | ScanApprovals
    | ScanLeases(maxAttempts: nat)
    | SweepWrite(i: nat)
    | ArmDelete
    | DeleteRow

  // ---- deliveries ----------------------------------------------------------

  function SetPhase(s: State, i: nat, p: Phase): State
    requires i < |s.workers|
  {
    s.(workers := s.workers[i := s.workers[i].(phase := p)])
  }

  /** An update by id; on a deleted row it does nothing. */
  function Update(s: State, f: Row -> Row): State {
    if s.row.Some? then s.(row := Some(f(s.row.value))) else s
  }

  function DoClaim(s: State, i: nat, now: int): State
    requires i < |s.workers|
  {
    if s.row.Some? && Claimable(s.row.value, s.clock) then
      SetPhase(s, i, Claimed(now + s.lease))
        .(row := Some(Claim(s.row.value, i, now + s.lease)), hist := s.hist.(claims := s.hist.claims + 1))
    else SetPhase(s, i, Done)
  }

  /** A resume reads its decision back from the row, and stops if there is none. */
  function DoProceed(s: State, i: nat, deadline: int): State
    requires i < |s.workers|
  {
    if s.row.None? || (s.workers[i].kind == Resume && s.row.value.variables.decision.None?) then SetPhase(s, i, Done)
    else SetPhase(s, i, Invoking(deadline))
  }

  function DoPersist(s: State, i: nat, outcome: Outcome): State
    requires i < |s.workers|
  {
    match outcome
    case Finished => SetPhase(Update(s, MarkCompleted), i, Done)
    case Paused(p) =>
      var t := SetPhase(Update(s, (r: Row) => MarkWaiting(r, p)), i, Tail);
      if s.row.None? then t
      else t.(hist := s.hist.(pauses := s.hist.pauses + [p], varsFrom := |s.hist.pauses|, stamped := false))
  }

  function WorkerStep(s: State, i: nat, act: WorkerAct): State
    requires i < |s.workers|
  {
    var p := s.workers[i].phase;
    match act
    case TryClaim => if p.Arrived? then DoClaim(s, i, p.now) else s
    case Proceed => if p.Claimed? then DoProceed(s, i, p.deadline) else s
    case LoadRaises => if p.Claimed? then SetPhase(s, i, Crashing) else s
    case GraphCompletes => if p.Invoking? then SetPhase(s, i, Returned(p.deadline, Finished)) else s
    case GraphPauses(node) =>
      if p.Invoking? then SetPhase(s, i, Returned(p.deadline, Paused(Pause(node, s.clock)))) else s
    case GraphRaises => if p.Invoking? then SetPhase(s, i, Failing) else s
    case Persist => if p.Returned? then DoPersist(s, i, p.outcome) else s
    case PersistRaises(landed) =>
      if p.Returned? then SetPhase(if landed then DoPersist(s, i, p.outcome) else s, i, Failing) else s
    case TailEnds => if p.Tail? then SetPhase(s, i, Done) else s
    case TailRaises => if p.Tail? then SetPhase(s, i, Failing) else s
    case WriteFailed => if p.Failing? then SetPhase(Update(s, MarkFailed), i, Done) else s
    case WriteFailedRaises => if p.Failing? then SetPhase(s, i, Crashing) else s
    case CrashWrite => if p.Crashing? then SetPhase(Update(s, (r: Row) => FailIf(r, Running)), i, Done) else s
    case Die => SetPhase(s, i, Done)
  }

  // ---- approvals -----------------------------------------------------------

  function Open(s: State, token: Option<nat>, d: Decision): State
    requires s.row.Some?
  {
    s.(requests := s.requests + [Request(
      Validated, d, s.row.value.variables, token, s.hist.varsFrom, |s.hist.pauses|, s.hist.stamped, 0)])
  }

  predicate OpenForApproval(s: State) {
    s.row.Some? && s.row.value.status.WaitingApproval? && s.row.value.variables.pending.Some?
  }

  function SetStage(s: State, i: nat, g: Stage): State
    requires i < |s.requests|
  {
    s.(requests := s.requests[i := s.requests[i].(stage := g)])
  }

  function DoFlip(s: State, i: nat): State
    requires i < |s.requests|
  {
    if s.row.Some? && s.row.value.status.WaitingApproval? then
      s.(row := Some(Flip(s.row.value)),
         requests := s.requests[i := s.requests[i].(stage := Flipped, flippedAt := |s.hist.pauses|)],
         hist := s.hist.(flips := s.hist.flips + 1))
    else SetStage(s, i, Closed)
  }

  function DoStamp(s: State, i: nat): State
    requires i < |s.requests|
  {
    var q := s.requests[i];
    var t := SetStage(Update(s, (r: Row) => Stamp(r, q.snapshot, q.decision)), i, Stamped);
    if s.row.None? then t else t.(hist := s.hist.(varsFrom := q.from, stamped := true))
  }

  /** The node is the one the request read as pending. */
  function ApprovalOf(q: Request): Approval {
    Approval(if q.snapshot.pending.Some? then q.snapshot.pending.value.node else "", q.decision)
  }

  function RequestStep(s: State, i: nat, act: RequestAct): State
    requires i < |s.requests|
  {
    var q := s.requests[i];
    match act
    case TryFlip => if q.stage.Validated? then DoFlip(s, i) else s
    case RecordApproval =>
      if !q.stage.Flipped? then s
      else if s.row.None? then SetStage(s, i, Closed)
      else SetStage(s, i, Recorded).(hist := s.hist.(approvals := s.hist.approvals + [ApprovalOf(q)]))
    case WriteStamp => if q.stage.Recorded? then DoStamp(s, i) else s
    case EnqueueResume => if q.stage.Stamped? then SetStage(s, i, Closed).(tasks := s.tasks + {Resume}) else s
    case GiveUp => SetStage(s, i, Closed)
  }

  // ---- sweepers ------------------------------------------------------------

  function AddSweep(s: State, w: Sweep): State {
    s.(sweeps := s.sweeps + [w])
  }

  function SetSweep(s: State, i: nat, w: Sweep): State
    requires i < |s.sweeps|
  {
    s.(sweeps := s.sweeps[i := w])
  }

  /** The lease sweeper recovers a running row whose lease has run out, or gives it up. */
  function LeaseSweep(s: State, maxAttempts: nat): State {
    if s.row.Some? && s.row.value.status.Running? && s.row.value.leaseExpiresAt.Some?
       && s.row.value.leaseExpiresAt.value < s.clock
    then
      AddSweep(s, if s.row.value.deliveryAttempts >= maxAttempts then DeadLetterArmed
                  else RequeueArmed(if s.row.value.variables.decision.Some? then Resume else Run))
    else s
  }

  /** Whatever a sweeper writes, it writes by id alone, on the strength of its earlier scan. */
  function SweepStep(s: State, i: nat): State
    requires i < |s.sweeps|
  {
    match s.sweeps[i]
    case FailArmed => SetSweep(Update(s, MarkFailed), i, SweepDone)
    case RequeueArmed(k) => SetSweep(s, i, ClearArmed).(tasks := s.tasks + {k})
    case ClearArmed => SetSweep(Update(s, ClearLease), i, SweepDone)
    case DeadLetterArmed => SetSweep(Update(s, DeadLetter), i, SweepDone)
    case SweepDone => s
  }

  // ---- steps and runs ------------------------------------------------------

  function Apply(s: State, step: Step): State {
    match step
    case Tick(n) => s.(clock := s.clock + n)
    case EnqueueRun => if s.creator.Creating? then s.(creator := Created, tasks := s.tasks + {Run}) else s
    case EnqueueRunFails => if s.creator.Creating? then s.(creator := EnqueueFailed) else s
    case FailQueued =>
      if s.creator.EnqueueFailed? then Update(s, (r: Row) => FailIf(r, Queued)).(creator := Created) else s
    case Deliver(k) => if k in s.tasks then s.(workers := s.workers + [Worker(k, Arrived(s.clock))]) else s
    case Work(i, act) => if i < |s.workers| then WorkerStep(s, i, act) else s
    case CancelRow => Update(s, Cancel)
    case OpenInApp(d) => if OpenForApproval(s) then Open(s, None, d) else s
    case OpenEmail(k, d) =>
      if OpenForApproval(s) && k < |s.hist.pauses| && s.row.value.variables.pending == Some(s.hist.pauses[k])
      then Open(s, Some(k), d) else s
    case Handle(i, act) => if i < |s.requests| then RequestStep(s, i, act) else s
    case ScanStuck => if s.row.Some? && s.row.value.status.Running? then AddSweep(s, FailArmed) else s
    case ScanApprovals => if s.row.Some? && s.row.value.status.WaitingApproval? then AddSweep(s, FailArmed) else s
    case ScanLeases(n) => LeaseSweep(s, n)
    case SweepWrite(i) => if i < |s.sweeps| then SweepStep(s, i) else s
    case ArmDelete => if s.row.Some? && !Active(s.row.value.status) then s.(deleteArmed := true) else s
    case DeleteRow => if s.deleteArmed then s.(row := None, deleteArmed := false) else s
  }

  function Exec(s: State, steps: seq<Step>): State {
    if steps == [] then s else Apply(Exec(s, steps[..|steps| - 1]), steps[|steps| - 1])
  }

  lemma ExecSnoc(s: State, steps: seq<Step>, step: Step)
    ensures Exec(s, steps + [step]) == Apply(Exec(s, steps), step)
  {
    assert (steps + [step])[..|steps|] == steps;
  }

  lemma {:induction false} ExecAppend(s: State, a: seq<Step>, b: seq<Step>)
    ensures Exec(s, a + b) == Exec(Exec(s, a), b)
  {
    if b == [] {
      assert a + b == a;
    } else {
      var n := |b| - 1;
      ExecAppend(s, a, b[..n]);
      ExecSnoc(s, a + b[..n], b[n]);
      ExecSnoc(Exec(s, a), b[..n], b[n]);
      assert a + b == (a + b[..n]) + [b[n]] && b == b[..n] + [b[n]];
    }
  }
}
