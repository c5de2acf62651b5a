/**
 * When a finished row stays as it is. The executor and the sweepers write
 * without looking, so "terminal" alone is not final; this module says exactly
 * when it is. It also covers what holds of status and counters in every run.
 */
module TerminalStability {
  import opened ExecutionRow
  import opened Protocol
  import opened SingleDriver

  /** A stamped decision is there to be read, or still on its way. */
  ghost predicate DecisionComing(s: State) {
    || (s.row.Some? && s.row.value.variables.decision.Some?)
    || (exists i :: 0 <= i < |s.requests| && (s.requests[i].stage.Flipped? || s.requests[i].stage.Recorded?))
  }

  /** This delivery is inside run() or resume(), or bound to enter it. */
  ghost predicate Inside(s: State, w: Worker) {
    || w.phase.Invoking? || w.phase.Returned?
    || (w.phase.Claimed? && (w.kind == Run || DecisionComing(s)))
  }

  /** All this delivery can still write is "failed". */
  ghost predicate BoundToFail(w: Worker) {
    w.phase.Tail? || w.phase.Failing?
  }

  ghost predicate FailingSweep(w: Sweep) {
    w.FailArmed? || w.DeadLetterArmed?
  }

  /** Finished, and nobody left who could say otherwise. */
  ghost predicate Quiet(s: State) {
    && s.row.Some? && !Active(s.row.value.status)
    && (forall i :: 0 <= i < |s.workers| ==> !Inside(s, s.workers[i]))
    && (!s.row.value.status.Failed? ==>
          && (forall i :: 0 <= i < |s.workers| ==> !BoundToFail(s.workers[i]))
          && (forall i :: 0 <= i < |s.sweeps| ==> !FailingSweep(s.sweeps[i])))
  }

  ghost predicate SameStatus(s: State, t: State) {
    s.row.Some? && t.row.Some? && s.row.value.status == t.row.value.status
  }

  // ---- quiet rows stay put -------------------------------------------------

  lemma QuietWorker(s: State, i: nat, act: WorkerAct)
    requires Quiet(s) && i < |s.workers|
    ensures Quiet(WorkerStep(s, i, act)) && SameStatus(s, WorkerStep(s, i, act))
  {
    var w := s.workers[i];
    var t := WorkerStep(s, i, act);
    assert !Inside(s, w);
    forall j | 0 <= j < |t.workers|
      ensures !Inside(t, t.workers[j])
      ensures !s.row.value.status.Failed? ==> !BoundToFail(t.workers[j])
    {
      if j != i {
        assert t.workers[j] == s.workers[j];
      }
    }
  }

  lemma QuietRequest(s: State, i: nat, act: RequestAct)
    requires Quiet(s) && i < |s.requests|
    ensures Quiet(RequestStep(s, i, act)) && SameStatus(s, RequestStep(s, i, act))
  {
    var t := RequestStep(s, i, act);
    assert DecisionComing(t) ==> DecisionComing(s) by {
      if !DecisionComing(s) {
        forall j | 0 <= j < |t.requests| ensures !(t.requests[j].stage.Flipped? || t.requests[j].stage.Recorded?) {
          assert j != i ==> t.requests[j] == s.requests[j];
        }
      }
    }
    forall j | 0 <= j < |t.workers| ensures !Inside(t, t.workers[j]) {
      assert !Inside(s, s.workers[j]);
    }
  }

  lemma QuietSweep(s: State, i: nat)
    requires Quiet(s) && i < |s.sweeps|
    ensures Quiet(SweepStep(s, i)) && SameStatus(s, SweepStep(s, i))
  {
    var t := SweepStep(s, i);
    forall j | 0 <= j < |t.workers| ensures !Inside(t, t.workers[j]) {
      assert !Inside(s, s.workers[j]);
    }
    if !s.row.value.status.Failed? {
      forall j | 0 <= j < |t.sweeps| ensures !FailingSweep(t.sweeps[j]) {
        assert !FailingSweep(s.sweeps[j]);
      }
    }
  }

  lemma QuietOther(s: State, step: Step)
    requires Quiet(s) && !step.Work? && !step.Handle? && !step.SweepWrite?
    ensures Apply(s, step).row.None? || (Quiet(Apply(s, step)) && SameStatus(s, Apply(s, step)))
  {
    var t := Apply(s, step);
    if t.row.Some? {
      assert t.requests == s.requests && t.sweeps == s.sweeps && t.row == s.row;
      forall j | 0 <= j < |t.workers| ensures !Inside(t, t.workers[j]) {
        if j < |s.workers| {
          assert t.workers[j] == s.workers[j];
          assert !Inside(s, s.workers[j]);
        }
      }
    }
  }

  lemma QuietStep(s: State, step: Step)
    requires Quiet(s)
    ensures Apply(s, step).row.None? || (Quiet(Apply(s, step)) && SameStatus(s, Apply(s, step)))
  {
    if step.Work? {
      if step.i < |s.workers| {
        QuietWorker(s, step.i, step.act);
      }
    } else if step.Handle? {
      if step.i < |s.requests| {
        QuietRequest(s, step.i, step.req);
      }
    } else if step.SweepWrite? {
      if step.i < |s.sweeps| {
        QuietSweep(s, step.i);
      }
    } else {
      QuietOther(s, step);
    }
  }

  /** A deleted row never comes back. */
  lemma GoneStaysGone(s: State, step: Step)
    requires s.row.None?
    ensures Apply(s, step).row.None?
  {
  }

  lemma {:induction false} QuietForever(s: State, steps: seq<Step>)
    requires Quiet(s)
    ensures var t := Exec(s, steps); t.row.None? || (Quiet(t) && SameStatus(s, t))
  {
    if steps != [] {
      var n := |steps| - 1;
      QuietForever(s, steps[..n]);
      var t := Exec(s, steps[..n]);
      if t.row.None? {
        GoneStaysGone(t, steps[n]);
      } else {
        QuietStep(t, steps[n]);
      }
    }
  }

  // ---- anything else can change --------------------------------------------

  ghost predicate ChangesBy(s: State, steps: seq<Step>) {
    var t := Exec(s, steps);
    s.row.Some? && t.row.Some? && t.row.value.status != s.row.value.status
  }

  ghost predicate CanChange(s: State) {
    exists steps :: ChangesBy(s, steps)
  }

  lemma ChangesNow(s: State, step: Step)
    requires s.row.Some? && Apply(s, step).row.Some? && Apply(s, step).row.value.status != s.row.value.status
    ensures CanChange(s)
  {
    ExecSnoc(s, [], step);
    assert [] + [step] == [step];
    assert ChangesBy(s, [step]);
  }

  lemma ChangesLater(s: State, step: Step)
    requires SameStatus(s, Apply(s, step)) && CanChange(Apply(s, step))
    ensures CanChange(s)
  {
    var steps :| ChangesBy(Apply(s, step), steps);
    ExecAppend(s, [step], steps);
    ExecSnoc(s, [], step);
    assert [] + [step] == [step];
    assert ChangesBy(s, [step] + steps);
  }

  lemma FailingChanges(s: State, i: nat)
    requires s.row.Some? && !s.row.value.status.Failed? && i < |s.workers| && s.workers[i].phase.Failing?
    ensures CanChange(s)
  {
    ChangesNow(s, Work(i, WriteFailed));
  }

  lemma ReturnedChanges(s: State, i: nat)
    requires s.row.Some? && !Active(s.row.value.status) && i < |s.workers| && s.workers[i].phase.Returned?
    ensures CanChange(s)
  {
    if s.workers[i].phase.outcome.Finished? && s.row.value.status.Completed? {
      var step := Work(i, PersistRaises(false));
      FailingChanges(Apply(s, step), i);
      ChangesLater(s, step);
    } else {
      ChangesNow(s, Work(i, Persist));
    }
  }

  lemma InvokingChanges(s: State, i: nat)
    requires s.row.Some? && !Active(s.row.value.status) && i < |s.workers| && s.workers[i].phase.Invoking?
    ensures CanChange(s)
  {
    var step := Work(i, GraphCompletes);
    ReturnedChanges(Apply(s, step), i);
    ChangesLater(s, step);
  }

  lemma ClaimedChanges(s: State, i: nat)
    requires s.row.Some? && !Active(s.row.value.status) && i < |s.workers| && s.workers[i].phase.Claimed?
    requires s.workers[i].kind == Run || s.row.value.variables.decision.Some?
    ensures CanChange(s)
  {
    var step := Work(i, Proceed);
    InvokingChanges(Apply(s, step), i);
    ChangesLater(s, step);
  }

  lemma StampedChanges(s: State, i: nat, q: nat)
    requires s.row.Some? && !Active(s.row.value.status) && i < |s.workers| && s.workers[i].phase.Claimed?
    requires q < |s.requests| && (s.requests[q].stage.Recorded? || s.requests[q].stage.Flipped?)
    ensures CanChange(s)
    decreases if s.requests[q].stage.Recorded? then 0 else 1
  {
    if s.requests[q].stage.Recorded? {
      var step := Handle(q, WriteStamp);
      ClaimedChanges(Apply(s, step), i);
      ChangesLater(s, step);
    } else {
      var step := Handle(q, RecordApproval);
      StampedChanges(Apply(s, step), i, q);
      ChangesLater(s, step);
    }
  }

  lemma InsideChanges(s: State, i: nat)
    requires s.row.Some? && !Active(s.row.value.status) && i < |s.workers| && Inside(s, s.workers[i])
    ensures CanChange(s)
  {
    if s.workers[i].phase.Returned? {
      ReturnedChanges(s, i);
    } else if s.workers[i].phase.Invoking? {
      InvokingChanges(s, i);
    } else if s.workers[i].kind == Run || s.row.value.variables.decision.Some? {
      ClaimedChanges(s, i);
    } else {
      var q :| 0 <= q < |s.requests| && (s.requests[q].stage.Flipped? || s.requests[q].stage.Recorded?);
      StampedChanges(s, i, q);
    }
  }

  lemma BoundChanges(s: State, i: nat)
    requires s.row.Some? && !s.row.value.status.Failed? && i < |s.workers| && BoundToFail(s.workers[i])
    ensures CanChange(s)
  {
    if s.workers[i].phase.Failing? {
      FailingChanges(s, i);
    } else {
      var step := Work(i, TailRaises);
      FailingChanges(Apply(s, step), i);
      ChangesLater(s, step);
    }
  }

  lemma UnquietChanges(s: State)
    requires s.row.Some? && !Active(s.row.value.status) && !Quiet(s)
    ensures CanChange(s)
  {
    if i :| 0 <= i < |s.workers| && Inside(s, s.workers[i]) {
      InsideChanges(s, i);
    } else if i :| 0 <= i < |s.workers| && BoundToFail(s.workers[i]) && !s.row.value.status.Failed? {
      BoundChanges(s, i);
    } else {
      var i :| 0 <= i < |s.sweeps| && FailingSweep(s.sweeps[i]);
      ChangesNow(s, SweepWrite(i));
    }
  }

  /**
   * A finished row keeps its status through every continuation, or is deleted,
   * if and only if it is quiet.
   */
  lemma TerminalStableIffQuiet(s: State)
    requires s.row.Some? && !Active(s.row.value.status)
    ensures !CanChange(s) <==> Quiet(s)
  {
    if Quiet(s) {
      forall steps ensures !ChangesBy(s, steps) {
        QuietForever(s, steps);
      }
    } else {
      UnquietChanges(s);
    }
  }

  /** A canceled row need not stay canceled: the delivery that holds it may still complete it. */
  lemma CancelIsNotFinal(s: State) returns (steps: seq<Step>)
    requires Init(s) && s.lease >= 0
    ensures Exec(s, steps).row.Some? && Exec(s, steps).row.value.status.Canceled? && CanChange(Exec(s, steps))
  {
    steps := [EnqueueRun, Deliver(Run), Work(0, TryClaim), CancelRow];
    var t := Apply(S3(s), CancelRow);
    FirstSteps(s);
    TraceExec([s, S1(s), S2(s), S3(s), t], steps, 4);
    assert steps[..4] == steps;
    assert Inside(t, t.workers[0]);
    TerminalStableIffQuiet(t);
  }

  // ---- whole runs ----------------------------------------------------------

  /** From s to t, attempts still count claims and queued is not entered. */
  ghost predicate StillCounts(s: State, t: State) {
    s.row.Some? && s.row.value.deliveryAttempts == s.hist.claims && t.row.Some? ==>
      t.row.value.deliveryAttempts == t.hist.claims && (t.row.value.status.Queued? ==> s.row.value.status.Queued?)
  }

  lemma WorkerCounts(s: State, i: nat, act: WorkerAct)
    requires i < |s.workers|
    ensures StillCounts(s, WorkerStep(s, i, act))
  {
  }

  lemma RequestCounts(s: State, i: nat, act: RequestAct)
    requires i < |s.requests|
    ensures StillCounts(s, RequestStep(s, i, act))
  {
  }

  lemma SweepCounts(s: State, i: nat)
    requires i < |s.sweeps|
    ensures StillCounts(s, SweepStep(s, i))
  {
  }

  /** Queued is never re-entered, and attempts count claims. */
  lemma StepCounts(s: State, step: Step)
    ensures StillCounts(s, Apply(s, step))
  {
    match step
    case Work(i, act) =>
      if i < |s.workers| {
        WorkerCounts(s, i, act);
      }
    case Handle(i, act) =>
      if i < |s.requests| {
        RequestCounts(s, i, act);
      }
    case SweepWrite(i) =>
      if i < |s.sweeps| {
        SweepCounts(s, i);
      }
    case _ =>
  }

  lemma {:induction false} RunCounts(s: State, steps: seq<Step>)
    requires Init(s)
    ensures var t := Exec(s, steps); t.row.Some? ==> t.row.value.deliveryAttempts == t.hist.claims
  {
    if steps != [] {
      var n := |steps| - 1;
      RunCounts(s, steps[..n]);
      var t := Exec(s, steps[..n]);
      if t.row.None? {
        GoneStaysGone(t, steps[n]);
      } else {
        StepCounts(t, steps[n]);
      }
    }
  }

  /** Once a row has left queued it is never queued again. */
  lemma {:induction false} QueuedOnlyOnce(s: State, before: seq<Step>, after: seq<Step>)
    requires Init(s)
    requires var t := Exec(s, before); t.row.Some? && !t.row.value.status.Queued?
    ensures var t := Exec(s, before + after); t.row.Some? ==> !t.row.value.status.Queued?
  {
    if after == [] {
      assert before + after == before;
    } else {
      var n := |after| - 1;
      QueuedOnlyOnce(s, before, after[..n]);
      assert before + after == (before + after[..n]) + [after[n]];
      ExecSnoc(s, before + after[..n], after[n]);
      RunCounts(s, before + after[..n]);
      var t := Exec(s, before + after[..n]);
      if t.row.None? {
        GoneStaysGone(t, after[n]);
      } else {
        StepCounts(t, after[n]);
      }
    }
  }
}
