/**
 * Whose decision the row carries: over every run, what a resume reads, what
 * the audit trail says and every resume task go back to a request whose flip
 * took effect.
 */
module Decisions {
  import opened Wrappers
  import opened ExecutionRow
  import opened Protocol
  import opened Approvals

  /** The request flipped the row; it notes how many pauses there were, which is never none. */
  predicate TookEffect(q: Request) {
    q.flippedAt > 0
  }

  ghost predicate DecidedBy(s: State, d: Decision) {
    exists i :: 0 <= i < |s.requests| && s.requests[i].decision == d && TookEffect(s.requests[i])
  }

  ghost predicate RecordedBy(s: State, a: Approval) {
    exists i :: 0 <= i < |s.requests| && TookEffect(s.requests[i])
                && s.requests[i].decision == a.decision
                && s.requests[i].snapshot.pending.Some? && s.requests[i].snapshot.pending.value.node == a.node
  }

  ghost predicate SomeEffect(s: State) {
    exists i :: 0 <= i < |s.requests| && TookEffect(s.requests[i])
  }

  /** Past its flip a request has taken effect; every request read a pending pause. */
  ghost predicate StagesSound(s: State) {
    forall i :: 0 <= i < |s.requests| ==>
      && s.requests[i].snapshot.pending.Some?
      && (s.requests[i].stage.Flipped? || s.requests[i].stage.Recorded? || s.requests[i].stage.Stamped? ==>
            TookEffect(s.requests[i]))
  }

  ghost predicate RowSound(s: State) {
    s.row.Some? && s.row.value.variables.decision.Some? ==> DecidedBy(s, s.row.value.variables.decision.value)
  }

  ghost predicate TrailSound(s: State) {
    forall k :: 0 <= k < |s.hist.approvals| ==> RecordedBy(s, s.hist.approvals[k])
  }

  /** A resume is enqueued, about to be, or delivered only after some flip took effect. */
  ghost predicate ResumesSound(s: State) {
    && (Resume in s.tasks ==> SomeEffect(s))
    && (forall i :: 0 <= i < |s.sweeps| && s.sweeps[i] == RequeueArmed(Resume) ==> SomeEffect(s))
    && (forall i :: 0 <= i < |s.workers| && s.workers[i].kind == Resume ==> SomeEffect(s))
  }

  ghost predicate Sound(s: State) {
    StagesSound(s) && RowSound(s) && TrailSound(s) && ResumesSound(s)
  }

  /** Requests that keep what they are and may only come to have taken effect. */
  ghost predicate RequestsGrow(s: State, t: State) {
    && |s.requests| <= |t.requests|
    && forall i :: 0 <= i < |s.requests| ==>
         && t.requests[i].decision == s.requests[i].decision && t.requests[i].snapshot == s.requests[i].snapshot
         && (TookEffect(s.requests[i]) ==> TookEffect(t.requests[i]))
  }

  lemma EffectsStay(s: State, t: State)
    requires RequestsGrow(s, t)
    ensures forall d :: DecidedBy(s, d) ==> DecidedBy(t, d)
    ensures forall a :: RecordedBy(s, a) ==> RecordedBy(t, a)
    ensures SomeEffect(s) ==> SomeEffect(t)
  {
    forall d | DecidedBy(s, d) ensures DecidedBy(t, d) {
      var i :| 0 <= i < |s.requests| && s.requests[i].decision == d && TookEffect(s.requests[i]);
      assert t.requests[i].decision == d;
    }
    forall a | RecordedBy(s, a) ensures RecordedBy(t, a) {
      var i :| 0 <= i < |s.requests| && TookEffect(s.requests[i])
        && s.requests[i].decision == a.decision
        && s.requests[i].snapshot.pending.Some? && s.requests[i].snapshot.pending.value.node == a.node;
      assert t.requests[i].decision == a.decision;
    }
    if SomeEffect(s) {
      var i :| 0 <= i < |s.requests| && TookEffect(s.requests[i]);
      assert TookEffect(t.requests[i]);
    }
  }

  // ---- every step keeps it ---------------------------------------------------

  lemma WorkerSound(s: State, i: nat, act: WorkerAct)
    requires Sound(s) && i < |s.workers|
    ensures Sound(WorkerStep(s, i, act))
  {
    WorkerLeavesRequests(s, i, act);
    KeptSound(s, WorkerStep(s, i, act));
  }

  /** Requests, trail, tasks and sweeps stay, deliveries keep their kind, and the row gets no new decision. */
  ghost predicate LeavesRequests(s: State, t: State) {
    && t.requests == s.requests && t.hist.approvals == s.hist.approvals && t.tasks == s.tasks && t.sweeps == s.sweeps
    && |t.workers| == |s.workers| && (forall j :: 0 <= j < |s.workers| ==> t.workers[j].kind == s.workers[j].kind)
    && (t.row.Some? ==> s.row.Some?)
    && (t.row.Some? ==> t.row.value.variables.decision.None? || t.row.value.variables == s.row.value.variables)
  }

  lemma PhaseLeaves(s: State, t: State, i: nat, p: Phase)
    requires LeavesRequests(s, t) && i < |t.workers|
    ensures LeavesRequests(s, SetPhase(t, i, p))
  {
  }

  lemma PersistLeaves(s: State, i: nat, outcome: Outcome)
    requires i < |s.workers|
    ensures LeavesRequests(s, DoPersist(s, i, outcome))
  {
  }

  lemma ClaimLeaves(s: State, i: nat, now: int)
    requires i < |s.workers|
    ensures LeavesRequests(s, DoClaim(s, i, now))
  {
  }

  lemma WorkerLeavesRequests(s: State, i: nat, act: WorkerAct)
    requires i < |s.workers|
    ensures LeavesRequests(s, WorkerStep(s, i, act))
  {
    var p := s.workers[i].phase;
    if act.TryClaim? && p.Arrived? {
      ClaimLeaves(s, i, p.now);
    } else if act.Persist? && p.Returned? {
      PersistLeaves(s, i, p.outcome);
    } else if act.PersistRaises? && p.Returned? {
      PersistLeaves(s, i, p.outcome);
      PhaseLeaves(s, if act.landed then DoPersist(s, i, p.outcome) else s, i, Failing);
    } else if !act.TryClaim? && !act.Persist? && !act.PersistRaises? {
      PlainActLeaves(s, i, act);
    }
  }

  lemma PlainActLeaves(s: State, i: nat, act: WorkerAct)
    requires i < |s.workers| && !act.TryClaim? && !act.Persist? && !act.PersistRaises?
    ensures LeavesRequests(s, WorkerStep(s, i, act))
  {
  }

  lemma KeptSound(s: State, t: State)
    requires Sound(s) && LeavesRequests(s, t)
    ensures Sound(t)
  {
    EffectsStay(s, t);
  }

  lemma FlipSound(s: State, i: nat)
    requires Sound(s) && i < |s.requests| && s.requests[i].stage.Validated? && (Waiting(s) ==> |s.hist.pauses| > 0)
    ensures Sound(DoFlip(s, i))
  {
    EffectsStay(s, DoFlip(s, i));
  }

  lemma RecordSound(s: State, i: nat)
    requires Sound(s) && i < |s.requests| && s.requests[i].stage.Flipped?
    ensures Sound(RequestStep(s, i, RecordApproval))
  {
    var t := RequestStep(s, i, RecordApproval);
    EffectsStay(s, t);
    if s.row.Some? {
      assert TookEffect(t.requests[i]);
      assert RecordedBy(t, ApprovalOf(s.requests[i]));
    }
  }

  lemma StampSound(s: State, i: nat)
    requires Sound(s) && i < |s.requests| && s.requests[i].stage.Recorded?
    ensures Sound(DoStamp(s, i))
  {
    var t := DoStamp(s, i);
    EffectsStay(s, t);
    assert TookEffect(t.requests[i]) && t.requests[i].decision == s.requests[i].decision;
  }

  lemma EnqueueSound(s: State, i: nat)
    requires Sound(s) && i < |s.requests| && s.requests[i].stage.Stamped?
    ensures Sound(RequestStep(s, i, EnqueueResume))
  {
    var t := RequestStep(s, i, EnqueueResume);
    EffectsStay(s, t);
    assert TookEffect(t.requests[i]);
  }

  lemma RequestSound(s: State, i: nat, act: RequestAct)
    requires Sound(s) && i < |s.requests| && (Waiting(s) ==> |s.hist.pauses| > 0)
    ensures Sound(RequestStep(s, i, act))
  {
    var q := s.requests[i];
    if act.TryFlip? && q.stage.Validated? {
      FlipSound(s, i);
    } else if act.RecordApproval? && q.stage.Flipped? {
      RecordSound(s, i);
    } else if act.WriteStamp? && q.stage.Recorded? {
      StampSound(s, i);
    } else if act.EnqueueResume? && q.stage.Stamped? {
      EnqueueSound(s, i);
    } else {
      EffectsStay(s, RequestStep(s, i, act));
    }
  }

  lemma SweepSound(s: State, i: nat)
    requires Sound(s) && i < |s.sweeps|
    ensures Sound(SweepStep(s, i))
  {
    var t := SweepStep(s, i);
    EffectsStay(s, t);
    forall j | 0 <= j < |t.sweeps| && t.sweeps[j] == RequeueArmed(Resume) ensures SomeEffect(t) {
      assert j != i && s.sweeps[j] == RequeueArmed(Resume);
    }
  }

  lemma OpenSound(s: State, token: Option<nat>, d: Decision)
    requires Sound(s) && OpenForApproval(s)
    ensures Sound(Open(s, token, d))
  {
    EffectsStay(s, Open(s, token, d));
  }

  lemma ScanSound(s: State, n: nat)
    requires Sound(s)
    ensures Sound(LeaseSweep(s, n))
  {
    var t := LeaseSweep(s, n);
    EffectsStay(s, t);
    if s.row.Some? && s.row.value.variables.decision.Some? {
      var i :| 0 <= i < |s.requests| && s.requests[i].decision == s.row.value.variables.decision.value
        && TookEffect(s.requests[i]);
      assert SomeEffect(s);
    }
  }

  lemma StepSound(s: State, step: Step)
    requires Sound(s) && (Waiting(s) ==> |s.hist.pauses| > 0)
    ensures Sound(Apply(s, step))
  {
    match step
    case Work(i, act) =>
      if i < |s.workers| {
        WorkerSound(s, i, act);
      }
    case Handle(i, act) =>
      if i < |s.requests| {
        RequestSound(s, i, act);
      }
    case SweepWrite(i) =>
      if i < |s.sweeps| {
        SweepSound(s, i);
      }
    case OpenInApp(d) =>
      if OpenForApproval(s) {
        OpenSound(s, None, d);
      }
    case OpenEmail(k, d) =>
      if OpenForApproval(s) {
        OpenSound(s, Some(k), d);
      }
    case ScanLeases(n) => ScanSound(s, n);
    case Deliver(k) => DeliverSound(s, k);
    case _ => OtherSound(s, step);
  }

  lemma DeliverSound(s: State, k: Kind)
    requires Sound(s)
    ensures Sound(Apply(s, Deliver(k)))
  {
    EffectsStay(s, Apply(s, Deliver(k)));
  }

  lemma OtherSound(s: State, step: Step)
    requires Sound(s) && !step.Work? && !step.Handle? && !step.SweepWrite? && !step.Deliver?
    requires !step.OpenInApp? && !step.OpenEmail? && !step.ScanLeases?
    ensures Sound(Apply(s, step))
  {
    var t := Apply(s, step);
    if step.EnqueueRun? || step.ScanStuck? || step.ScanApprovals? {
      EffectsStay(s, t);
      assert s.requests == t.requests && s.row == t.row && s.hist == t.hist && s.workers == t.workers;
    } else {
      KeptSound(s, t);
    }
  }

  lemma {:induction false} AlwaysSound(s: State, steps: seq<Step>)
    requires Init(s)
    ensures Sound(Exec(s, steps))
  {
    if steps != [] {
      var n := |steps| - 1;
      AlwaysSound(s, steps[..n]);
      OneWinnerPerPause(s, steps[..n]);
      StepSound(Exec(s, steps[..n]), steps[n]);
    }
  }

  // ---- what it says ------------------------------------------------------------

  /** In every run the decision in the row is that of a request whose flip took effect. */
  lemma DecisionIsSomeones(s: State, steps: seq<Step>)
    requires Init(s)
    ensures var t := Exec(s, steps);
      t.row.Some? && t.row.value.variables.decision.Some? ==>
        exists i :: 0 <= i < |t.requests| && TookEffect(t.requests[i])
                    && t.row.value.variables.decision == Some(t.requests[i].decision)
  {
    AlwaysSound(s, steps);
    var t := Exec(s, steps);
    if t.row.Some? && t.row.value.variables.decision.Some? {
      var i :| 0 <= i < |t.requests| && t.requests[i].decision == t.row.value.variables.decision.value
        && TookEffect(t.requests[i]);
    }
  }

  /** In every run an approval on record has the node and the decision of a request whose flip took effect. */
  lemma ApprovalsAreSomeones(s: State, steps: seq<Step>)
    requires Init(s)
    ensures var t := Exec(s, steps); forall k :: 0 <= k < |t.hist.approvals| ==> RecordedBy(t, t.hist.approvals[k])
  {
    AlwaysSound(s, steps);
  }

  lemma AllDecideAlike(t: State, d: Decision)
    requires forall i :: 0 <= i < |t.requests| ==> t.requests[i].decision == d
    requires forall k :: 0 <= k < |t.hist.approvals| ==> RecordedBy(t, t.hist.approvals[k])
    ensures forall k :: 0 <= k < |t.hist.approvals| ==> t.hist.approvals[k].decision == d
  {
  }

  /** A stamp writes the request's own decision over the pending data it read, and nothing else of the row. */
  lemma StampIsOwn(s: State, i: nat)
    requires i < |s.requests| && s.requests[i].stage.Recorded? && s.row.Some?
    ensures var t := Apply(s, Handle(i, WriteStamp));
      && t.row.Some? && t.row.value.variables.decision == Some(s.requests[i].decision)
      && t.row.value.variables.pending == s.requests[i].snapshot.pending
      && t.row.value.status == s.row.value.status && t.row.value.leaseOwner == s.row.value.leaseOwner
      && t.row.value.leaseExpiresAt == s.row.value.leaseExpiresAt
      && t.row.value.deliveryAttempts == s.row.value.deliveryAttempts
  {
  }

  /** An approval row names the node the request read as pending and the decision it was given. */
  lemma ApprovalIsOwn(s: State, i: nat)
    requires Sound(s) && i < |s.requests| && s.requests[i].stage.Flipped? && s.row.Some?
    ensures var q, t := s.requests[i], Apply(s, Handle(i, RecordApproval));
      && q.snapshot.pending.Some? && t.requests[i].stage.Recorded?
      && t.hist.approvals == s.hist.approvals + [Approval(q.snapshot.pending.value.node, q.decision)]
  {
  }

  /** Once a stamped request has enqueued, there is a resume task, and it never goes away. */
  lemma {:induction false} ResumeStays(s: State, i: nat, steps: seq<Step>)
    requires i < |s.requests| && s.requests[i].stage.Stamped?
    ensures Resume in Exec(Apply(s, Handle(i, EnqueueResume)), steps).tasks
  {
    if steps != [] {
      var n := |steps| - 1;
      ResumeStays(s, i, steps[..n]);
      TasksStay(Exec(Apply(s, Handle(i, EnqueueResume)), steps[..n]), steps[n]);
    }
  }

  lemma TasksStay(s: State, step: Step)
    ensures s.tasks <= Apply(s, step).tasks
  {
  }

  /** No resume is ever delivered before some request's flip took effect. */
  lemma ResumeNeedsDecision(s: State, steps: seq<Step>)
    requires Init(s)
    ensures var t := Exec(s, steps);
      (Resume in t.tasks || exists i :: 0 <= i < |t.workers| && t.workers[i].kind == Resume) ==> SomeEffect(t)
  {
    AlwaysSound(s, steps);
  }

  ghost predicate OpensOnly(steps: seq<Step>, d: Decision) {
    forall k :: 0 <= k < |steps| ==>
      (steps[k].OpenInApp? || steps[k].OpenEmail? ==> steps[k].decision == d)
  }

  lemma {:induction false} RequestsCarry(s: State, steps: seq<Step>, d: Decision)
    requires Init(s) && OpensOnly(steps, d)
    ensures forall i :: 0 <= i < |Exec(s, steps).requests| ==> Exec(s, steps).requests[i].decision == d
  {
    if steps != [] {
      var n := |steps| - 1;
      RequestsCarry(s, steps[..n], d);
      NewRequestsCarry(Exec(s, steps[..n]), steps[n], d);
    }
  }

  lemma NewRequestsCarry(s: State, step: Step, d: Decision)
    requires forall i :: 0 <= i < |s.requests| ==> s.requests[i].decision == d
    requires step.OpenInApp? || step.OpenEmail? ==> step.decision == d
    ensures forall i :: 0 <= i < |Apply(s, step).requests| ==> Apply(s, step).requests[i].decision == d
  {
    if step.Work? && step.i < |s.workers| {
      WorkerLeavesRequests(s, step.i, step.act);
    } else if step.Handle? && step.i < |s.requests| {
      HandledCarries(s, step.i, step.req);
    } else if !step.OpenInApp? && !step.OpenEmail? {
      assert Apply(s, step).requests == s.requests;
    }
  }

  lemma HandledCarries(s: State, i: nat, act: RequestAct)
    requires i < |s.requests|
    ensures var r := RequestStep(s, i, act).requests;
            |r| == |s.requests| && forall j :: 0 <= j < |r| ==> r[j].decision == s.requests[j].decision
  {
  }

  /** If nobody ever decides otherwise, the row never says otherwise: rejections alone never resume as approved. */
  lemma OnlyWhatWasDecided(s: State, steps: seq<Step>, d: Decision)
    requires Init(s) && OpensOnly(steps, d)
    ensures var t := Exec(s, steps);
      && (t.row.Some? && t.row.value.variables.decision.Some? ==> t.row.value.variables.decision == Some(d))
      && forall k :: 0 <= k < |t.hist.approvals| ==> t.hist.approvals[k].decision == d
  {
    RequestsCarry(s, steps, d);
    DecisionIsSomeones(s, steps);
    ApprovalsAreSomeones(s, steps);
    AllDecideAlike(Exec(s, steps), d);
  }

  // ---- leases --------------------------------------------------------------------

  /** A successful claim: running, owned, leased from the moment of arrival on, one more attempt; data kept. */
  lemma ClaimWrites(s: State, i: nat, now: int)
    requires i < |s.workers| && s.workers[i].phase == Arrived(now) && s.row.Some?
    requires s.row.value.status.Queued? || s.row.value.status.Running? || s.row.value.status.WaitingApproval?
    requires s.row.value.leaseExpiresAt.None? || s.row.value.leaseExpiresAt.value < s.clock
    ensures var r, t := s.row.value, Apply(s, Work(i, TryClaim));
      t.row == Some(Row(Running, Some(i), Some(now + s.lease), r.deliveryAttempts + 1, r.variables))
      && t.workers[i].phase == Claimed(now + s.lease)
  {
  }

  /** What the lease sweeper makes of a running row whose lease has run out. */
  lemma SweeperArms(s: State, n: nat)
    requires s.row.Some? && s.row.value.status.Running? && s.row.value.leaseExpiresAt.Some?
    requires s.row.value.leaseExpiresAt.value < s.clock
    ensures var r, t := s.row.value, Apply(s, ScanLeases(n));
      && t.sweeps[..|s.sweeps|] == s.sweeps && |t.sweeps| == |s.sweeps| + 1 && t.row == s.row && t.tasks == s.tasks
      && (r.deliveryAttempts >= n ==> t.sweeps[|s.sweeps|] == DeadLetterArmed)
      && (r.deliveryAttempts < n && r.variables.decision.Some? ==> t.sweeps[|s.sweeps|] == RequeueArmed(Resume))
      && (r.deliveryAttempts < n && r.variables.decision.None? ==> t.sweeps[|s.sweeps|] == RequeueArmed(Run))
  {
  }
}
