/** The status of the row, write by write: which steps set it, and to what. */
module Transitions {
  import opened Wrappers
  import opened ExecutionRow
  import opened Protocol

  ghost predicate InProgress(status: Status) {
    status == Queued || status == Running || status == WaitingApproval
  }

  /** The status a delivery writes from phase p on a row with this status, whose lease is free or not. */
  ghost function WrittenBy(p: Phase, act: WorkerAct, was: Status, free: bool): Option<Status> {
    if act == TryClaim && p.Arrived? && InProgress(was) && free then Some(Running)
    else if (act == Persist || act == PersistRaises(true)) && p.Returned? then
      Some(if p.outcome.Finished? then Completed else WaitingApproval)
    else if act == WriteFailed && p == Failing then Some(Failed)
    else if act == CrashWrite && p == Crashing && was == Running then Some(Failed)
    else None
  }

  /** The status a step writes, None if it writes none. */
  ghost function Written(s: State, step: Step): Option<Status>
    requires s.row.Some?
  {
    var r := s.row.value;
    match step
    case CancelRow => if InProgress(r.status) then Some(Canceled) else None
    case FailQueued => if s.creator == EnqueueFailed && r.status == Queued then Some(Failed) else None
    case SweepWrite(i) =>
      if i < |s.sweeps| && (s.sweeps[i] == FailArmed || s.sweeps[i] == DeadLetterArmed) then Some(Failed) else None
    case Handle(i, act) =>
      if act == TryFlip && i < |s.requests| && s.requests[i].stage == Validated && r.status == WaitingApproval
      then Some(Running) else None
    case Work(i, act) =>
      var free := r.leaseExpiresAt.None? || r.leaseExpiresAt.value < s.clock;
      if i < |s.workers| then WrittenBy(s.workers[i].phase, act, r.status, free) else None
    case _ => None
  }

  function StatusOf(s: State): Status
    requires s.row.Some?
  {
    s.row.value.status
  }

  lemma WorkerWrites(s: State, i: nat, act: WorkerAct)
    requires s.row.Some? && i < |s.workers|
    ensures WorkerStep(s, i, act).row.Some?
    ensures var o := Written(s, Work(i, act));
            StatusOf(WorkerStep(s, i, act)) == if o.Some? then o.value else StatusOf(s)
  {
  }

  lemma OtherWrites(s: State, step: Step)
    requires s.row.Some? && !step.Work? && Apply(s, step).row.Some?
    ensures StatusOf(Apply(s, step)) == if Written(s, step).Some? then Written(s, step).value else StatusOf(s)
  {
  }

  /** A step leaves the status it writes, and the old one if it writes none. */
  lemma StatusIsWritten(s: State, step: Step)
    requires s.row.Some? && Apply(s, step).row.Some?
    ensures StatusOf(Apply(s, step)) == if Written(s, step).Some? then Written(s, step).value else StatusOf(s)
  {
    if step.Work? && step.i < |s.workers| {
      WorkerWrites(s, step.i, step.act);
    } else if !step.Work? {
      OtherWrites(s, step);
    }
  }

  /** The state before step k. */
  ghost function Before(s: State, steps: seq<Step>, k: nat): State
    requires k <= |steps|
  {
    Exec(s, steps[..k])
  }

  lemma BeforeNext(s: State, steps: seq<Step>, k: nat)
    requires k < |steps|
    ensures Before(s, steps, k + 1) == Apply(Before(s, steps, k), steps[k])
  {
    assert steps[..k + 1] == steps[..k] + [steps[k]];
    ExecSnoc(s, steps[..k], steps[k]);
  }

  lemma NotReborn(s: State, step: Step)
    ensures Apply(s, step).row.Some? ==> s.row.Some?
  {
  }

  /** A row that is gone does not come back. */
  lemma {:induction false} RowWasThere(s: State, steps: seq<Step>, k: nat, n: nat)
    requires k <= n <= |steps| && Before(s, steps, n).row.Some?
    ensures Before(s, steps, k).row.Some?
    decreases n
  {
    if k < n {
      BeforeNext(s, steps, n - 1);
      NotReborn(Before(s, steps, n - 1), steps[n - 1]);
      RowWasThere(s, steps, k, n - 1);
    }
  }

  /** What each step of the run writes. */
  ghost function Writes(s: State, steps: seq<Step>): (w: seq<Option<Status>>)
    ensures |w| == |steps|
    ensures forall k :: 0 <= k < |steps| && Before(s, steps, k).row.Some? ==>
              w[k] == Written(Before(s, steps, k), steps[k])
  {
    seq(|steps|, k requires 0 <= k < |steps| =>
      if Before(s, steps, k).row.Some? then Written(Before(s, steps, k), steps[k]) else None)
  }

  /** The status after the first n writes of a queued row: the last one written, queued if there is none. */
  ghost predicate Decided(w: seq<Option<Status>>, n: nat, status: Status)
    requires n <= |w|
  {
    || (status == Queued && forall j :: 0 <= j < n ==> w[j].None?)
    || exists k :: 0 <= k < n && w[k] == Some(status) && forall j :: k < j < n ==> w[j].None?
  }

  lemma DecidedNext(w: seq<Option<Status>>, n: nat, was: Status, now: Status)
    requires n < |w| && Decided(w, n, was) && now == if w[n].Some? then w[n].value else was
    ensures Decided(w, n + 1, now)
  {
    if w[n].Some? {
      assert w[n] == Some(now);
    }
  }

  lemma StatusAt(s: State, steps: seq<Step>, n: nat, o: Option<Status>)
    requires n < |steps| && Before(s, steps, n).row.Some? && Before(s, steps, n + 1).row.Some?
    requires o == Writes(s, steps)[n]
    ensures StatusOf(Before(s, steps, n + 1)) == if o.Some? then o.value else StatusOf(Before(s, steps, n))
  {
    BeforeNext(s, steps, n);
    StatusIsWritten(Before(s, steps, n), steps[n]);
  }

  lemma {:induction false} DecidedUpTo(s: State, steps: seq<Step>, w: seq<Option<Status>>, n: nat)
    requires Init(s) && n <= |steps| && Before(s, steps, n).row.Some? && w == Writes(s, steps)
    ensures Decided(w, n, StatusOf(Before(s, steps, n)))
  {
    if n > 0 {
      RowWasThere(s, steps, n - 1, n);
      DecidedUpTo(s, steps, w, n - 1);
      StatusAt(s, steps, n - 1, w[n - 1]);
      DecidedNext(w, n - 1, StatusOf(Before(s, steps, n - 1)), StatusOf(Before(s, steps, n)));
    }
  }

  /** In every run the row has the status that was written last, and is queued as long as none was. */
  lemma LastWriteDecides(s: State, steps: seq<Step>)
    requires Init(s) && Exec(s, steps).row.Some?
    ensures Decided(Writes(s, steps), |steps|, StatusOf(Exec(s, steps)))
  {
    assert steps[..|steps|] == steps;
    DecidedUpTo(s, steps, Writes(s, steps), |steps|);
  }

  // ---- deleting --------------------------------------------------------------

  /** At step k the delete request found the row completed, failed or canceled. */
  ghost predicate FoundEnded(s: State, steps: seq<Step>, k: nat)
    requires k < |steps|
  {
    var t := Exec(s, steps[..k]);
    steps[k] == ArmDelete && t.row.Some? && (StatusOf(t).Completed? || StatusOf(t).Failed? || StatusOf(t).Canceled?)
  }

  ghost predicate SomeFoundEnded(s: State, steps: seq<Step>) {
    exists k :: 0 <= k < |steps| && FoundEnded(s, steps, k)
  }

  lemma {:induction false} FoundEarlier(s: State, steps: seq<Step>)
    requires steps != [] && SomeFoundEnded(s, steps[..|steps| - 1])
    ensures SomeFoundEnded(s, steps)
  {
    var before := steps[..|steps| - 1];
    var k :| 0 <= k < |before| && FoundEnded(s, before, k);
    assert before[..k] == steps[..k] && before[k] == steps[k];
    assert FoundEnded(s, steps, k);
  }

  lemma ArmedNow(s: State, step: Step)
    ensures Apply(s, step).deleteArmed && !s.deleteArmed ==>
              step == ArmDelete && s.row.Some? && !InProgress(StatusOf(s))
    ensures Apply(s, step).row.None? && s.row.Some? ==> s.deleteArmed
  {
  }

  /** In every run a row is deleted, or about to be, only if a delete request found it ended. */
  lemma {:induction false} DeletedOnlyEnded(s: State, steps: seq<Step>)
    requires Init(s) && (Exec(s, steps).deleteArmed || Exec(s, steps).row.None?)
    ensures SomeFoundEnded(s, steps)
  {
    var n := |steps| - 1;
    var t := Exec(s, steps[..n]);
    ArmedNow(t, steps[n]);
    if t.deleteArmed || t.row.None? {
      DeletedOnlyEnded(s, steps[..n]);
      FoundEarlier(s, steps);
    } else {
      assert FoundEnded(s, steps, n);
    }
  }

  // ---- scanning --------------------------------------------------------------

  /** The two scans that may fail a row take up a running one and a waiting one, and no other. */
  lemma ScansTakeUp(s: State)
    ensures Apply(s, ScanStuck).sweeps ==
            s.sweeps + (if s.row.Some? && StatusOf(s) == Running then [FailArmed] else [])
    ensures Apply(s, ScanApprovals).sweeps ==
            s.sweeps + (if s.row.Some? && StatusOf(s) == WaitingApproval then [FailArmed] else [])
  {
  }
}
