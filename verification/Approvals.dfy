/**
 * One winner per pause, over every interleaving of in-app and emailed
 * decisions, and exactly when an emailed token resolves the pause it was
 * issued for.
 */
module Approvals {
  import opened Wrappers
  import opened ExecutionRow
  import opened Protocol
  import opened SingleDriver

  function CountFlipped(qs: seq<Request>): nat {
    if qs == [] then 0
    else CountFlipped(qs[..|qs| - 1]) + (if qs[|qs| - 1].stage.Flipped? then 1 else 0)
  }

  lemma {:induction false} CountUpdate(qs: seq<Request>, i: nat, q: Request)
    requires i < |qs|
    ensures CountFlipped(qs[i := q])
         == CountFlipped(qs) - (if qs[i].stage.Flipped? then 1 else 0) + (if q.stage.Flipped? then 1 else 0)
  {
    var n := |qs| - 1;
    if i == n {
      assert qs[i := q][..n] == qs[..n];
    } else {
      assert qs[i := q][..n] == qs[..n][i := q];
      CountUpdate(qs[..n], i, q);
    }
  }

  lemma CountAppend(qs: seq<Request>, q: Request)
    ensures CountFlipped(qs + [q]) == CountFlipped(qs) + (if q.stage.Flipped? then 1 else 0)
  {
    assert (qs + [q])[..|qs|] == qs;
  }

  predicate Waiting(s: State) {
    s.row.Some? && s.row.value.status.WaitingApproval?
  }

  /** Flips never exceed recorded pauses, nor approvals flips. */
  ghost predicate Counted(s: State) {
    && s.hist.flips + (if Waiting(s) then 1 else 0) <= |s.hist.pauses|
    && |s.hist.approvals| + CountFlipped(s.requests) <= s.hist.flips
  }

  lemma CountedRequest(s: State, i: nat, act: RequestAct)
    requires Counted(s) && i < |s.requests|
    ensures Counted(RequestStep(s, i, act))
  {
    var t := RequestStep(s, i, act);
    CountUpdate(s.requests, i, t.requests[i]);
    assert t.requests == s.requests[i := t.requests[i]];
  }

  lemma CountedWorker(s: State, i: nat, act: WorkerAct)
    requires Counted(s) && i < |s.workers|
    ensures Counted(WorkerStep(s, i, act))
  {
  }

  lemma CountedStep(s: State, step: Step)
    requires Counted(s)
    ensures Counted(Apply(s, step))
  {
    match step
    case Work(i, act) =>
      if i < |s.workers| {
        CountedWorker(s, i, act);
      }
    case Handle(i, act) =>
      if i < |s.requests| {
        CountedRequest(s, i, act);
      }
    case OpenInApp(d) =>
      if OpenForApproval(s) {
        CountAppend(s.requests, Open(s, None, d).requests[|s.requests|]);
      }
    case OpenEmail(k, d) =>
      if OpenForApproval(s) {
        CountAppend(s.requests, Open(s, Some(k), d).requests[|s.requests|]);
      }
    case _ =>
  }

  /** One winner per pause, in every run. */
  lemma {:induction false} OneWinnerPerPause(s: State, steps: seq<Step>)
    requires Init(s)
    ensures var t := Exec(s, steps);
      Counted(t) && |t.hist.approvals| <= t.hist.flips <= |t.hist.pauses|
  {
    if steps != [] {
      var n := |steps| - 1;
      OneWinnerPerPause(s, steps[..n]);
      CountedStep(Exec(s, steps[..n]), steps[n]);
    }
  }

  // ---- which pause a request read ------------------------------------------

  /**
   * The pending data in the row are those of pause varsFrom, the latest unless stamped over; and they
   * come with a decision exactly when they were stamped.
   */
  ghost predicate RowTraced(s: State) {
    && (s.row.Some? && s.row.value.variables.pending.Some? ==>
        (s.hist.stamped <==> s.row.value.variables.decision.Some?))
    && (s.row.Some? && s.row.value.variables.pending.Some? ==>
          s.hist.varsFrom < |s.hist.pauses| && s.row.value.variables.pending == Some(s.hist.pauses[s.hist.varsFrom]))
    && (Waiting(s) ==> |s.hist.pauses| > 0 && (s.hist.stamped <==> s.hist.varsFrom != |s.hist.pauses| - 1))
  }

  ghost predicate RequestTraced(s: State, q: Request) {
    && q.from < q.seen <= |s.hist.pauses|
    && q.snapshot.pending == Some(s.hist.pauses[q.from])
    && (q.sawStamp <==> q.from != q.seen - 1) && (q.sawStamp <==> q.snapshot.decision.Some?)
    && (q.token.Some? ==> q.token.value < |s.hist.pauses| && s.hist.pauses[q.token.value] == s.hist.pauses[q.from])
    && (q.stage.Flipped? || q.stage.Recorded? || q.stage.Stamped? ==>
          q.seen <= q.flippedAt <= |s.hist.pauses| && (Waiting(s) ==> q.flippedAt < |s.hist.pauses|))
  }

  ghost predicate Traced(s: State) {
    RowTraced(s) && forall i :: 0 <= i < |s.requests| ==> RequestTraced(s, s.requests[i])
  }

  /** Steps that leave requests and recorded pauses alone and make no row wait. */
  lemma TracedUnless(s: State, t: State)
    requires Traced(s) && t.requests == s.requests && t.hist.pauses == s.hist.pauses
    requires t.hist.varsFrom == s.hist.varsFrom && t.hist.stamped == s.hist.stamped
    requires t.row.Some? ==>
      && s.row.Some?
      && (t.row.value.variables.pending.None? || t.row.value.variables == s.row.value.variables)
      && (t.row.value.status.WaitingApproval? ==> s.row.value.status.WaitingApproval?)
    ensures Traced(t)
  {
    forall i | 0 <= i < |t.requests| ensures RequestTraced(t, t.requests[i]) {
      assert RequestTraced(s, s.requests[i]);
    }
  }

  lemma TracedPersist(s: State, i: nat, outcome: Outcome)
    requires Traced(s) && i < |s.workers|
    ensures Traced(DoPersist(s, i, outcome))
  {
    var t := DoPersist(s, i, outcome);
    if outcome.Finished? || s.row.None? {
      TracedUnless(s, t);
    } else {
      forall j | 0 <= j < |t.requests| ensures RequestTraced(t, t.requests[j]) {
        assert RequestTraced(s, s.requests[j]);
      }
    }
  }

  lemma TracedWorker(s: State, i: nat, act: WorkerAct)
    requires Traced(s) && i < |s.workers|
    ensures Traced(WorkerStep(s, i, act))
  {
    var p := s.workers[i].phase;
    if act.Persist? && p.Returned? {
      TracedPersist(s, i, p.outcome);
    } else if act.PersistRaises? && p.Returned? {
      TracedPersist(s, i, p.outcome);
      var m := if act.landed then DoPersist(s, i, p.outcome) else s;
      TracedUnless(m, SetPhase(m, i, Failing));
    } else {
      TracedUnless(s, WorkerStep(s, i, act));
    }
  }

  lemma TracedOpen(s: State, token: Option<nat>, d: Decision)
    requires Traced(s) && OpenForApproval(s)
    requires token.Some? ==>
              token.value < |s.hist.pauses| && s.row.value.variables.pending == Some(s.hist.pauses[token.value])
    ensures Traced(Open(s, token, d))
  {
    var t := Open(s, token, d);
    forall j | 0 <= j < |t.requests| ensures RequestTraced(t, t.requests[j]) {
      if j < |s.requests| {
        assert RequestTraced(s, s.requests[j]);
      }
    }
  }

  /** Only request i changed, and the row does not newly wait. */
  ghost predicate OnlyRequest(s: State, t: State, i: nat) {
    && i < |s.requests| == |t.requests| && t.requests == s.requests[i := t.requests[i]]
    && t.hist.pauses == s.hist.pauses && (Waiting(t) ==> Waiting(s))
  }

  lemma TracedOne(s: State, t: State, i: nat)
    requires Traced(s) && OnlyRequest(s, t, i) && RowTraced(t) && RequestTraced(t, t.requests[i])
    ensures Traced(t)
  {
    forall j | 0 <= j < |t.requests| ensures RequestTraced(t, t.requests[j]) {
      if j != i {
        assert t.requests[j] == s.requests[j];
        assert RequestTraced(s, s.requests[j]);
      }
    }
  }

  lemma TracedFlip(s: State, i: nat)
    requires Traced(s) && i < |s.requests| && s.requests[i].stage.Validated?
    ensures Traced(DoFlip(s, i))
  {
    assert RequestTraced(s, s.requests[i]);
    TracedOne(s, DoFlip(s, i), i);
  }

  lemma TracedStamp(s: State, i: nat)
    requires Traced(s) && i < |s.requests| && s.requests[i].stage.Recorded?
    ensures Traced(DoStamp(s, i))
  {
    assert RequestTraced(s, s.requests[i]);
    TracedOne(s, DoStamp(s, i), i);
  }

  lemma TracedOther(s: State, i: nat, act: RequestAct)
    requires Traced(s) && i < |s.requests|
    requires !(act.TryFlip? && s.requests[i].stage.Validated?) && !(act.WriteStamp? && s.requests[i].stage.Recorded?)
    ensures Traced(RequestStep(s, i, act))
  {
    assert RequestTraced(s, s.requests[i]);
    TracedOne(s, RequestStep(s, i, act), i);
  }

  lemma TracedRequest(s: State, i: nat, act: RequestAct)
    requires Traced(s) && i < |s.requests|
    ensures Traced(RequestStep(s, i, act))
  {
    var q := s.requests[i];
    if act.TryFlip? && q.stage.Validated? {
      TracedFlip(s, i);
    } else if act.WriteStamp? && q.stage.Recorded? {
      TracedStamp(s, i);
    } else {
      TracedOther(s, i, act);
    }
  }

  lemma TracedSweep(s: State, i: nat)
    requires Traced(s) && i < |s.sweeps|
    ensures Traced(SweepStep(s, i))
  {
    TracedUnless(s, SweepStep(s, i));
  }

  lemma TracedStep(s: State, step: Step)
    requires Traced(s)
    ensures Traced(Apply(s, step))
  {
    match step
    case Work(i, act) =>
      if i < |s.workers| {
        TracedWorker(s, i, act);
      }
    case Handle(i, act) =>
      if i < |s.requests| {
        TracedRequest(s, i, act);
      }
    case SweepWrite(i) =>
      if i < |s.sweeps| {
        TracedSweep(s, i);
      }
    case OpenInApp(d) =>
      if OpenForApproval(s) {
        TracedOpen(s, None, d);
      }
    case OpenEmail(k, d) =>
      if OpenForApproval(s) && k < |s.hist.pauses| && s.row.value.variables.pending == Some(s.hist.pauses[k]) {
        TracedOpen(s, Some(k), d);
      }
    case _ => TracedUnless(s, Apply(s, step));
  }

  lemma {:induction false} AlwaysTraced(s: State, steps: seq<Step>)
    requires Init(s)
    ensures Traced(Exec(s, steps))
  {
    if steps != [] {
      var n := |steps| - 1;
      AlwaysTraced(s, steps[..n]);
      TracedStep(Exec(s, steps[..n]), steps[n]);
    }
  }

  /** No two pauses carry the same node and timestamp. */
  ghost predicate DistinctPauses(s: State) {
    forall i, j :: 0 <= i < j < |s.hist.pauses| ==> s.hist.pauses[i] != s.hist.pauses[j]
  }

  /**
   * An emailed token that flips a waiting row resolves the pause it was issued
   * for if and only if no pause was recorded since it was validated and the
   * variables the validation read held no decision. The pause being resolved
   * is the latest one.
   */
  lemma TokenResolvesItsPauseIff(s: State, steps: seq<Step>, i: nat)
    requires Init(s)
    requires var t := Exec(s, steps);
      Waiting(t) && DistinctPauses(t) && i < |t.requests| && t.requests[i].stage.Validated? && t.requests[i].token.Some?
    ensures var t := Exec(s, steps); var q := t.requests[i];
      q.token.value == |t.hist.pauses| - 1 <==> q.seen == |t.hist.pauses| && q.snapshot.decision.None?
  {
    AlwaysTraced(s, steps);
    var t := Exec(s, steps);
    assert RequestTraced(t, t.requests[i]);
    TokenIsRead(t, t.requests[i]);
  }

  lemma TokenIsRead(t: State, q: Request)
    requires DistinctPauses(t) && RequestTraced(t, q) && q.token.Some?
    ensures q.token.value == q.from
  {
    var a, b := q.token.value, q.from;
    assert !(a < b) && !(b < a);
  }

  /**
   * What the row shows when the flip comes: while it holds no decision, the token resolves its own
   * pause if and only if the row still shows the pending data the validation read.
   */
  lemma TokenResolvesWhatRowShows(s: State, steps: seq<Step>, i: nat)
    requires Init(s)
    requires var t := Exec(s, steps);
      Waiting(t) && DistinctPauses(t) && i < |t.requests| && t.requests[i].stage.Validated? && t.requests[i].token.Some?
      && t.row.value.variables.pending.Some? && t.row.value.variables.decision.None?
    ensures var t := Exec(s, steps); var q := t.requests[i];
      q.token.value == |t.hist.pauses| - 1 <==> t.row.value.variables.pending == q.snapshot.pending
  {
    AlwaysTraced(s, steps);
    var t := Exec(s, steps);
    var q := t.requests[i];
    assert RequestTraced(t, q);
    TokenIsRead(t, q);
    var last := |t.hist.pauses| - 1;
    assert t.row.value.variables.pending == Some(t.hist.pauses[last]);
    assert q.from != last ==> t.hist.pauses[q.from] != t.hist.pauses[last];
  }

  // ---- a stale token that works --------------------------------------------

  function A4(s: State): State { S3(s).(workers := [Worker(Run, Invoking(s.clock + s.lease))]) }
  function A5(s: State, n: string): State {
    S3(s).(workers := [Worker(Run, Returned(s.clock + s.lease, Paused(Pause(n, s.clock))))])
  }
  function A6(s: State, n: string): State {
    S3(s).(workers := [Worker(Run, Tail)], row := Some(MarkWaiting(S3(s).row.value, Pause(n, s.clock))),
           hist := History(1, [Pause(n, s.clock)], 0, [], 0, false))
  }
  function FirstRequest(s: State, n: string, g: Stage, at: nat): Request {
    Request(g, Approved, Vars(Some(Pause(n, s.clock)), None), None, 0, 1, false, at)
  }
  function A7(s: State, n: string): State { A6(s, n).(requests := [FirstRequest(s, n, Validated, 0)]) }
  function A8(s: State, n: string): State {
    A6(s, n).(requests := [FirstRequest(s, n, Flipped, 1)], row := Some(Flip(A6(s, n).row.value)),
              hist := A6(s, n).hist.(flips := 1))
  }
  function A9(s: State, n: string): State {
    A8(s, n).(
      requests := [FirstRequest(s, n, Recorded, 1)], hist := A8(s, n).hist.(approvals := [Approval(n, Approved)]))
  }
  function A10(s: State, n: string): State {
    A9(s, n).(workers := [Worker(Run, Tail), Worker(Run, Arrived(s.clock))])
  }
  function A11(s: State, n: string): State {
    A9(s, n).(workers := [Worker(Run, Tail), Worker(Run, Claimed(s.clock + s.lease))],
              row := Some(Claim(A9(s, n).row.value, 1, s.clock + s.lease)), hist := A9(s, n).hist.(claims := 2))
  }
  function A12(s: State, n: string): State {
    A11(s, n).(workers := [Worker(Run, Tail), Worker(Run, Invoking(s.clock + s.lease))])
  }
  function A13(s: State, n: string): State { A12(s, n).(clock := s.clock + 1) }
  function A14(s: State, n: string): State {
    A13(s, n).(workers := [Worker(Run, Tail), Worker(Run, Returned(s.clock + s.lease, Paused(Pause(n, s.clock + 1))))])
  }
  function A15(s: State, n: string): State {
    A13(s, n).(workers := [Worker(Run, Tail), Worker(Run, Tail)],
               row := Some(MarkWaiting(A13(s, n).row.value, Pause(n, s.clock + 1))),
               hist := History(2, [Pause(n, s.clock), Pause(n, s.clock + 1)], 1, [Approval(n, Approved)], 1, false))
  }
  function A16(s: State, n: string): State {
    A15(s, n).(requests := [FirstRequest(s, n, Stamped, 1)],
               row := Some(A15(s, n).row.value.(variables := Vars(Some(Pause(n, s.clock)), Some(Approved)))),
               hist := A15(s, n).hist.(varsFrom := 0, stamped := true))
  }
  function A17(s: State, n: string): State {
    A16(s, n).(requests := A16(s, n).requests
      + [Request(Validated, Rejected, A16(s, n).row.value.variables, Some(0), 0, 2, true, 0)])
  }

  lemma PauseSteps(s: State, n: string)
    requires Init(s) && s.lease >= 1
    ensures Apply(S3(s), Work(0, Proceed)) == A4(s)
    ensures Apply(A4(s), Work(0, GraphPauses(n))) == A5(s, n)
    ensures Apply(A5(s, n), Work(0, Persist)) == A6(s, n)
  {
  }

  lemma FlipSteps(s: State, n: string)
    requires Init(s) && s.lease >= 1
    ensures Apply(A6(s, n), OpenInApp(Approved)) == A7(s, n)
    ensures Apply(A7(s, n), Handle(0, TryFlip)) == A8(s, n)
    ensures Apply(A8(s, n), Handle(0, RecordApproval)) == A9(s, n)
  {
  }

  lemma RedeliverySteps(s: State, n: string)
    requires Init(s) && s.lease >= 1
    ensures Apply(A9(s, n), Deliver(Run)) == A10(s, n)
    ensures Apply(A10(s, n), Work(1, TryClaim)) == A11(s, n)
    ensures Apply(A11(s, n), Work(1, Proceed)) == A12(s, n)
    ensures Apply(A12(s, n), Tick(1)) == A13(s, n)
  {
  }

  lemma SecondPauseSteps(s: State, n: string)
    requires Init(s) && s.lease >= 1
    ensures Apply(A13(s, n), Work(1, GraphPauses(n))) == A14(s, n)
    ensures Apply(A14(s, n), Work(1, Persist)) == A15(s, n)
  {
  }

  lemma StaleStampSteps(s: State, n: string)
    requires Init(s) && s.lease >= 1
    ensures Apply(A15(s, n), Handle(0, WriteStamp)) == A16(s, n)
    ensures Apply(A16(s, n), OpenEmail(0, Rejected)) == A17(s, n)
  {
  }

  lemma TimelyThroughout(s: State, n: string)
    requires Init(s) && s.lease >= 1
    ensures Timely(A4(s)) && Timely(A5(s, n)) && Timely(A6(s, n)) && Timely(A7(s, n)) && Timely(A8(s, n))
              && Timely(A9(s, n))
    ensures Timely(A10(s, n)) && Timely(A11(s, n)) && Timely(A12(s, n)) && Timely(A13(s, n)) && Timely(A14(s, n))
    ensures Timely(A15(s, n)) && Timely(A16(s, n)) && Timely(A17(s, n))
  {
  }

  /**
   * An in-app approval that has flipped the row but not yet stamped its
   * decision can overwrite the data of a later pause. The token of the earlier
   * pause then validates, and its flip resolves the later one, in a run where
   * every drive keeps its lease and no sweeper acts.
   */
  lemma StaleTokenResolvesLaterPause(s: State, n: string) returns (steps: seq<Step>)
    requires Init(s) && s.lease >= 1
    ensures Orderly(s, steps)
    ensures var t := Exec(s, steps);
      && Waiting(t) && DistinctPauses(t) && |t.hist.pauses| == 2 && |t.requests| == 2
      && t.requests[1].stage.Validated? && t.requests[1].seen == |t.hist.pauses| && t.requests[1].token == Some(0)
      && Apply(t, Handle(1, TryFlip)).row.value.status.Running?
  {
    var early := UpToFlip(s, n);
    var late := AfterFlip(s, n);
    OrderlyAppend(s, early, late);
    steps := early + late;
  }

  lemma UpToFlip(s: State, n: string) returns (steps: seq<Step>)
    requires Init(s) && s.lease >= 1
    ensures Orderly(s, steps) && Exec(s, steps) == A9(s, n)
  {
    steps := [EnqueueRun, Deliver(Run), Work(0, TryClaim), Work(0, Proceed), Work(0, GraphPauses(n)), Work(0, Persist),
              OpenInApp(Approved), Handle(0, TryFlip), Handle(0, RecordApproval)];
    var ts := [s, S1(s), S2(s), S3(s), A4(s), A5(s, n), A6(s, n), A7(s, n), A8(s, n), A9(s, n)];
    FirstSteps(s);
    PauseSteps(s, n);
    FlipSteps(s, n);
    AllTimely(s);
    TimelyThroughout(s, n);
    TraceOrderly(ts, steps);
  }

  lemma AfterFlip(s: State, n: string) returns (steps: seq<Step>)
    requires Init(s) && s.lease >= 1
    ensures Orderly(A9(s, n), steps) && Exec(A9(s, n), steps) == A17(s, n)
  {
    steps := [Deliver(Run), Work(1, TryClaim), Work(1, Proceed), Tick(1), Work(1, GraphPauses(n)), Work(1, Persist),
              Handle(0, WriteStamp), OpenEmail(0, Rejected)];
    var ts := [A9(s, n), A10(s, n), A11(s, n), A12(s, n), A13(s, n), A14(s, n), A15(s, n), A16(s, n), A17(s, n)];
    RedeliverySteps(s, n);
    SecondPauseSteps(s, n);
    StaleStampSteps(s, n);
    TimelyThroughout(s, n);
    TraceOrderly(ts, steps);
  }

  lemma OrderlyAppend(s: State, a: seq<Step>, b: seq<Step>)
    requires Orderly(s, a) && Orderly(Exec(s, a), b)
    ensures Orderly(s, a + b) && Exec(s, a + b) == Exec(Exec(s, a), b)
  {
    ExecAppend(s, a, b);
    var c := a + b;
    forall k | 0 <= k < |c| ensures Timely(Exec(s, c[..k])) && !StaleClear(Exec(s, c[..k]), c[k]) {
      if k < |a| {
        assert c[..k] == a[..k];
      } else {
        assert c[..k] == a + b[..k - |a|] && c[k] == b[k - |a|];
        ExecAppend(s, a, b[..k - |a|]);
      }
    }
  }
}
