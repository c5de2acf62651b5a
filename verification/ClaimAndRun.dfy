/**
 * The handler of a task delivery, from claim to final write, on a row nobody
 * else touches meanwhile. What it does to the stored record is a run of the
 * step system, in which the same statements interleave with everybody's.
 */
module ClaimAndRun {
  import opened Wrappers
  import opened ExecutionRow
  import opened Protocol

  /**
   * What invoking the graph and the writes after it come to. A mail provider that fails is no
   * exception: the pause stands. Anything else that raises once the pause is recorded fails the row.
   */
  datatype Invocation =
    | Completes
    | Pauses(node: string)
    | PausesThenRaises(node: string)
    | Raises
    | CannotLoad

  datatype Reply = AlreadyClaimed | DecisionMissing | Handled | Crashed

  /** t is s with the row r and one more delivery, in phase p. */
  ghost predicate At(s: State, t: State, r: Row, k: Kind, p: Phase) {
    && t.row == Some(r) && t.workers == s.workers + [Worker(k, p)] && t.clock == s.clock && t.lease == s.lease
  }

  /** One more step of the run. */
  lemma Follow(s: State, before: seq<Step>, t: State, step: Step) returns (steps: seq<Step>, u: State)
    requires Exec(s, before) == t
    ensures steps == before + [step] && u == Apply(t, step) && Exec(s, steps) == u
  {
    ExecSnoc(s, before, step);
    steps, u := before + [step], Apply(t, step);
  }

  lemma Arrives(s: State, r: Row, k: Kind)
    requires s.row == Some(r) && k in s.tasks
    ensures At(s, Apply(s, Deliver(k)), r, k, Arrived(s.clock))
  {
  }

  lemma Claims(s: State, t: State, r: Row, k: Kind)
    requires At(s, t, r, k, Arrived(s.clock))
    ensures var i := |s.workers|; var u := Apply(t, Work(i, TryClaim));
      if Claimable(r, s.clock) then At(s, u, Claim(r, i, s.clock + s.lease), k, Claimed(s.clock + s.lease))
      else At(s, u, r, k, Done)
  {
  }

  lemma Proceeds(s: State, t: State, r: Row, k: Kind, d: int)
    requires At(s, t, r, k, Claimed(d))
    ensures var p := if k == Resume && r.variables.decision.None? then Done else Invoking(d);
      At(s, Apply(t, Work(|s.workers|, Proceed)), r, k, p)
    ensures At(s, Apply(t, Work(|s.workers|, LoadRaises)), r, k, Crashing)
  {
  }

  lemma Returns(s: State, t: State, r: Row, k: Kind, d: int, n: string)
    requires At(s, t, r, k, Invoking(d))
    ensures At(s, Apply(t, Work(|s.workers|, GraphCompletes)), r, k, Returned(d, Finished))
    ensures At(s, Apply(t, Work(|s.workers|, GraphPauses(n))), r, k, Returned(d, Paused(Pause(n, s.clock))))
    ensures At(s, Apply(t, Work(|s.workers|, GraphRaises)), r, k, Failing)
  {
  }

  lemma Persists(s: State, t: State, r: Row, k: Kind, d: int, outcome: Outcome)
    requires At(s, t, r, k, Returned(d, outcome))
    ensures var u := Apply(t, Work(|s.workers|, Persist));
      match outcome
      case Finished => At(s, u, MarkCompleted(r), k, Done)
      case Paused(p) => At(s, u, MarkWaiting(r, p), k, Tail)
  {
  }

  lemma Finishes(s: State, t: State, r: Row, k: Kind, p: Phase)
    requires At(s, t, r, k, p)
    ensures p.Tail? ==> At(s, Apply(t, Work(|s.workers|, TailEnds)), r, k, Done)
    ensures p.Tail? ==> At(s, Apply(t, Work(|s.workers|, TailRaises)), r, k, Failing)
    ensures p.Failing? ==> At(s, Apply(t, Work(|s.workers|, WriteFailed)), MarkFailed(r), k, Done)
    ensures p.Crashing? ==> At(s, Apply(t, Work(|s.workers|, CrashWrite)), FailIf(r, Running), k, Done)
  {
  }

  /** Invoking the graph and writing what came of it. */
  method Drive(record: Record, k: Kind, graph: Invocation, now: int, ghost s: State, ghost before: seq<Step>,
      ghost d: int)
    returns (ghost steps: seq<Step>)
    requires At(s, Exec(s, before), record.Value(), k, Invoking(d)) && now == s.clock && !graph.CannotLoad?
    modifies record
    ensures At(s, Exec(s, steps), record.Value(), k, Done)
    ensures record.Value() == match graph
      case Completes => MarkCompleted(old(record.Value()))
      case Pauses(n) => MarkWaiting(old(record.Value()), Pause(n, now))
      case PausesThenRaises(n) => MarkFailed(MarkWaiting(old(record.Value()), Pause(n, now)))
      case _ => MarkFailed(old(record.Value()))
  {
    ghost var i, t := |s.workers|, Exec(s, before);
    if graph.Completes? {
      Returns(s, t, record.Value(), k, d, "");
      steps, t := Follow(s, before, t, Work(i, GraphCompletes));
      Persists(s, t, record.Value(), k, d, Finished);
      steps, t := Follow(s, steps, t, Work(i, Persist));
      record.WriteCompleted();
    } else if graph.Raises? {
      Returns(s, t, record.Value(), k, d, "");
      steps, t := Follow(s, before, t, Work(i, GraphRaises));
      Finishes(s, t, record.Value(), k, Failing);
      steps, t := Follow(s, steps, t, Work(i, WriteFailed));
      record.WriteFailed();
    } else {
      steps, t := RecordPause(record, k, graph.node, now, s, before, d);
      Finishes(s, t, record.Value(), k, Tail);
      if graph.Pauses? {
        steps, t := Follow(s, steps, t, Work(i, TailEnds));
      } else {
        steps, t := Follow(s, steps, t, Work(i, TailRaises));
        Finishes(s, t, record.Value(), k, Failing);
        steps, t := Follow(s, steps, t, Work(i, WriteFailed));
        record.WriteFailed();
      }
    }
  }

  /** The pause, recorded before the approver is told. */
  method RecordPause(record: Record, k: Kind, n: string, now: int, ghost s: State, ghost before: seq<Step>,
      ghost d: int)
    returns (ghost steps: seq<Step>, ghost t: State)
    requires At(s, Exec(s, before), record.Value(), k, Invoking(d)) && now == s.clock
    modifies record
    ensures Exec(s, steps) == t && At(s, t, record.Value(), k, Tail)
    ensures record.Value() == MarkWaiting(old(record.Value()), Pause(n, now))
  {
    ghost var i := |s.workers|;
    Returns(s, Exec(s, before), record.Value(), k, d, n);
    steps, t := Follow(s, before, Exec(s, before), Work(i, GraphPauses(n)));
    Persists(s, t, record.Value(), k, d, Paused(Pause(n, now)));
    steps, t := Follow(s, steps, t, Work(i, Persist));
    record.WriteWaiting(Pause(n, now));
  }

  /**
   * A whole delivery. It is refused exactly when the row is not claimable, and then changes nothing;
   * otherwise the claim, the graph's outcome and the writes follow one another as in the step system.
   */
  method Handle(record: Record, k: Kind, graph: Invocation, worker: nat, now: int, lease: int, ghost s: State)
    returns (reply: Reply, ghost steps: seq<Step>)
    requires s.row == Some(record.Value()) && k in s.tasks && now == s.clock && lease == s.lease
              && worker == |s.workers|
    modifies record
    ensures At(s, Exec(s, steps), record.Value(), k, Done)
    ensures reply.AlreadyClaimed? <==> !Claimable(old(record.Value()), now)
    ensures reply.AlreadyClaimed? ==> record.Value() == old(record.Value())
    ensures reply.DecisionMissing? ==> k == Resume && record.Value() == Claim(old(record.Value()), worker, now + lease)
    ensures reply.Crashed? <==> Claimable(old(record.Value()), now) && graph.CannotLoad?
    ensures reply.Handled? ==> record.status == match graph
      case Completes => Completed
      case Pauses(_) => WaitingApproval
      case _ => Failed
    ensures reply.Crashed? ==> record.status == Failed
    ensures !reply.AlreadyClaimed? ==> record.deliveryAttempts == old(record.deliveryAttempts) + 1
  {
    ghost var t;
    Arrives(s, record.Value(), k);
    steps, t := Follow(s, [], s, Deliver(k));
    Claims(s, t, record.Value(), k);
    steps, t := Follow(s, steps, t, Work(worker, TryClaim));
    var claimed := record.TryClaim(worker, now, lease, now);
    if !claimed {
      return AlreadyClaimed, steps;
    }
    Proceeds(s, t, record.Value(), k, now + lease);
    if graph.CannotLoad? {
      steps, t := Follow(s, steps, t, Work(worker, LoadRaises));
      Finishes(s, t, record.Value(), k, Crashing);
      steps, t := Follow(s, steps, t, Work(worker, CrashWrite));
      var _ := record.TryFail(Running);
      return Crashed, steps;
    }
    steps, t := Follow(s, steps, t, Work(worker, Proceed));
    if k == Resume && record.variables.decision.None? {
      return DecisionMissing, steps;
    }
    steps := Drive(record, k, graph, now, s, steps, now + lease);
    return Handled, steps;
  }
}
