/**
 * Idempotent creation: any number of concurrent requests, through either
 * endpoint, racing through lookup, insert, second lookup and enqueue.
 */
module Creation {
  import opened Wrappers

  /** The columns under the uniqueness constraint; rows without a key are not constrained. */
  datatype RowKey = RowKey(workflow: string, key: Option<string>)

  datatype Endpoint = CreateExecution | RunExternal

  datatype Phase =
    | Received
    | Missed
    | Won(row: nat)
    | Lost
    | Replied(row: nat)
    | EnqueueFailed(row: nat)
    | Errored

  datatype Request = Request(endpoint: Endpoint, target: RowKey, phase: Phase)

  /** rows in order of creation; tasks are the run tasks ever enqueued, by row. */
  datatype State = State(rows: seq<RowKey>, tasks: seq<nat>, requests: seq<Request>)

  datatype Step =
    | Receive(endpoint: Endpoint, target: RowKey)
    | FirstLookup(i: nat)
    | Insert(i: nat)
    | SecondLookup(i: nat)
    | Enqueue(i: nat)
    | EnqueueRaises(i: nat, reached: bool)

  /** Row found by the unique index. */
  function Find(rows: seq<RowKey>, target: RowKey, from: nat): (r: Option<nat>)
    requires from <= |rows|
    ensures r.Some? ==> r.value < |rows| && rows[r.value] == target
    ensures r.None? ==> forall k :: from <= k < |rows| ==> rows[k] != target
    decreases |rows| - from
  {
    if from == |rows| then None
    else if rows[from] == target then Some(from)
    else Find(rows, target, from + 1)
  }

  function SetPhase(s: State, i: nat, p: Phase): State
    requires i < |s.requests|
  {
    s.(requests := s.requests[i := s.requests[i].(phase := p)])
  }

  /** An absent or empty key skips the fast path. */
  function DoFirstLookup(s: State, i: nat): State
    requires i < |s.requests|
  {
    var target := s.requests[i].target;
    if target.key.None? || target.key.value == "" then SetPhase(s, i, Missed)
    else
      var found := Find(s.rows, target, 0);
      SetPhase(s, i, if found.Some? then Replied(found.value) else Missed)
  }

  function DoInsert(s: State, i: nat): State
    requires i < |s.requests|
  {
    var target := s.requests[i].target;
    if target.key.Some? && Find(s.rows, target, 0).Some? then SetPhase(s, i, Lost)
    else SetPhase(s, i, Won(|s.rows|)).(rows := s.rows + [target])
  }

  function DoSecondLookup(s: State, i: nat): State
    requires i < |s.requests|
  {
    var found := Find(s.rows, s.requests[i].target, 0);
    SetPhase(s, i, if found.Some? then Replied(found.value) else Errored)
  }

  function Apply(s: State, step: Step): State {
    match step
    case Receive(e, t) => s.(requests := s.requests + [Request(e, t, Received)])
    case FirstLookup(i) => if i < |s.requests| && s.requests[i].phase.Received? then DoFirstLookup(s, i) else s
    case Insert(i) => if i < |s.requests| && s.requests[i].phase.Missed? then DoInsert(s, i) else s
    case SecondLookup(i) => if i < |s.requests| && s.requests[i].phase.Lost? then DoSecondLookup(s, i) else s
    case Enqueue(i) =>
      if i < |s.requests| && s.requests[i].phase.Won? then
        SetPhase(s, i, Replied(s.requests[i].phase.row)).(tasks := s.tasks + [s.requests[i].phase.row])
      else s
    case EnqueueRaises(i, reached) =>
      if i < |s.requests| && s.requests[i].phase.Won? then
        SetPhase(s, i, EnqueueFailed(s.requests[i].phase.row))
          .(tasks := if reached then s.tasks + [s.requests[i].phase.row] else s.tasks)
      else s
  }

  function Exec(s: State, steps: seq<Step>): State {
    if steps == [] then s else Apply(Exec(s, steps[..|steps| - 1]), steps[|steps| - 1])
  }

  const EMPTY := State([], [], [])

  // ---- invariant -----------------------------------------------------------

  ghost predicate KeysUnique(s: State) {
    forall i, j :: 0 <= i < j < |s.rows| && s.rows[i].key.Some? ==> s.rows[i] != s.rows[j]
  }

  /** A request that holds a row holds one created for its own workflow and key. */
  ghost predicate OwnRow(s: State, q: Request) {
    q.phase.Won? || q.phase.Replied? || q.phase.EnqueueFailed? ==>
      q.phase.row < |s.rows| && s.rows[q.phase.row] == q.target
  }

  /** Each row has at most one creator still to enqueue it, and then no task yet. */
  ghost predicate Pending(s: State) {
    && (forall i, j :: 0 <= i < j < |s.requests| && s.requests[i].phase.Won? && s.requests[j].phase.Won? ==>
          s.requests[i].phase.row != s.requests[j].phase.row)
    && (forall i :: 0 <= i < |s.requests| && s.requests[i].phase.Won? ==> s.requests[i].phase.row !in s.tasks)
  }

  ghost predicate TasksOnce(s: State) {
    && (forall i, j :: 0 <= i < j < |s.tasks| ==> s.tasks[i] != s.tasks[j])
    && (forall i :: 0 <= i < |s.tasks| ==> s.tasks[i] < |s.rows|)
  }

  ghost predicate Good(s: State) {
    && KeysUnique(s) && Pending(s) && TasksOnce(s)
    && forall i :: 0 <= i < |s.requests| ==> OwnRow(s, s.requests[i])
  }

  lemma InsertGood(s: State, i: nat)
    requires Good(s) && i < |s.requests| && s.requests[i].phase.Missed?
    ensures Good(DoInsert(s, i))
  {
    var t := DoInsert(s, i);
    forall j | 0 <= j < |t.requests| ensures OwnRow(t, t.requests[j]) {
      assert OwnRow(s, s.requests[j]);
    }
  }

  lemma LookupGood(s: State, i: nat, p: Phase)
    requires Good(s) && i < |s.requests| && !p.Won?
    requires OwnRow(s, s.requests[i].(phase := p))
    ensures Good(SetPhase(s, i, p))
  {
    var t := SetPhase(s, i, p);
    forall j | 0 <= j < |t.requests| ensures OwnRow(t, t.requests[j]) {
      assert OwnRow(s, s.requests[j]);
    }
  }

  lemma EnqueueGood(s: State, i: nat, p: Phase)
    requires Good(s) && i < |s.requests| && s.requests[i].phase.Won?
    requires p == EnqueueFailed(s.requests[i].phase.row) || p == Replied(s.requests[i].phase.row)
    ensures Good(SetPhase(s, i, p).(tasks := s.tasks + [s.requests[i].phase.row]))
  {
    var t := SetPhase(s, i, p).(tasks := s.tasks + [s.requests[i].phase.row]);
    assert OwnRow(s, s.requests[i]);
    forall j | 0 <= j < |t.requests| ensures OwnRow(t, t.requests[j]) {
      assert OwnRow(s, s.requests[j]);
    }
    forall j | 0 <= j < |t.requests| && t.requests[j].phase.Won? ensures t.requests[j].phase.row !in t.tasks {
      assert j != i && t.requests[j] == s.requests[j];
    }
  }

  lemma StepGood(s: State, step: Step)
    requires Good(s)
    ensures Good(Apply(s, step))
  {
    match step
    case Receive(e, t) =>
      var u := Apply(s, step);
      forall j | 0 <= j < |u.requests| ensures OwnRow(u, u.requests[j]) {
        if j < |s.requests| {
          assert OwnRow(s, s.requests[j]);
        }
      }
    case FirstLookup(i) =>
      if i < |s.requests| && s.requests[i].phase.Received? {
        LookupGood(s, i, DoFirstLookup(s, i).requests[i].phase);
      }
    case Insert(i) =>
      if i < |s.requests| && s.requests[i].phase.Missed? {
        InsertGood(s, i);
      }
    case SecondLookup(i) =>
      if i < |s.requests| && s.requests[i].phase.Lost? {
        LookupGood(s, i, DoSecondLookup(s, i).requests[i].phase);
      }
    case Enqueue(i) =>
      if i < |s.requests| && s.requests[i].phase.Won? {
        EnqueueGood(s, i, Replied(s.requests[i].phase.row));
      }
    case EnqueueRaises(i, reached) =>
      if i < |s.requests| && s.requests[i].phase.Won? {
        EnqueueGood(s, i, EnqueueFailed(s.requests[i].phase.row));
        LookupGood(s, i, EnqueueFailed(s.requests[i].phase.row));
      }
  }

  lemma {:induction false} RunGood(steps: seq<Step>)
    ensures Good(Exec(EMPTY, steps))
  {
    if steps != [] {
      var n := |steps| - 1;
      RunGood(steps[..n]);
      StepGood(Exec(EMPTY, steps[..n]), steps[n]);
    }
  }

  /**
   * Requests for one workflow and key create at most one row, all of them that
   * are answered get that row, and it is enqueued at most once.
   */
  lemma IdempotentCreation(steps: seq<Step>, workflow: string, key: string)
    ensures var s, target := Exec(EMPTY, steps), RowKey(workflow, Some(key));
      && (forall a, b :: 0 <= a < |s.rows| && 0 <= b < |s.rows| && s.rows[a] == target == s.rows[b] ==> a == b)
      && (forall i, j :: && 0 <= i < |s.requests| && 0 <= j < |s.requests|
                         && s.requests[i].target == target == s.requests[j].target
                         && s.requests[i].phase.Replied? && s.requests[j].phase.Replied?
                         ==> s.requests[i].phase.row == s.requests[j].phase.row)
      && (forall a, b :: 0 <= a < |s.tasks| && 0 <= b < |s.tasks| && s.tasks[a] == s.tasks[b] ==> a == b)
  {
    RunGood(steps);
    var s, target := Exec(EMPTY, steps), RowKey(workflow, Some(key));
    forall i, j | && 0 <= i < |s.requests| && 0 <= j < |s.requests|
                  && s.requests[i].target == target == s.requests[j].target
                  && s.requests[i].phase.Replied? && s.requests[j].phase.Replied?
      ensures s.requests[i].phase.row == s.requests[j].phase.row
    {
      assert OwnRow(s, s.requests[i]) && OwnRow(s, s.requests[j]);
      var a, b := s.requests[i].phase.row, s.requests[j].phase.row;
      assert !(a < b) && !(b < a);
    }
  }

  /** A request whose insert lost the race always finds the winner: it never ends in an error. */
  lemma LoserFindsWinner(steps: seq<Step>, i: nat)
    requires i < |Exec(EMPTY, steps).requests| && Exec(EMPTY, steps).requests[i].phase.Lost?
    ensures Apply(Exec(EMPTY, steps), SecondLookup(i)).requests[i].phase.Replied?
  {
    LostHasRow(steps, i);
  }

  lemma {:induction false} LostHasRow(steps: seq<Step>, i: nat)
    requires i < |Exec(EMPTY, steps).requests| && Exec(EMPTY, steps).requests[i].phase.Lost?
    ensures Exec(EMPTY, steps).requests[i].target in Exec(EMPTY, steps).rows
  {
    var n := |steps| - 1;
    var before := Exec(EMPTY, steps[..n]);
    if i < |before.requests| && before.requests[i].phase.Lost? {
      LostHasRow(steps[..n], i);
      assert before.rows <= Apply(before, steps[n]).rows;
    }
  }

  // ---- every row is enqueued -------------------------------------------------

  /** Row r has a task, or its creator has still to enqueue it, or failed to. */
  ghost predicate SeenTo(s: State, r: nat) {
    || r in s.tasks
    || exists i :: 0 <= i < |s.requests|
                   && (s.requests[i].phase == Won(r) || s.requests[i].phase == EnqueueFailed(r))
  }

  ghost predicate AllSeenTo(s: State) {
    forall r :: 0 <= r < |s.rows| ==> SeenTo(s, r)
  }

  /** A step that keeps row r's task and its creator's claim on it, or replaces the claim by a task or a failure. */
  lemma StaysSeenTo(s: State, t: State, r: nat)
    requires SeenTo(s, r) && forall x :: x in s.tasks ==> x in t.tasks
    requires |s.requests| <= |t.requests|
    requires forall i ::
               0 <= i < |s.requests| && (s.requests[i].phase == Won(r) || s.requests[i].phase == EnqueueFailed(r)) ==>
               t.requests[i].phase == s.requests[i].phase || t.requests[i].phase == EnqueueFailed(r) || r in t.tasks
    ensures SeenTo(t, r)
  {
    if r !in s.tasks {
      var i :| 0 <= i < |s.requests| && (s.requests[i].phase == Won(r) || s.requests[i].phase == EnqueueFailed(r));
      assert t.requests[i].phase == s.requests[i].phase || t.requests[i].phase == EnqueueFailed(r) || r in t.tasks;
    }
  }

  lemma StepSeesTo(s: State, step: Step)
    requires AllSeenTo(s)
    ensures AllSeenTo(Apply(s, step))
  {
    var t := Apply(s, step);
    forall r | 0 <= r < |t.rows| ensures SeenTo(t, r) {
      if r < |s.rows| {
        StaysSeenTo(s, t, r);
      } else {
        assert t.requests[step.i].phase == Won(r);
      }
    }
  }

  /** In every run each row has a task, or its creator still holds it, or its creator failed to enqueue it. */
  lemma {:induction false} EveryRowSeenTo(steps: seq<Step>)
    ensures AllSeenTo(Exec(EMPTY, steps))
  {
    if steps != [] {
      var n := |steps| - 1;
      EveryRowSeenTo(steps[..n]);
      StepSeesTo(Exec(EMPTY, steps[..n]), steps[n]);
    }
  }

  /** A row that nobody holds and nobody failed to enqueue has exactly one task. */
  lemma ExactlyOneTask(steps: seq<Step>, r: nat)
    requires r < |Exec(EMPTY, steps).rows|
    requires forall q :: q in Exec(EMPTY, steps).requests ==> q.phase != Won(r) && q.phase != EnqueueFailed(r)
    ensures exists k :: 0 <= k < |Exec(EMPTY, steps).tasks| && Exec(EMPTY, steps).tasks[k] == r
              && forall j :: 0 <= j < |Exec(EMPTY, steps).tasks| && Exec(EMPTY, steps).tasks[j] == r ==> j == k
  {
    var s := Exec(EMPTY, steps);
    RunGood(steps);
    EveryRowSeenTo(steps);
    assert SeenTo(s, r);
    assert forall i :: 0 <= i < |s.requests| ==> s.requests[i] in s.requests;
    var k :| 0 <= k < |s.tasks| && s.tasks[k] == r;
    forall j | 0 <= j < |s.tasks| && s.tasks[j] == r ensures j == k {
      assert !(j < k) && !(k < j);
    }
  }

  // ---- requests without a key ------------------------------------------------

  predicate Holds(q: Request, r: nat) {
    q.phase == Won(r) || q.phase == Replied(r) || q.phase == EnqueueFailed(r)
  }

  /** A request without a key never loses, and nobody else holds its row. */
  ghost predicate KeylessAlone(requests: seq<Request>) {
    && (forall i :: 0 <= i < |requests| && requests[i].target.key.None? ==>
          !requests[i].phase.Lost? && !requests[i].phase.Errored?)
    && (forall i, j, r :: 0 <= i < |requests| && 0 <= j < |requests| && i != j && requests[i].target.key.None? ==>
          !(Holds(requests[i], r) && Holds(requests[j], r)))
  }

  /** Request i holds row r already, or inserts it, or finds it under its key. */
  ghost predicate MayHold(s: State, i: nat, r: nat)
    requires i < |s.requests|
  {
    || Holds(s.requests[i], r)
    || r == |s.rows|
    || (s.requests[i].target.key.Some? && r < |s.rows| && s.rows[r] == s.requests[i].target)
  }

  lemma OthersApart(s: State, i: nat, j: nat, r: nat)
    requires Good(s) && KeylessAlone(s.requests) && i < |s.requests| && j < |s.requests| && i != j
    requires s.requests[i].target.key.None? || s.requests[j].target.key.None?
    requires MayHold(s, i, r)
    ensures !Holds(s.requests[j], r)
  {
    assert OwnRow(s, s.requests[j]);
    assert !(Holds(s.requests[i], r) && Holds(s.requests[j], r));
  }

  lemma PhaseKeyless(s: State, i: nat, p: Phase)
    requires Good(s) && KeylessAlone(s.requests) && i < |s.requests|
    requires s.requests[i].target.key.None? ==> !p.Lost? && !p.Errored?
    requires p.Won? || p.Replied? || p.EnqueueFailed? ==> MayHold(s, i, p.row)
    ensures KeylessAlone(SetPhase(s, i, p).requests)
  {
    var t := SetPhase(s, i, p).requests;
    forall a, b, r | 0 <= a < |t| && 0 <= b < |t| && a != b && t[a].target.key.None?
      ensures !(Holds(t[a], r) && Holds(t[b], r))
    {
      if a == i && Holds(t[a], r) {
        OthersApart(s, i, b, r);
      } else if b == i && Holds(t[b], r) {
        OthersApart(s, i, a, r);
      }
    }
  }

  lemma StepKeyless(s: State, step: Step)
    requires Good(s) && KeylessAlone(s.requests)
    ensures KeylessAlone(Apply(s, step).requests)
  {
    var t := Apply(s, step);
    if !step.Receive? && step.i < |s.requests| && t != s {
      PhaseKeyless(s, step.i, t.requests[step.i].phase);
    }
  }

  /** In every run two requests of which one has no key are answered with different rows. */
  lemma {:induction false} KeylessGetOwnRow(steps: seq<Step>)
    ensures KeylessAlone(Exec(EMPTY, steps).requests)
  {
    if steps != [] {
      var n := |steps| - 1;
      KeylessGetOwnRow(steps[..n]);
      RunGood(steps[..n]);
      StepKeyless(Exec(EMPTY, steps[..n]), steps[n]);
    }
  }

  /** The first lookup answers exactly requests whose nonempty key some row has. */
  lemma FirstLookupAnswers(s: State, i: nat)
    requires i < |s.requests| && s.requests[i].phase == Received
    ensures var q, t := s.requests[i], Apply(s, FirstLookup(i));
            && (t.requests[i].phase.Replied? <==> q.target.key.Some? && q.target.key != Some("") && q.target in s.rows)
            && (!t.requests[i].phase.Replied? ==> t.requests[i].phase == Missed)
            && t.rows == s.rows && t.tasks == s.tasks
  {
  }
}
