/**
 * Event delivery: a numbered log with concurrent writers, and clients that
 * replay from a cursor, poll on lossy wake-ups, drop and reconnect.
 */
module Delivery {
  import opened Wrappers
  import ExecutionRow

  datatype EventType = WorkflowStarted | NodeStarted | NodeCompleted | NodeFailed | WorkflowCompleted | ApprovalRequired

  /** status is the payload's status entry, "" if it has none. */
  datatype Event = Event(seqNo: nat, kind: EventType, status: string)

  /** The one test of a status that the snapshot, the replay and the live loop share. */
  predicate Final(status: string) {
    status in {"completed", "failed", "canceled"}
  }

  predicate IsTerminal(e: Event) {
    e.kind.WorkflowCompleted? && Final(e.status)
  }

  /** The statuses of a row as they are stored and sent. */
  function StatusName(status: ExecutionRow.Status): string {
    match status
    case Queued => "queued"
    case Running => "running"
    case WaitingApproval => "waiting_approval"
    case Completed => "completed"
    case Failed => "failed"
    case Canceled => "canceled"
  }

  /** The snapshot closes a connection exactly when no statement guarded by the row's status applies any more. */
  lemma FinalIffInactive(status: ExecutionRow.Status)
    ensures Final(StatusName(status)) <==> !ExecutionRow.Active(status)
    ensures Final(StatusName(status)) <==> status.Completed? || status.Failed? || status.Canceled?
  {
    var name := StatusName(status);
    assert name[0] == if status.Queued? then 'q' else if status.Running? then 'r'
                      else if status.WaitingApproval? then 'w' else if status.Failed? then 'f' else 'c';
  }

  /** An event ends a connection exactly when it completes the workflow with the name of an inactive status. */
  lemma TerminalIff(e: Event)
    ensures IsTerminal(e) <==>
            && e.kind == WorkflowCompleted
            && exists status :: !ExecutionRow.Active(status) && e.status == StatusName(status)
  {
    if IsTerminal(e) {
      var status := if e.status == "completed" then ExecutionRow.Completed
                    else if e.status == "failed" then ExecutionRow.Failed else ExecutionRow.Canceled;
      assert !ExecutionRow.Active(status) && e.status == StatusName(status);
    }
  }

  // ---- the log -------------------------------------------------------------

  /** Events carry 1, 2, 3, ... in order of insertion. */
  ghost predicate Numbered(log: seq<Event>) {
    forall i :: 0 <= i < |log| ==> log[i].seqNo == i + 1
  }

  function InsertBySeq(e: Event, sorted: seq<Event>): seq<Event> {
    if sorted == [] || e.seqNo <= sorted[0].seqNo then [e] + sorted
    else [sorted[0]] + InsertBySeq(e, sorted[1..])
  }

  /** Rows with seqNo > after, ascending. */
  function ListSince(log: seq<Event>, after: nat): seq<Event> {
    if log == [] then []
    else
      var rest := ListSince(log[1..], after);
      if log[0].seqNo > after then InsertBySeq(log[0], rest) else rest
  }

  /** Consecutive numbers from first on. */
  ghost predicate NumberedFrom(log: seq<Event>, first: nat) {
    forall i :: 0 <= i < |log| ==> log[i].seqNo == first + i
  }

  lemma {:induction false} ListSinceNumbered(log: seq<Event>, first: nat, after: nat)
    requires NumberedFrom(log, first)
    ensures ListSince(log, after) ==
      if after < first then log else if after - first + 1 <= |log| then log[after - first + 1..] else []
  {
    if log != [] {
      var rest := log[1..];
      assert NumberedFrom(rest, first + 1);
      ListSinceNumbered(rest, first + 1, after);
      if after < first {
        assert [log[0]] + rest == log;
      } else if after - first + 1 <= |log| {
        assert rest[after - first..] == log[after - first + 1..];
      }
    }
  }

  /** On a numbered log the query returns exactly the part after the cursor. */
  lemma QueryIsSuffix(log: seq<Event>, after: nat)
    requires Numbered(log)
    ensures ListSince(log, after) == if after <= |log| then log[after..] else []
  {
    ListSinceNumbered(log, 1, after);
    assert after == 0 ==> log[after..] == log;
  }

  /** The loop that sends a batch: stop after the first terminal event. */
  method SendBatch(events: seq<Event>, cursor: nat) returns (sent: seq<Event>, last: nat, terminal: bool)
    ensures sent <= events
    ensures !terminal ==> sent == events && forall i :: 0 <= i < |sent| ==> !IsTerminal(sent[i])
    ensures terminal ==> sent != [] && IsTerminal(sent[|sent| - 1])
                         && forall i :: 0 <= i < |sent| - 1 ==> !IsTerminal(sent[i])
    ensures last == if sent == [] then cursor else sent[|sent| - 1].seqNo
  {
    sent, last, terminal := [], cursor, false;
    for i := 0 to |events|
      invariant sent == events[..i] && !terminal
      invariant forall k :: 0 <= k < i ==> !IsTerminal(sent[k])
      invariant last == if sent == [] then cursor else sent[|sent| - 1].seqNo
    {
      sent, last := sent + [events[i]], events[i].seqNo;
      if IsTerminal(events[i]) {
        return sent, last, true;
      }
    }
  }

  // ---- the system ----------------------------------------------------------

  /** Appending is a count followed by an insert under a uniqueness constraint. */
  datatype Writer = Writer(kind: EventType, status: string, counted: Option<nat>, finished: bool)

  /**
   * A connection: the server's cursor, fetched events not yet sent, everything
   * it has sent, the part of that still on its way, and whether the server has
   * stopped sending.
   */
  datatype Connection = Connection(cursor: nat, batch: seq<Event>, sent: seq<Event>, wire: seq<Event>, ended: bool)

  datatype Client = Client(received: seq<Event>, lastSeen: nat)

  /** over: the row's status is terminal; past: what each connection that is gone had sent. */
  datatype State = State(
    log: seq<Event>, writers: seq<Writer>, over: bool, conn: Option<Connection>, client: Client, past: seq<seq<Event>>)

  datatype Step =
    | StartAppend(kind: EventType, status: string)
    | CountRows(i: nat)
    | InsertRow(i: nat)
    | SetStatus(row: ExecutionRow.Status)
    | Connect
    | Poll
    | Send
    | Arrive
    | Disconnect

  /** A stale number is already taken: the insert raises and the event is lost, not misplaced. */
  function DoInsert(s: State, i: nat): State
    requires i < |s.writers| && s.writers[i].counted.Some?
  {
    var w := s.writers[i];
    var n := w.counted.value + 1;
    var t := s.(writers := s.writers[i := w.(finished := true)]);
    if exists k :: 0 <= k < |s.log| && s.log[k].seqNo == n then t
    else t.(log := s.log + [Event(n, w.kind, w.status)])
  }

  /** The server sends the next fetched event and moves its cursor; after a terminal one it ends. */
  function DoSend(c: Connection): Connection
    requires c.batch != []
  {
    var e := c.batch[0];
    Connection(e.seqNo, c.batch[1..], c.sent + [e], c.wire + [e], IsTerminal(e))
  }

  /** The client takes the next event off the wire and remembers its number. */
  function DoArrive(s: State): State
    requires s.conn.Some? && s.conn.value.wire != []
  {
    var c := s.conn.value;
    s.(conn := Some(c.(wire := c.wire[1..])), client := Client(s.client.received + [c.wire[0]], c.wire[0].seqNo))
  }

  /**
   * A client that connects while the row is terminal gets a snapshot and nothing else.
   * Wake-ups are Poll steps: they may come late, for nothing, or not at all.
   * A connection may drop at any moment, with events still on the wire.
   */
  function Apply(s: State, step: Step): State {
    match step
    case StartAppend(k, p) => s.(writers := s.writers + [Writer(k, p, None, false)])
    case CountRows(i) =>
      if i < |s.writers| && s.writers[i].counted.None? then
        s.(writers := s.writers[i := s.writers[i].(counted := Some(|s.log|))])
      else s
    case InsertRow(i) =>
      if i < |s.writers| && s.writers[i].counted.Some? && !s.writers[i].finished then DoInsert(s, i) else s
    case SetStatus(status) => s.(over := Final(StatusName(status)))
    case Connect => if s.conn.None? then s.(conn := Some(Connection(s.client.lastSeen, [], [], [], s.over))) else s
    case Poll =>
      if s.conn.Some? && !s.conn.value.ended && s.conn.value.batch == [] then
        s.(conn := Some(s.conn.value.(batch := ListSince(s.log, s.conn.value.cursor))))
      else s
    case Send =>
      if s.conn.Some? && !s.conn.value.ended && s.conn.value.batch != []
      then s.(conn := Some(DoSend(s.conn.value))) else s
    case Arrive => if s.conn.Some? && s.conn.value.wire != [] then DoArrive(s) else s
    case Disconnect => if s.conn.Some? then s.(conn := None, past := s.past + [s.conn.value.sent]) else s
  }

  function Exec(s: State, steps: seq<Step>): State {
    if steps == [] then s else Apply(Exec(s, steps[..|steps| - 1]), steps[|steps| - 1])
  }

  const EMPTY := State([], [], false, None, Client([], 0), [])

  // ---- invariant -----------------------------------------------------------

  ghost predicate WritersSound(s: State) {
    forall i :: 0 <= i < |s.writers| && s.writers[i].counted.Some? ==> s.writers[i].counted.value <= |s.log|
  }

  ghost predicate ClientSound(s: State) {
    s.client.received <= s.log && s.client.lastSeen == |s.client.received|
  }

  /** No terminal event before the last. */
  ghost predicate EndsAtTerminal(sent: seq<Event>) {
    forall i :: 0 <= i < |sent| - 1 ==> !IsTerminal(sent[i])
  }

  /** Received, on the wire and fetched together are how the log begins. */
  ghost predicate ConnSound(s: State, c: Connection) {
    && c.cursor == |s.client.received| + |c.wire|
    && s.client.received + c.wire + c.batch <= s.log
    && EndsAtTerminal(c.sent)
    && (!c.ended && c.sent != [] ==> !IsTerminal(c.sent[|c.sent| - 1]))
  }

  ghost predicate PastSound(s: State) {
    forall i :: 0 <= i < |s.past| ==> EndsAtTerminal(s.past[i])
  }

  ghost predicate Good(s: State) {
    && Numbered(s.log) && WritersSound(s) && ClientSound(s) && PastSound(s)
    && (s.conn.Some? ==> ConnSound(s, s.conn.value))
  }

  lemma InsertGood(s: State, i: nat)
    requires Good(s) && i < |s.writers| && s.writers[i].counted.Some?
    ensures Good(DoInsert(s, i))
  {
    var n := s.writers[i].counted.value + 1;
    if n <= |s.log| {
      assert s.log[n - 1].seqNo == n;
    }
  }

  lemma SendGood(s: State)
    requires Good(s) && s.conn.Some? && !s.conn.value.ended && s.conn.value.batch != []
    ensures ConnSound(s, DoSend(s.conn.value))
  {
    var c := s.conn.value;
    var r := s.client.received;
    var e := c.batch[0];
    assert (r + c.wire + c.batch)[|r| + |c.wire|] == e == s.log[|r| + |c.wire|];
    assert r + (c.wire + [e]) + c.batch[1..] == r + c.wire + c.batch;
  }

  lemma ArriveGood(s: State)
    requires Good(s) && s.conn.Some? && s.conn.value.wire != []
    ensures Good(DoArrive(s))
  {
    var c := s.conn.value;
    var r := s.client.received;
    assert (r + c.wire + c.batch)[|r|] == c.wire[0] == s.log[|r|];
    assert (r + [c.wire[0]]) + c.wire[1..] + c.batch == r + c.wire + c.batch;
    assert r + [c.wire[0]] <= r + c.wire + c.batch;
  }

  lemma PollGood(s: State)
    requires Good(s) && s.conn.Some? && s.conn.value.batch == []
    ensures ConnSound(s, s.conn.value.(batch := ListSince(s.log, s.conn.value.cursor)))
    ensures s.client.received + s.conn.value.wire + ListSince(s.log, s.conn.value.cursor) == s.log
  {
    var c := s.conn.value;
    var r := s.client.received + c.wire;
    QueryIsSuffix(s.log, c.cursor);
    assert r + c.batch == r;
    assert r + s.log[|r|..] == s.log;
  }

  lemma StepGood(s: State, step: Step)
    requires Good(s)
    ensures Good(Apply(s, step))
  {
    match step
    case InsertRow(i) =>
      if i < |s.writers| && s.writers[i].counted.Some? && !s.writers[i].finished {
        InsertGood(s, i);
      }
    case Send =>
      if s.conn.Some? && !s.conn.value.ended && s.conn.value.batch != [] {
        SendGood(s);
      }
    case Arrive =>
      if s.conn.Some? && s.conn.value.wire != [] {
        ArriveGood(s);
      }
    case Poll =>
      if s.conn.Some? && s.conn.value.batch == [] {
        PollGood(s);
      }
    case Connect =>
      assert s.client.received + [] + [] == s.client.received;
    case _ =>
  }

  lemma {:induction false} RunGood(steps: seq<Step>)
    ensures Good(Exec(EMPTY, steps))
  {
    if steps != [] {
      var n := |steps| - 1;
      RunGood(steps[..n]);
      StepGood(Exec(EMPTY, steps[..n]), steps[n]);
    }
  }

  /**
   * Gap-free delivery: whatever wake-ups, drops, reconnects and competing
   * writers do, a client has received exactly the first events of the log, in
   * order, each once, and no connection sent anything after a terminal event.
   */
  lemma GapFree(steps: seq<Step>)
    ensures var s := Exec(EMPTY, steps);
      && Numbered(s.log)
      && |s.client.received| <= |s.log| && s.client.received == s.log[..|s.client.received|]
      && s.client.lastSeen == |s.client.received|
      && (forall i :: 0 <= i < |s.past| ==> EndsAtTerminal(s.past[i]))
      && (s.conn.Some? ==> EndsAtTerminal(s.conn.value.sent))
  {
    RunGood(steps);
  }

  // ---- what is logged --------------------------------------------------------

  /** Writer w counted k rows, has made its insert and wrote e: its own event, numbered k + 1. */
  predicate Wrote(w: Writer, k: nat, e: Event) {
    w.finished && w.counted == Some(k) && e == Event(k + 1, w.kind, w.status)
  }

  ghost predicate ByOne(writers: seq<Writer>, log: seq<Event>, k: nat)
    requires k < |log|
  {
    exists i :: 0 <= i < |writers| && Wrote(writers[i], k, log[k])
  }

  /** Every logged event is some writer's, and a writer whose insert is done either wrote its number or lost it. */
  ghost predicate LogIsWritten(s: State) {
    && (forall k :: 0 <= k < |s.log| ==> ByOne(s.writers, s.log, k))
    && (forall i :: 0 <= i < |s.writers| && s.writers[i].finished ==>
          s.writers[i].counted.Some? && s.writers[i].counted.value < |s.log|)
  }

  lemma ByOneStays(s: State, t: State, k: nat)
    requires k < |s.log| && ByOne(s.writers, s.log, k) && s.log <= t.log && |s.writers| <= |t.writers|
    requires forall i :: 0 <= i < |s.writers| && s.writers[i].finished ==> t.writers[i] == s.writers[i]
    ensures ByOne(t.writers, t.log, k)
  {
    var i :| 0 <= i < |s.writers| && Wrote(s.writers[i], k, s.log[k]);
    assert Wrote(t.writers[i], k, t.log[k]);
  }

  lemma InsertWritten(s: State, i: nat)
    requires Good(s) && LogIsWritten(s)
    requires i < |s.writers| && s.writers[i].counted.Some? && !s.writers[i].finished
    ensures LogIsWritten(DoInsert(s, i))
  {
    var t, n := DoInsert(s, i), s.writers[i].counted.value;
    if n < |s.log| {
      assert s.log[n].seqNo == n + 1;
    }
    forall k | 0 <= k < |t.log| ensures ByOne(t.writers, t.log, k) {
      if k < |s.log| {
        ByOneStays(s, t, k);
      } else {
        assert Wrote(t.writers[i], k, t.log[k]);
      }
    }
  }

  lemma StepWritten(s: State, step: Step)
    requires Good(s) && LogIsWritten(s)
    ensures LogIsWritten(Apply(s, step))
  {
    var t := Apply(s, step);
    if step.InsertRow? && t != s {
      InsertWritten(s, step.i);
    } else {
      forall k | 0 <= k < |s.log| ensures ByOne(t.writers, s.log, k) {
        ByOneStays(s, t, k);
      }
    }
  }

  /**
   * Competing writers neither duplicate nor alter events: the k-th row is the event of one writer
   * that counted k before it, and a writer that is done without a row found its number taken.
   */
  lemma {:induction false} LogHoldsWrites(steps: seq<Step>)
    ensures LogIsWritten(Exec(EMPTY, steps))
  {
    if steps != [] {
      var n := |steps| - 1;
      LogHoldsWrites(steps[..n]);
      RunGood(steps[..n]);
      StepWritten(Exec(EMPTY, steps[..n]), steps[n]);
    }
  }

  // ---- catching up ---------------------------------------------------------

  /** One poll fetches everything that is neither received nor on the wire. */
  lemma PollFetchesRest(steps: seq<Step>)
    requires var s := Exec(EMPTY, steps); s.conn.Some? && !s.conn.value.ended && s.conn.value.batch == []
    ensures var s := Exec(EMPTY, steps);
      var t := Apply(s, Poll);
      t.conn.Some? && s.client.received + s.conn.value.wire + t.conn.value.batch == s.log
  {
    RunGood(steps);
    PollGood(Exec(EMPTY, steps));
  }

  /** Steps of an open connection. */
  predicate Delivering(step: Step) {
    step.Poll? || step.Send? || step.Arrive?
  }

  ghost predicate AllDelivering(steps: seq<Step>) {
    forall k :: 0 <= k < |steps| ==> Delivering(steps[k])
  }

  /** The position after the first terminal event at k or later; the end of the log if there is none. */
  function StopAt(log: seq<Event>, k: nat): (r: nat)
    requires k <= |log|
    ensures k <= r <= |log| && (k < |log| ==> k < r)
    ensures forall i :: k <= i < r - 1 ==> !IsTerminal(log[i])
    ensures r < |log| ==> k < r && IsTerminal(log[r - 1])
    decreases |log| - k
  {
    if k == |log| then k else if IsTerminal(log[k]) then k + 1 else StopAt(log, k + 1)
  }

  /** How far the connection will take the client. */
  ghost function Goal(s: State, c: Connection): nat
    requires c.cursor <= |s.log|
  {
    if c.ended then c.cursor else StopAt(s.log, c.cursor)
  }

  /** Nothing is on the wire or fetched, and a poll would fetch nothing. */
  ghost predicate AtRest(s: State) {
    forall step :: Delivering(step) ==> Apply(s, step) == s
  }

  lemma CursorWithin(s: State)
    requires Good(s) && s.conn.Some?
    ensures s.conn.value.cursor <= |s.log|
  {
    var c := s.conn.value;
    assert |s.client.received + c.wire + c.batch| <= |s.log|;
  }

  lemma NextToSend(s: State)
    requires Good(s) && s.conn.Some? && s.conn.value.batch != []
    ensures s.conn.value.cursor < |s.log| && s.conn.value.batch[0] == s.log[s.conn.value.cursor]
  {
    var c := s.conn.value;
    var all := s.client.received + c.wire + c.batch;
    assert all[c.cursor] == c.batch[0] && all[c.cursor] == s.log[c.cursor];
  }

  /** A delivering step keeps the log, the connection and its goal. */
  lemma GoalKept(s: State, step: Step)
    requires Good(s) && s.conn.Some? && Delivering(step)
    ensures var t := Apply(s, step);
      && t.log == s.log && t.conn.Some? && Good(t)
      && s.conn.value.cursor <= |s.log| && t.conn.value.cursor <= |s.log|
      && Goal(t, t.conn.value) == Goal(s, s.conn.value)
  {
    StepGood(s, step);
    CursorWithin(s);
    if step.Send? && !s.conn.value.ended && s.conn.value.batch != [] {
      NextToSend(s);
    }
  }

  /** A connection is at rest exactly when the client has all the connection will give it. */
  lemma AtRestIff(s: State)
    requires Good(s) && s.conn.Some?
    ensures s.conn.value.cursor <= |s.log|
    ensures |s.client.received| <= Goal(s, s.conn.value)
    ensures AtRest(s) <==> |s.client.received| == Goal(s, s.conn.value)
  {
    CursorWithin(s);
    var c := s.conn.value;
    QueryIsSuffix(s.log, c.cursor);
    if AtRest(s) {
      assert Apply(s, Poll) == s && Apply(s, Send) == s && Apply(s, Arrive) == s;
      RestIsGoal(s);
    }
    if |s.client.received| == Goal(s, c) {
      GoalIsRest(s);
    }
  }

  lemma ArriveMoves(s: State)
    requires s.conn.Some? && s.conn.value.wire != []
    ensures Apply(s, Arrive) != s
  {
    assert |DoArrive(s).client.received| == |s.client.received| + 1;
  }

  lemma SendMoves(s: State)
    requires s.conn.Some? && !s.conn.value.ended && s.conn.value.batch != []
    ensures Apply(s, Send) != s
  {
    assert |DoSend(s.conn.value).sent| == |s.conn.value.sent| + 1;
  }

  lemma PollAtEnd(s: State)
    requires Good(s) && s.conn.Some? && s.conn.value.cursor >= |s.log|
    ensures Apply(s, Poll) == s
  {
    QueryIsSuffix(s.log, s.conn.value.cursor);
  }

  lemma RestIsGoal(s: State)
    requires Good(s) && s.conn.Some? && s.conn.value.cursor <= |s.log|
    requires Apply(s, Poll) == s && Apply(s, Send) == s && Apply(s, Arrive) == s
    ensures |s.client.received| == Goal(s, s.conn.value)
  {
    var c := s.conn.value;
    QueryIsSuffix(s.log, c.cursor);
    if c.wire != [] {
      ArriveMoves(s);
    }
    if !c.ended && c.batch != [] {
      SendMoves(s);
    }
  }

  lemma GoalIsRest(s: State)
    requires Good(s) && s.conn.Some? && s.conn.value.cursor <= |s.log|
    requires |s.client.received| == Goal(s, s.conn.value)
    ensures AtRest(s)
  {
    var c := s.conn.value;
    assert c.wire == [];
    if !c.ended {
      QueryIsSuffix(s.log, c.cursor);
      assert |s.client.received + c.wire + c.batch| <= |s.log|;
      assert c.batch == [];
    }
  }

  /** What a connection has left to do, counting a poll, a send and an arrival for each event. */
  ghost function Left(s: State): int
    requires s.conn.Some?
  {
    var c := s.conn.value;
    3 * (|s.log| - c.cursor) + |c.wire| + (if c.batch == [] then 1 else 0)
  }

  lemma StepsTowardsRest(s: State, step: Step)
    requires Good(s) && s.conn.Some? && Delivering(step) && Apply(s, step) != s
    ensures Apply(s, step).conn.Some? && 0 <= Left(Apply(s, step)) < Left(s)
  {
    GoalKept(s, step);
    var c := s.conn.value;
    if step.Send? {
      NextToSend(s);
    } else if step.Poll? {
      QueryIsSuffix(s.log, c.cursor);
      if c.cursor >= |s.log| {
        PollAtEnd(s);
      }
    }
  }

  /**
   * A connection left alone: whatever order its steps come in, the log and the goal stay, the client
   * never gets past the goal, and the connection comes to rest exactly when the client has it all.
   */
  lemma {:induction false} LeftToItself(s: State, more: seq<Step>)
    requires Good(s) && s.conn.Some? && AllDelivering(more)
    ensures var t := Exec(s, more);
      && s.conn.value.cursor <= |s.log| && Good(t) && t.conn.Some? && t.log == s.log
      && t.conn.value.cursor <= |s.log| && Goal(t, t.conn.value) == Goal(s, s.conn.value)
      && |t.client.received| <= Goal(s, s.conn.value)
      && (AtRest(t) <==> t.client.received == s.log[..Goal(s, s.conn.value)])
  {
    CursorWithin(s);
    var t := Exec(s, more);
    if more != [] {
      var n := |more| - 1;
      LeftToItself(s, more[..n]);
      GoalKept(Exec(s, more[..n]), more[n]);
    }
    AtRestIff(t);
  }

  lemma ExecCons(s: State, step: Step, more: seq<Step>)
    ensures Exec(s, [step] + more) == Exec(Apply(s, step), more)
    decreases more
  {
    var all := [step] + more;
    if more == [] {
      assert all[..0] == [];
      assert Exec(s, all[..0]) == s;
    } else {
      var n := |more| - 1;
      ExecCons(s, step, more[..n]);
      assert all[..n + 1] == [step] + more[..n];
    }
  }

  /** And it can always be brought to rest; every effective step is one towards it. */
  lemma {:induction false} ComesToRest(s: State) returns (more: seq<Step>)
    requires Good(s) && s.conn.Some?
    ensures AllDelivering(more) && AtRest(Exec(s, more))
    decreases Left(s)
  {
    more := [];
    if !AtRest(s) {
      var step :| Delivering(step) && Apply(s, step) != s;
      StepsTowardsRest(s, step);
      CursorWithin(s);
      StepGood(s, step);
      var rest := ComesToRest(Apply(s, step));
      ExecCons(s, step, rest);
      more := [step] + rest;
    }
  }

  /**
   * A live connection, left alone, gives the client the log up to and including the first terminal
   * event after its cursor.
   */
  lemma LiveConnectionDelivers(steps: seq<Step>) returns (more: seq<Step>)
    requires var s := Exec(EMPTY, steps); s.conn.Some? && !s.conn.value.ended
    ensures AllDelivering(more)
    ensures var s := Exec(EMPTY, steps);
      s.conn.value.cursor <= |s.log| && Exec(s, more).client.received == s.log[..StopAt(s.log, s.conn.value.cursor)]
  {
    RunGood(steps);
    var s := Exec(EMPTY, steps);
    more := ComesToRest(s);
    LeftToItself(s, more);
  }

  // ---- reconnecting --------------------------------------------------------

  /** Steps that neither write to the log nor change the row's status. */
  predicate Passive(step: Step) {
    Delivering(step) || step.Connect? || step.Disconnect?
  }

  ghost predicate AllPassive(steps: seq<Step>) {
    forall k :: 0 <= k < |steps| ==> Passive(steps[k])
  }

  ghost predicate CanReceiveMore(s: State) {
    exists more :: AllPassive(more) && |Exec(s, more).client.received| > |s.client.received|
  }

  lemma {:induction false} LogIsEnough(s: State, more: seq<Step>)
    requires Good(s) && AllPassive(more)
    ensures Good(Exec(s, more)) && Exec(s, more).log == s.log
  {
    if more != [] {
      var n := |more| - 1;
      LogIsEnough(s, more[..n]);
      StepGood(Exec(s, more[..n]), more[n]);
    }
  }

  /**
   * A client without a connection while the row is terminal gets nothing more as long as the status
   * stays: every connection ends before replaying anything, whatever is or will be in the log.
   */
  lemma {:induction false} TailIsLostAfterTerminal(s: State, more: seq<Step>)
    requires s.over && s.conn.None? && forall k :: 0 <= k < |more| ==> !more[k].SetStatus?
    ensures var t := Exec(s, more);
      t.over && t.client == s.client && (t.conn.Some? ==> t.conn.value.ended && t.conn.value.wire == [])
  {
    if more != [] {
      TailIsLostAfterTerminal(s, more[..|more| - 1]);
    }
  }

  lemma ReconnectReceives(s: State)
    requires Good(s) && s.conn.None? && !s.over && |s.client.received| < |s.log|
    ensures CanReceiveMore(s)
  {
    var t := Apply(s, Connect);
    StepGood(s, Connect);
    CursorWithin(t);
    var rest := ComesToRest(t);
    LeftToItself(t, rest);
    ExecCons(s, Connect, rest);
    assert AllPassive([Connect] + rest);
  }

  /** A disconnected client can receive more if and only if the row is not terminal and the log holds more. */
  lemma ReconnectCatchesUpIff(steps: seq<Step>)
    requires Exec(EMPTY, steps).conn.None?
    ensures var s := Exec(EMPTY, steps); CanReceiveMore(s) <==> !s.over && |s.client.received| < |s.log|
  {
    RunGood(steps);
    var s := Exec(EMPTY, steps);
    if !s.over && |s.client.received| < |s.log| {
      ReconnectReceives(s);
    }
    if CanReceiveMore(s) {
      var more :| AllPassive(more) && |Exec(s, more).client.received| > |s.client.received|;
      LogIsEnough(s, more);
      if s.over {
        TailIsLostAfterTerminal(s, more);
      }
    }
  }

  lemma ExecSnoc(s: State, steps: seq<Step>, step: Step)
    ensures Exec(s, steps + [step]) == Apply(Exec(s, steps), step)
  {
    assert (steps + [step])[..|steps|] == steps;
  }

  /** The row has ended and the one logged event has not reached the client, whose connection dropped. */
  function Missed(kind: EventType, status: string): State {
    State([Event(1, kind, status)], [Writer(kind, status, Some(0), true)], true, None, Client([], 0), [[]])
  }

  /** A client drops, an event is logged, the row ends. */
  lemma MissedIsReachable(kind: EventType, status: string) returns (steps: seq<Step>)
    ensures Exec(EMPTY, steps) == Missed(kind, status)
  {
    steps := [];
    ExecSnoc(EMPTY, steps, Connect);
    steps := steps + [Connect];
    ExecSnoc(EMPTY, steps, Disconnect);
    steps := steps + [Disconnect];
    assert Exec(EMPTY, steps) == EMPTY.(past := [[]]);
    ExecSnoc(EMPTY, steps, StartAppend(kind, status));
    steps := steps + [StartAppend(kind, status)];
    ExecSnoc(EMPTY, steps, CountRows(0));
    steps := steps + [CountRows(0)];
    assert Exec(EMPTY, steps) == EMPTY.(past := [[]], writers := [Writer(kind, status, Some(0), false)]);
    ExecSnoc(EMPTY, steps, InsertRow(0));
    steps := steps + [InsertRow(0)];
    ExecSnoc(EMPTY, steps, SetStatus(ExecutionRow.Completed));
    steps := steps + [SetStatus(ExecutionRow.Completed)];
  }

  /** The failing input: in that state the client lacks an event, and lacks it as long as the row's status stays. */
  lemma MissedEventIsLost(kind: EventType, status: string, more: seq<Step>)
    requires forall k :: 0 <= k < |more| ==> !more[k].SetStatus?
    ensures var s := Missed(kind, status); |s.client.received| < |s.log| && Exec(s, more).client == s.client
  {
    TailIsLostAfterTerminal(Missed(kind, status), more);
  }
}
