/**
 * The execution row and the atomic statements that change it. Each statement
 * is a function on row values and a method on the stored record.
 */
module ExecutionRow {
  import opened Wrappers

  datatype Status = Queued | Running | WaitingApproval | Completed | Failed | Canceled

  predicate Active(s: Status) {
    s.Queued? || s.Running? || s.WaitingApproval?
  }

  datatype Decision = Approved | Rejected

  /** One pause at an approval node; since is the instant it was recorded under. */
  datatype Pause = Pause(node: string, since: int)

  /** The entries of the row's variables that the protocol reads. */
  datatype Vars = Vars(pending: Option<Pause>, decision: Option<Decision>)

  datatype Row = Row(
    status: Status,
    leaseOwner: Option<nat>,
    leaseExpiresAt: Option<int>,
    deliveryAttempts: nat,
    variables: Vars)

  const FRESH_ROW := Row(Queued, None, None, 0, Vars(None, None))

  predicate LeaseFree(r: Row, now: int) {
    r.leaseExpiresAt.None? || r.leaseExpiresAt.value < now
  }

  predicate Claimable(r: Row, now: int) {
    Active(r.status) && LeaseFree(r, now)
  }

  function Claim(r: Row, worker: nat, expires: int): Row {
    r.(status := Running, leaseOwner := Some(worker), leaseExpiresAt := Some(expires),
       deliveryAttempts := r.deliveryAttempts + 1)
  }

  function Cancel(r: Row): Row {
    if Active(r.status) then r.(status := Canceled) else r
  }

  /** Approving or rejecting: only a waiting row flips, and its lease is cleared. */
  function Flip(r: Row): Row {
    if r.status.WaitingApproval? then r.(status := Running, leaseOwner := None, leaseExpiresAt := None) else r
  }

  function FailIf(r: Row, from: Status): Row {
    if r.status == from then r.(status := Failed) else r
  }

  // The executor's own writes carry no guard.

  function MarkCompleted(r: Row): Row {
    r.(status := Completed, variables := Vars(None, None))
  }

  function MarkWaiting(r: Row, p: Pause): Row {
    r.(status := WaitingApproval, variables := Vars(Some(p), None))
  }

  function MarkFailed(r: Row): Row {
    r.(status := Failed)
  }

  /** The decision travels in variables, written over whatever is there now. */
  function Stamp(r: Row, snapshot: Vars, d: Decision): Row {
    r.(variables := Vars(snapshot.pending, Some(d)))
  }

  function ClearLease(r: Row): Row {
    r.(leaseOwner := None, leaseExpiresAt := None)
  }

  function DeadLetter(r: Row): Row {
    ClearLease(r).(status := Failed)
  }

  /** The stored row. */
  class Record {
    var status: Status
    var leaseOwner: Option<nat>
    var leaseExpiresAt: Option<int>
    var deliveryAttempts: nat
    var variables: Vars

    function Value(): Row
      reads this
    {
      Row(status, leaseOwner, leaseExpiresAt, deliveryAttempts, variables)
    }

    constructor ()
      ensures Value() == FRESH_ROW
    {
      status, leaseOwner, leaseExpiresAt, deliveryAttempts, variables := Queued, None, None, 0, Vars(None, None);
    }

    /** Select for update and update, in one transaction. */
    method TryClaim(worker: nat, requestedAt: int, leaseSeconds: int, now: int) returns (claimed: bool)
      modifies this
      ensures claimed <==>
              && (old(status) == Queued || old(status) == Running || old(status) == WaitingApproval)
              && (old(leaseExpiresAt).None? || old(leaseExpiresAt).value < now)
      ensures Value() == if claimed then Claim(old(Value()), worker, requestedAt + leaseSeconds) else old(Value())
    {
      claimed := Active(status) && (leaseExpiresAt.None? || leaseExpiresAt.value < now);
      if claimed {
        status := Running;
        leaseOwner, leaseExpiresAt := Some(worker), Some(requestedAt + leaseSeconds);
        deliveryAttempts := deliveryAttempts + 1;
      }
    }

    method TryCancel() returns (updated: bool)
      modifies this`status
      ensures updated <==> old(status) == Queued || old(status) == Running || old(status) == WaitingApproval
      ensures Value() == if updated then old(Value()).(status := Canceled) else old(Value())
      ensures Value() == Cancel(old(Value()))
    {
      updated := Active(status);
      if updated {
        status := Canceled;
      }
    }

    method TryFlip() returns (updated: bool)
      modifies this`status, this`leaseOwner, this`leaseExpiresAt
      ensures updated <==> old(status).WaitingApproval?
      ensures Value() == Flip(old(Value()))
    {
      updated := status.WaitingApproval?;
      if updated {
        status, leaseOwner, leaseExpiresAt := Running, None, None;
      }
    }

    /** The executor's writes go by id alone. */
    method WriteCompleted()
      modifies this`status, this`variables
      ensures Value() == MarkCompleted(old(Value()))
    {
      status, variables := Completed, Vars(None, None);
    }

    method WriteWaiting(p: Pause)
      modifies this`status, this`variables
      ensures Value() == MarkWaiting(old(Value()), p)
    {
      status, variables := WaitingApproval, Vars(Some(p), None);
    }

    method WriteFailed()
      modifies this`status
      ensures Value() == MarkFailed(old(Value()))
    {
      status := Failed;
    }

    method TryFail(from: Status) returns (updated: bool)
      modifies this`status
      ensures updated <==> old(status) == from
      ensures Value() == FailIf(old(Value()), from)
    {
      updated := status == from;
      if updated {
        status := Failed;
      }
    }
  }
}
