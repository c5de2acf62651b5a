/**
 * Superstep runs are runs in the sense of triggering: listing the firings of
 * the steps one step after another gives a sequence in which every firing was
 * triggered by an earlier one. What is proved of such sequences therefore
 * holds of every routing.
 */
module SuperstepRuns {
  import opened Wrappers
  import opened Digraph
  import opened Workflows
  import opened Exclusivity
  import opened Compile
  import opened Supersteps

  function FiringOf(nodes: seq<Node>, ms: Moments, k: nat, v: Id): Firing {
    Firing(v, Answer(NodeAt(nodes, v), ms(k, v)))
  }

  /** Entry i of the list is the firing of run[i].node in step at[i], which is one of the active sets. */
  ghost predicate Sound(nodes: seq<Node>, ms: Moments, active: seq<set<Id>>, run: seq<Firing>, at: seq<nat>) {
    && |at| == |run|
    && (forall i :: 0 <= i < |run| ==> at[i] < |active| && run[i].node in active[at[i]])
    && (forall i :: 0 <= i < |run| ==> run[i] == FiringOf(nodes, ms, at[i], run[i].node))
  }

  /** Step after step, and no node twice in one step. */
  ghost predicate InOrder(run: seq<Firing>, at: seq<nat>) {
    && |at| == |run|
    && (forall i, j :: 0 <= i < j < |run| ==> at[i] <= at[j] && (at[i] == at[j] ==> run[i].node != run[j].node))
  }

  ghost predicate Listed(run: seq<Firing>, at: seq<nat>, k: nat, v: Id) {
    exists i :: 0 <= i < |run| && i < |at| && at[i] == k && run[i].node == v
  }

  ghost predicate Full(active: seq<set<Id>>, run: seq<Firing>, at: seq<nat>) {
    forall k, v :: 0 <= k < |active| && v in active[k] ==> Listed(run, at, k, v)
  }

  /** The active sets of the first n steps. */
  ghost function Steps(nodes: seq<Node>, edges: seq<Edge>, start: Id, ms: Moments, n: nat): (r: seq<set<Id>>)
    ensures |r| == n && forall k :: 0 <= k < n ==> r[k] == Active(nodes, edges, start, ms, k)
  {
    seq(n, k requires 0 <= k < n => Active(nodes, edges, start, ms, k))
  }

  lemma {:induction false} Enumerate(vs: set<Id>) returns (q: seq<Id>)
    ensures Distinct(q) && forall v :: v in q <==> v in vs
  {
    q := [];
    if vs != {} {
      var v :| v in vs;
      var rest := Enumerate(vs - {v});
      q := [v] + rest;
    }
  }

  lemma AddSound(nodes: seq<Node>, ms: Moments, active: seq<set<Id>>, run: seq<Firing>, at: seq<nat>, q: seq<Id>,
      more: seq<Firing>, n: seq<nat>)
    requires active != [] && Sound(nodes, ms, active[..|active| - 1], run, at)
    requires |more| == |q| == |n| && forall v :: v in q <==> v in active[|active| - 1]
    requires forall i :: 0 <= i < |q| ==> more[i] == FiringOf(nodes, ms, |active| - 1, q[i]) && n[i] == |active| - 1
    ensures Sound(nodes, ms, active, run + more, at + n)
  {
    var all, when := run + more, at + n;
    forall i | 0 <= i < |all|
      ensures when[i] < |active| && all[i].node in active[when[i]]
                && all[i] == FiringOf(nodes, ms, when[i], all[i].node)
    {
      if i >= |run| {
        assert q[i - |run|] in q;
      } else {
        assert run[i].node in active[..|active| - 1][at[i]];
      }
    }
  }

  lemma AddInOrder(run: seq<Firing>, at: seq<nat>, q: seq<Id>, more: seq<Firing>, n: seq<nat>, last: nat)
    requires InOrder(run, at) && Distinct(q) && |more| == |q| == |n|
    requires forall i :: 0 <= i < |q| ==> more[i].node == q[i] && n[i] == last
    requires forall i :: 0 <= i < |at| ==> at[i] < last
    ensures InOrder(run + more, at + n)
  {
  }

  lemma AddFull(active: seq<set<Id>>, run: seq<Firing>, at: seq<nat>, q: seq<Id>, more: seq<Firing>, n: seq<nat>)
    requires active != [] && Full(active[..|active| - 1], run, at) && |at| == |run| && |more| == |q| == |n|
    requires forall v :: v in q <==> v in active[|active| - 1]
    requires forall i :: 0 <= i < |q| ==> more[i].node == q[i] && n[i] == |active| - 1
    ensures Full(active, run + more, at + n)
  {
    var all, when := run + more, at + n;
    forall k, v | 0 <= k < |active| && v in active[k] ensures Listed(all, when, k, v) {
      if k < |active| - 1 {
        assert v in active[..|active| - 1][k];
        assert Listed(run, at, k, v);
        var i :| 0 <= i < |run| && i < |at| && at[i] == k && run[i].node == v;
        assert when[i] == k && all[i].node == v;
      } else {
        assert v in q;
        var i :| 0 <= i < |q| && q[i] == v;
        assert when[|run| + i] == k && all[|run| + i].node == v;
      }
    }
  }

  lemma {:induction false} ListSteps(nodes: seq<Node>, ms: Moments, active: seq<set<Id>>)
    returns (run: seq<Firing>, at: seq<nat>)
    ensures Sound(nodes, ms, active, run, at) && InOrder(run, at) && Full(active, run, at)
  {
    run, at := [], [];
    if active != [] {
      var n := |active| - 1;
      var early, before := ListSteps(nodes, ms, active[..n]);
      var q := Enumerate(active[n]);
      var more, when := seq(|q|, i requires 0 <= i < |q| => FiringOf(nodes, ms, n, q[i])), seq(|q|, i => n);
      AddSound(nodes, ms, active, early, before, q, more, when);
      AddInOrder(early, before, q, more, when, n);
      AddFull(active, early, before, q, more, when);
      run, at := early + more, before + when;
    }
  }

  /** A node active in a later step was triggered by a firing of the step before. */
  lemma ActiveTriggered(nodes: seq<Node>, edges: seq<Edge>, start: Id, ms: Moments, k: nat, v: Id) returns (u: Id)
    requires v in Active(nodes, edges, start, ms, k + 1)
    ensures u in Active(nodes, edges, start, ms, k) && Triggers(nodes, edges, FiringOf(nodes, ms, k, u), v)
  {
    var e :| e in edges && e.source in Active(nodes, edges, start, ms, k) && Taken(nodes, e, ms, k) && e.target == v;
    u := e.source;
    assert Passes(nodes, FiringOf(nodes, ms, k, u), e);
  }

  /** The firings of a superstep run, step after step, form a run. */
  lemma StepsFormRun(nodes: seq<Node>, edges: seq<Edge>, start: Id, ms: Moments, n: nat)
    returns (run: seq<Firing>, at: seq<nat>)
    ensures Run(nodes, edges, start, run)
    ensures var active := Steps(nodes, edges, start, ms, n);
      Sound(nodes, ms, active, run, at) && InOrder(run, at) && Full(active, run, at)
  {
    var active := Steps(nodes, edges, start, ms, n);
    run, at := ListSteps(nodes, ms, active);
    if |run| > 0 {
      FirstIsStart(nodes, ms, start, active, run, at);
    }
    forall i | 0 < i < |run| ensures exists j :: 0 <= j < i && Triggers(nodes, edges, run[j], run[i].node) {
      var k := at[i] - 1;
      var u := ActiveTriggered(nodes, edges, start, ms, k, run[i].node);
      assert u in active[k];
      var j := Earlier(run, at, i, k, u);
      assert run[j] == FiringOf(nodes, ms, k, u);
    }
  }

  lemma Earlier(run: seq<Firing>, at: seq<nat>, i: nat, k: nat, u: Id) returns (j: nat)
    requires InOrder(run, at) && i < |run| && k < at[i] && Listed(run, at, k, u)
    ensures j < i && at[j] == k && run[j].node == u
  {
    j :| 0 <= j < |run| && j < |at| && at[j] == k && run[j].node == u;
  }

  lemma FirstIsStart(nodes: seq<Node>, ms: Moments, start: Id, active: seq<set<Id>>, run: seq<Firing>, at: seq<nat>)
    requires Sound(nodes, ms, active, run, at) && InOrder(run, at) && Full(active, run, at) && |run| > 0
    requires active != [] ==> active[0] == {start}
    ensures run[0].node == start && forall i :: 0 < i < |run| ==> at[i] > 0
  {
    assert at[0] < |active|;
    assert start in active[0];
    assert Listed(run, at, 0, start);
    assert at[0] == 0;
    assert forall i :: 0 <= i < |run| && at[i] == 0 ==> run[i].node == start;
  }

  /** Conditional c fires in at most one step. */
  ghost predicate FiresInOneStep(nodes: seq<Node>, edges: seq<Edge>, start: Id, ms: Moments, c: Id) {
    forall i, j ::
        0 <= i && 0 <= j && c in Active(nodes, edges, start, ms, i) && c in Active(nodes, edges, start, ms, j) ==>
            i == j
  }

  lemma OneStepFiresOnce(
    nodes: seq<Node>, edges: seq<Edge>, start: Id, ms: Moments, c: Id, active: seq<set<Id>>, run: seq<Firing>,
        at: seq<nat>)
    requires FiresInOneStep(nodes, edges, start, ms, c) && active == Steps(nodes, edges, start, ms, |active|)
    requires Sound(nodes, ms, active, run, at) && InOrder(run, at)
    ensures FiresOnce(run, c)
  {
    forall i | 0 <= i < |run| ensures run[i].node in Active(nodes, edges, start, ms, at[i]) {
      assert active[at[i]] == Active(nodes, edges, start, ms, at[i]);
    }
  }

  /**
   * Soundness of the label test for supersteps: under a routing in which the separating conditional
   * fires at most once, and where it lies on all paths to both, the two nodes are never both active.
   */
  lemma SeparatedNeverBothActive(nodes: seq<Node>, edges: seq<Edge>, start: Id, ms: Moments, c: Id, a: Id, b: Id,
      i: nat, j: nat)
    requires StartId(nodes) == Some(start) && Separates(nodes, edges, c, a, b)
    requires Dominates(nodes, edges, start, c, a) && Dominates(nodes, edges, start, c, b)
    requires FiresInOneStep(nodes, edges, start, ms, c)
    ensures !BothFire(nodes, edges, start, ms, a, b, i, j)
  {
    if BothFire(nodes, edges, start, ms, a, b, i, j) {
      var run, x, y := BothListed(nodes, edges, start, ms, c, a, b, i, j);
      SeparatedNeverBothFire(nodes, edges, start, run, c, x, y);
    }
  }

  /** A run that lists a firing of a and one of b, and c at most once. */
  lemma BothListed(
    nodes: seq<Node>, edges: seq<Edge>, start: Id, ms: Moments, c: Id, a: Id, b: Id, i: nat, j: nat)
    returns (run: seq<Firing>, x: nat, y: nat)
    requires BothFire(nodes, edges, start, ms, a, b, i, j) && FiresInOneStep(nodes, edges, start, ms, c)
    ensures Run(nodes, edges, start, run) && FiresOnce(run, c)
    ensures x < |run| && run[x].node == a && y < |run| && run[y].node == b
  {
    var at;
    run, at := StepsFormRun(nodes, edges, start, ms, i + j + 1);
    var active := Steps(nodes, edges, start, ms, i + j + 1);
    x := Position(active, run, at, i, a);
    y := Position(active, run, at, j, b);
    OneStepFiresOnce(nodes, edges, start, ms, c, active, run, at);
  }

  lemma Position(active: seq<set<Id>>, run: seq<Firing>, at: seq<nat>, k: nat, v: Id) returns (x: nat)
    requires Full(active, run, at) && k < |active| && v in active[k]
    ensures x < |run| && run[x].node == v
  {
    assert Listed(run, at, k, v);
    x :| 0 <= x < |run| && x < |at| && at[x] == k && run[x].node == v;
  }

  /** Where that holds of every routing, no routing makes both fire. */
  lemma SeparatedCannotBothFire(nodes: seq<Node>, edges: seq<Edge>, start: Id, c: Id, a: Id, b: Id)
    requires StartId(nodes) == Some(start) && Separates(nodes, edges, c, a, b)
    requires Dominates(nodes, edges, start, c, a) && Dominates(nodes, edges, start, c, b)
    requires forall ms :: FiresInOneStep(nodes, edges, start, ms, c)
    ensures !CanBothFire(nodes, edges, start, a, b)
  {
    if CanBothFire(nodes, edges, start, a, b) {
      var ms, i, j :| BothFire(nodes, edges, start, ms, a, b, i, j);
      SeparatedNeverBothActive(nodes, edges, start, ms, c, a, b, i, j);
    }
  }
}
