/**
 * What the branch labels prove about runs: when two nodes labelled as mutually
 * exclusive really never fire in the same run, and when they may.
 */
module Exclusivity {
  import opened Wrappers
  import opened Digraph
  import opened Workflows
  import opened BranchMarkers

  predicate MutuallyExclusive(a: set<Marker>, b: set<Marker>) {
    exists ma :: ma in a && exists mb :: mb in b && ma.0 == mb.0 && DisjointAt(a, b, ma.0)
  }

  predicate DisjointAt(a: set<Marker>, b: set<Marker>, cond: Id) {
    forall m :: m in a && m.0 == cond ==> m !in b
  }

  /** Conditional c has branches leading to a, branches leading to b, and none leading to both. */
  ghost predicate Separates(nodes: seq<Node>, edges: seq<Edge>, c: Id, a: Id, b: Id) {
    && (exists l :: Marked(nodes, edges, a, (c, l)))
    && (exists l :: Marked(nodes, edges, b, (c, l)))
    && (forall l :: !(Marked(nodes, edges, a, (c, l)) && Marked(nodes, edges, b, (c, l))))
  }

  ghost predicate Separable(nodes: seq<Node>, edges: seq<Edge>, a: Id, b: Id) {
    exists c :: Separates(nodes, edges, c, a, b)
  }

  /** Node labels hold exactly what the paths say; ComputeMarkers establishes this. */
  ghost predicate Exact(nodes: seq<Node>, edges: seq<Edge>, markers: Markers) {
    forall v, m :: v in markers ==> (m in markers[v] <==> Marked(nodes, edges, v, m))
  }

  /** The label test finds a separating conditional exactly when there is one. */
  lemma ExclusiveMeansSeparated(nodes: seq<Node>, edges: seq<Edge>, markers: Markers, a: Id, b: Id)
    requires Exact(nodes, edges, markers) && a in markers && b in markers
    ensures MutuallyExclusive(markers[a], markers[b]) <==> Separable(nodes, edges, a, b)
  {
    if MutuallyExclusive(markers[a], markers[b]) {
      var ma :| ma in markers[a]
        && exists mb :: mb in markers[b] && ma.0 == mb.0 && DisjointAt(markers[a], markers[b], ma.0);
      var mb :| mb in markers[b] && ma.0 == mb.0 && DisjointAt(markers[a], markers[b], ma.0);
      assert Marked(nodes, edges, a, (ma.0, ma.1)) && Marked(nodes, edges, b, (ma.0, mb.1));
      forall l ensures !(Marked(nodes, edges, a, (ma.0, l)) && Marked(nodes, edges, b, (ma.0, l))) {
        assert (ma.0, l) in markers[a] ==> (ma.0, l) !in markers[b];
      }
      assert Separates(nodes, edges, ma.0, a, b);
    }
    if Separable(nodes, edges, a, b) {
      var c :| Separates(nodes, edges, c, a, b);
      var la :| Marked(nodes, edges, a, (c, la));
      var lb :| Marked(nodes, edges, b, (c, lb));
      assert (c, la) in markers[a] && (c, lb) in markers[b];
      forall m | m in markers[a] && m.0 == c ensures m !in markers[b] {
        assert m == (c, m.1);
      }
      assert DisjointAt(markers[a], markers[b], c);
    }
  }

  /** Labels flow along Start-avoiding paths, so separated nodes lie on no common one. */
  lemma SeparatedNeverJoined(nodes: seq<Node>, edges: seq<Edge>, c: Id, a: Id, b: Id)
    requires Separates(nodes, edges, c, a, b)
    ensures !Reaches(FlowArcs(nodes, edges), a, b) && !Reaches(FlowArcs(nodes, edges), b, a)
  {
    if Reaches(FlowArcs(nodes, edges), a, b) {
      var l :| Marked(nodes, edges, a, (c, l));
      MarkedFlows(nodes, edges, a, b, (c, l));
    }
    if Reaches(FlowArcs(nodes, edges), b, a) {
      var l :| Marked(nodes, edges, b, (c, l));
      MarkedFlows(nodes, edges, b, a, (c, l));
    }
  }

  lemma MarkedFlows(nodes: seq<Node>, edges: seq<Edge>, u: Id, v: Id, m: Marker)
    requires Marked(nodes, edges, u, m) && Reaches(FlowArcs(nodes, edges), u, v)
    ensures Marked(nodes, edges, v, m)
  {
    var e, p :| MarkedVia(nodes, edges, u, m, e, p);
    var q :| Joins(FlowArcs(nodes, edges), u, v, q);
    JoinsAppend(FlowArcs(nodes, edges), e.target, u, v, p, q);
    assert MarkedVia(nodes, edges, v, m, e, p + q[1..]);
  }

  // ---- runs ----------------------------------------------------------------

  /** One execution of a node; a conditional records the branch its router chose. */
  datatype Firing = Firing(node: Id, choice: Option<string>)

  /** Edge e passes control on from firing f. */
  predicate Passes(nodes: seq<Node>, f: Firing, e: Edge) {
    && e.source == f.node
    && Executable(nodes, e.source) && Executable(nodes, e.target)
    && (Conditional(Lookup(nodes, e.source).value.kind) ==> f.choice.Some? && e.branch == f.choice)
  }

  ghost predicate Triggers(nodes: seq<Node>, edges: seq<Edge>, f: Firing, v: Id) {
    exists e :: e in edges && e.target == v && Passes(nodes, f, e)
  }

  /**
   * A run, with any amount of parallel fan-out: Start fires first, and every
   * later firing was triggered by an earlier one.
   */
  ghost predicate Run(nodes: seq<Node>, edges: seq<Edge>, start: Id, run: seq<Firing>) {
    && (|run| > 0 ==> run[0].node == start)
    && (forall i :: 0 < i < |run| ==> exists j :: 0 <= j < i && Triggers(nodes, edges, run[j], run[i].node))
  }

  /** Firings of a run, each triggering the next, from the last visit to Start on. */
  ghost predicate Chain(nodes: seq<Node>, edges: seq<Edge>, start: Id, run: seq<Firing>, ks: seq<nat>) {
    && |ks| > 0 && (forall t :: 0 <= t < |ks| ==> ks[t] < |run|)
    && run[ks[0]].node == start
    && (forall t :: 0 < t < |ks| ==> run[ks[t]].node != start)
    && (forall t, u :: 0 <= t < u < |ks| && u == t + 1 ==> Triggers(nodes, edges, run[ks[t]], run[ks[u]].node))
  }

  lemma {:induction false} ChainTo(nodes: seq<Node>, edges: seq<Edge>, start: Id, run: seq<Firing>, i: nat)
    returns (ks: seq<nat>)
    requires Run(nodes, edges, start, run) && i < |run|
    ensures Chain(nodes, edges, start, run, ks) && ks[|ks| - 1] == i
  {
    if run[i].node == start {
      ks := [i];
    } else {
      var j :| 0 <= j < i && Triggers(nodes, edges, run[j], run[i].node);
      var js := ChainTo(nodes, edges, start, run, j);
      ks := js + [i];
      ChainNext(nodes, edges, start, run, js, i);
    }
  }

  lemma ChainNext(nodes: seq<Node>, edges: seq<Edge>, start: Id, run: seq<Firing>, js: seq<nat>, i: nat)
    requires Chain(nodes, edges, start, run, js) && i < |run| && run[i].node != start
    requires Triggers(nodes, edges, run[js[|js| - 1]], run[i].node)
    ensures Chain(nodes, edges, start, run, js + [i])
  {
    var ks := js + [i];
    forall t, u | 0 <= t < u < |ks| && u == t + 1 ensures Triggers(nodes, edges, run[ks[t]], run[ks[u]].node) {
      assert u < |js| ==> Triggers(nodes, edges, run[js[t]], run[js[u]].node);
    }
  }

  ghost function Visited(run: seq<Firing>, ks: seq<nat>): (p: seq<Id>)
    requires forall t :: 0 <= t < |ks| ==> ks[t] < |run|
    ensures |p| == |ks| && forall t :: 0 <= t < |ks| ==> p[t] == run[ks[t]].node
  {
    seq(|ks|, t requires 0 <= t < |ks| => run[ks[t]].node)
  }

  /** The nodes a chain visits form a path, and past Start a label-carrying one. */
  lemma ChainIsPath(nodes: seq<Node>, edges: seq<Edge>, start: Id, run: seq<Firing>, ks: seq<nat>)
    requires Chain(nodes, edges, start, run, ks) && StartId(nodes) == Some(start)
    ensures Path(ExecArcs(nodes, edges), Visited(run, ks))
    ensures Path(FlowArcs(nodes, edges), Visited(run, ks))
  {
    var p := Visited(run, ks);
    forall t | 0 <= t < |p| - 1
      ensures (p[t], p[t + 1]) in ExecArcs(nodes, edges) && (p[t], p[t + 1]) in FlowArcs(nodes, edges)
    {
      assert Triggers(nodes, edges, run[ks[t]], run[ks[t + 1]].node);
      var e :| e in edges && e.target == p[t + 1] && Passes(nodes, run[ks[t]], e);
      assert (e.source, e.target) in ExecArcs(nodes, edges);
    }
  }

  /** Every path from Start to v over executable nodes passes c. */
  ghost predicate Dominates(nodes: seq<Node>, edges: seq<Edge>, start: Id, c: Id, v: Id) {
    forall p :: Joins(ExecArcs(nodes, edges), start, v, p) ==> c in p
  }

  ghost predicate FiresOnce(run: seq<Firing>, c: Id) {
    forall i, j :: 0 <= i < j < |run| ==> !(run[i].node == c && run[j].node == c)
  }

  /** The branch a conditional chose in the middle of a chain labels the chain's last node. */
  lemma ChainLabels(nodes: seq<Node>, edges: seq<Edge>, start: Id, run: seq<Firing>, ks: seq<nat>, t: nat)
    requires Chain(nodes, edges, start, run, ks) && StartId(nodes) == Some(start) && t + 1 < |ks|
    requires IsKnown(nodes, run[ks[t]].node) && Conditional(Lookup(nodes, run[ks[t]].node).value.kind)
    ensures run[ks[t]].choice.Some?
    ensures Marked(nodes, edges, run[ks[|ks| - 1]].node, (run[ks[t]].node, run[ks[t]].choice.value))
  {
    var p := Visited(run, ks);
    var f, v := run[ks[t]], run[ks[|ks| - 1]].node;
    ChainIsPath(nodes, edges, start, run, ks);
    PathSlice(FlowArcs(nodes, edges), p, t + 1, |p|);
    assert Triggers(nodes, edges, run[ks[t]], run[ks[t + 1]].node);
    var e :| e in edges && e.target == p[t + 1] && Passes(nodes, f, e);
    assert Joins(FlowArcs(nodes, edges), e.target, v, p[t + 1..|p|]);
    assert MarkedVia(nodes, edges, v, (f.node, f.choice.value), e, p[t + 1..|p|]);
  }

  /** A chain ending at a node dominated by c passes c, and goes on from there without Start. */
  lemma ChainPasses(nodes: seq<Node>, edges: seq<Edge>, start: Id, run: seq<Firing>, ks: seq<nat>, c: Id)
    returns (t: nat)
    requires Chain(nodes, edges, start, run, ks) && StartId(nodes) == Some(start)
    requires Dominates(nodes, edges, start, c, run[ks[|ks| - 1]].node)
    ensures t < |ks| && run[ks[t]].node == c
    ensures Reaches(FlowArcs(nodes, edges), c, run[ks[|ks| - 1]].node)
  {
    var p := Visited(run, ks);
    var v := run[ks[|ks| - 1]].node;
    ChainIsPath(nodes, edges, start, run, ks);
    assert Joins(ExecArcs(nodes, edges), start, v, p);
    t :| 0 <= t < |p| && p[t] == c;
    PathSlice(FlowArcs(nodes, edges), p, t, |p|);
    assert Joins(FlowArcs(nodes, edges), c, v, p[t..|p|]);
  }

  /**
   * A firing of a node dominated by conditional c goes back to a firing of c;
   * unless that is the firing itself, the branch c chose then labels the node.
   */
  lemma FiringLabelled(nodes: seq<Node>, edges: seq<Edge>, start: Id, run: seq<Firing>, c: Id, i: nat)
    returns (k: nat)
    requires Run(nodes, edges, start, run) && StartId(nodes) == Some(start) && i < |run|
    requires Dominates(nodes, edges, start, c, run[i].node)
    requires IsKnown(nodes, c) && Conditional(Lookup(nodes, c).value.kind)
    ensures k < |run| && run[k].node == c
    ensures Reaches(FlowArcs(nodes, edges), c, run[i].node)
    ensures run[i].node != c ==>
              run[k].choice.Some? && Marked(nodes, edges, run[i].node, (c, run[k].choice.value))
  {
    var ks := ChainTo(nodes, edges, start, run, i);
    var t := ChainPasses(nodes, edges, start, run, ks, c);
    k := ks[t];
    if run[i].node != c {
      ChainLabels(nodes, edges, start, run, ks, t);
    }
  }

  /**
   * Soundness: where the separating conditional lies on every path from Start
   * to either node and fires at most once, the two nodes never both fire.
   */
  lemma SeparatedNeverBothFire(nodes: seq<Node>, edges: seq<Edge>, start: Id, run: seq<Firing>, c: Id, i: nat, j: nat)
    requires Run(nodes, edges, start, run) && StartId(nodes) == Some(start) && i < |run| && j < |run|
    requires Dominates(nodes, edges, start, c, run[i].node) && Dominates(nodes, edges, start, c, run[j].node)
    requires FiresOnce(run, c)
    ensures !Separates(nodes, edges, c, run[i].node, run[j].node)
  {
    var a, b := run[i].node, run[j].node;
    if Separates(nodes, edges, c, a, b) {
      var l :| Marked(nodes, edges, a, (c, l));
      var e, p :| MarkedVia(nodes, edges, a, (c, l), e, p);
      SeparatedNeverJoined(nodes, edges, c, a, b);
      var k := FiringLabelled(nodes, edges, start, run, c, i);
      var m := FiringLabelled(nodes, edges, start, run, c, j);
      assert false;
    }
  }

  ghost predicate Fires(run: seq<Firing>, v: Id) {
    exists i :: 0 <= i < |run| && run[i].node == v
  }

  /** c lies on every path from Start to a and to b, and fires at most once. */
  ghost predicate Controls(nodes: seq<Node>, edges: seq<Edge>, start: Id, run: seq<Firing>, c: Id, a: Id, b: Id) {
    FiresOnce(run, c) && Dominates(nodes, edges, start, c, a) && Dominates(nodes, edges, start, c, b)
  }

  /** One separating conditional that controls both nodes is enough. */
  lemma SeparablePairNeverBothFires(nodes: seq<Node>, edges: seq<Edge>, start: Id, run: seq<Firing>, a: Id, b: Id)
    requires Run(nodes, edges, start, run) && StartId(nodes) == Some(start)
    requires exists c :: Separates(nodes, edges, c, a, b) && Controls(nodes, edges, start, run, c, a, b)
    ensures !(Fires(run, a) && Fires(run, b))
  {
    if Fires(run, a) && Fires(run, b) {
      var c :| Separates(nodes, edges, c, a, b) && Controls(nodes, edges, start, run, c, a, b);
      var i :| 0 <= i < |run| && run[i].node == a;
      var j :| 0 <= j < |run| && run[j].node == b;
      SeparatedNeverBothFire(nodes, edges, start, run, c, i, j);
    }
  }
}
