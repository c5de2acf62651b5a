/**
 * The dataflow pass that labels every node with the conditional branches it
 * may have been reached through, and what the labels mean.
 */
module BranchMarkers {
  import opened Wrappers
  import opened Digraph
  import opened Workflows

  /** (conditional node, branch label) */
  type Marker = (Id, string)
  type Markers = map<Id, set<Marker>>

  /** Arcs a marker may travel along: it never enters the Start node. */
  ghost function FlowArcs(nodes: seq<Node>, edges: seq<Edge>): Arcs {
    set e | e in edges && IsKnown(nodes, e.source) && StartId(nodes) != Some(e.target)
      :: (e.source, e.target)
  }

  /** Edge e leaves conditional m.0 with label m.1. */
  predicate Originates(nodes: seq<Node>, e: Edge, m: Marker) {
    && IsKnown(nodes, e.source)
    && Conditional(Lookup(nodes, e.source).value.kind)
    && e.source == m.0
    && e.branch == Some(m.1)
  }

  ghost predicate MarkedVia(nodes: seq<Node>, edges: seq<Edge>, v: Id, m: Marker, e: Edge, p: seq<Id>) {
    && e in edges
    && Originates(nodes, e, m)
    && StartId(nodes) != Some(e.target)
    && Joins(FlowArcs(nodes, edges), e.target, v, p)
  }

  /** Some m.1-labelled edge leaves m.0 and continues to v without entering Start. */
  ghost predicate Marked(nodes: seq<Node>, edges: seq<Edge>, v: Id, m: Marker) {
    exists e, p :: MarkedVia(nodes, edges, v, m, e, p)
  }

  ghost predicate WellAddressed(nodes: seq<Node>, edges: seq<Edge>) {
    DistinctIds(nodes) && forall e :: e in edges ==> e.target in Ids(nodes)
  }

  /** What edge e hands to its target under the given labels. */
  ghost predicate Hands(nodes: seq<Node>, e: Edge, markers: Markers, m: Marker) {
    && IsKnown(nodes, e.source)
    && ((e.source in markers && m in markers[e.source]) || Originates(nodes, e, m))
  }

  /** Nothing an edge hands over is missing at its target. */
  ghost predicate Settled(nodes: seq<Node>, edges: seq<Edge>, markers: Markers) {
    forall e, m :: e in edges && StartId(nodes) != Some(e.target) && Hands(nodes, e, markers, m)
      ==> e.target in markers && m in markers[e.target]
  }

  ghost predicate Sound(nodes: seq<Node>, edges: seq<Edge>, markers: Markers) {
    forall v, m :: v in markers && m in markers[v] ==> Marked(nodes, edges, v, m)
  }

  /** Every marker that has at most k nodes to pass has arrived. */
  ghost predicate CoveredTo(nodes: seq<Node>, edges: seq<Edge>, markers: Markers, k: nat) {
    forall v, m, e, p :: MarkedVia(nodes, edges, v, m, e, p) && |p| <= k
      ==> v in markers && m in markers[v]
  }

  ghost predicate Complete(nodes: seq<Node>, edges: seq<Edge>, markers: Markers) {
    forall v, m :: Marked(nodes, edges, v, m) ==> v in markers && m in markers[v]
  }

  // ---- the algorithm -------------------------------------------------------

  /** Edges grouped by target, in order of first appearance. */
  method GroupByTarget(edges: seq<Edge>) returns (targets: seq<Id>, incoming: map<Id, seq<Edge>>)
    ensures forall t :: t in targets <==> t in incoming
    ensures forall t :: t in incoming <==> exists e :: e in edges && e.target == t
    ensures forall t, e :: t in incoming ==> (e in incoming[t] <==> e in edges && e.target == t)
  {
    targets, incoming := [], map[];
    for i := 0 to |edges|
      invariant forall t :: t in targets <==> t in incoming
      invariant forall t :: t in incoming <==> exists e :: e in edges[..i] && e.target == t
      invariant forall t, e :: t in incoming ==> (e in incoming[t] <==> e in edges[..i] && e.target == t)
    {
      var e := edges[i];
      assert edges[..i + 1] == edges[..i] + [e];
      if e.target !in incoming {
        targets := targets + [e.target];
        incoming := incoming[e.target := []];
      }
      incoming := incoming[e.target := incoming[e.target] + [e]];
    }
    assert edges[..|edges|] == edges;
  }

  /** Union of what the given edges hand over. */
  method GatherMarks(nodes: seq<Node>, group: seq<Edge>, markers: Markers) returns (marks: set<Marker>)
    ensures forall m :: m in marks <==> exists e :: e in group && Hands(nodes, e, markers, m)
  {
    marks := {};
    for i := 0 to |group|
      invariant forall m :: m in marks <==> exists e :: e in group[..i] && Hands(nodes, e, markers, m)
    {
      var e := group[i];
      assert group[..i + 1] == group[..i] + [e];
      var source := Lookup(nodes, e.source);
      ghost var earlier := marks;
      if source.Some? {
        marks := marks + (if e.source in markers then markers[e.source] else {});
        if Conditional(source.value.kind) && e.branch.Some? {
          marks := marks + {(e.source, e.branch.value)};
        }
      }
      assert forall m :: m in marks <==> m in earlier || Hands(nodes, e, markers, m);
    }
    assert group[..|group|] == group;
  }

  ghost predicate Grows(before: Markers, after: Markers) {
    before.Keys == after.Keys && forall v :: v in before ==> before[v] <= after[v]
  }

  lemma HandsMono(nodes: seq<Node>, e: Edge, before: Markers, after: Markers, m: Marker)
    requires Grows(before, after) && Hands(nodes, e, before, m)
    ensures Hands(nodes, e, after, m)
  {
    if e.source in before && m in before[e.source] {
      assert before[e.source] <= after[e.source];
    }
  }

  /** What an edge hands over from sound labels is itself sound at the target. */
  lemma HandsSound(nodes: seq<Node>, edges: seq<Edge>, markers: Markers, e: Edge, m: Marker)
    requires Sound(nodes, edges, markers) && e in edges && Hands(nodes, e, markers, m)
    requires StartId(nodes) != Some(e.target)
    ensures Marked(nodes, edges, e.target, m)
  {
    var arcs := FlowArcs(nodes, edges);
    if e.source in markers && m in markers[e.source] {
      var e0, p :| MarkedVia(nodes, edges, e.source, m, e0, p);
      assert (e.source, e.target) in arcs;
      JoinsAppend(arcs, e0.target, e.source, e.target, p, [e.source, e.target]);
      assert MarkedVia(nodes, edges, e.target, m, e0, p + [e.source, e.target][1..]);
    } else {
      assert MarkedVia(nodes, edges, e.target, m, e, [e.target]);
    }
  }

  /** What the edges into t hand over is sound, and nothing handed over before is missing. */
  lemma GatheredAt(nodes: seq<Node>, edges: seq<Edge>, t: Id, into: seq<Edge>, before: Markers, markers: Markers,
      marks: set<Marker>)
    requires forall e :: e in into <==> e in edges && e.target == t
    requires forall m :: m in marks <==> exists e :: e in into && Hands(nodes, e, markers, m)
    requires Grows(before, markers) && Sound(nodes, edges, markers) && StartId(nodes) != Some(t)
    ensures forall m :: m in marks ==> Marked(nodes, edges, t, m)
    ensures forall e, m :: e in edges && e.target == t && Hands(nodes, e, before, m) ==> m in marks
  {
    forall m | m in marks ensures Marked(nodes, edges, t, m) {
      var e :| e in into && Hands(nodes, e, markers, m);
      HandsSound(nodes, edges, markers, e, m);
    }
    forall e, m | e in edges && e.target == t && Hands(nodes, e, before, m) ensures m in marks {
      HandsMono(nodes, e, before, markers, m);
      assert e in into;
    }
  }

  /** Everything that before hands over to the given targets is there. */
  ghost predicate Delivered(nodes: seq<Node>, edges: seq<Edge>, before: Markers, targets: seq<Id>, markers: Markers) {
    forall e, m ::
        (e in edges && e.target in targets && StartId(nodes) != Some(e.target) && Hands(nodes, e, before, m)) ==>
      e.target in markers && m in markers[e.target]
  }

  lemma DeliveredMore(nodes: seq<Node>, edges: seq<Edge>, before: Markers, targets: seq<Id>, t: Id, markers: Markers,
      after: Markers)
    requires Delivered(nodes, edges, before, targets, markers) && Grows(markers, after)
    requires forall e, m :: e in edges && e.target == t && StartId(nodes) != Some(t) && Hands(nodes, e, before, m) ==>
               t in after && m in after[t]
    ensures Delivered(nodes, edges, before, targets + [t], after)
  {
    forall e, m | e in edges && e.target in targets + [t] && StartId(nodes) != Some(e.target)
        && Hands(nodes, e, before, m)
      ensures e.target in after && m in after[e.target]
    {
      if e.target != t {
        assert e.target in targets;
      }
    }
  }

  /** One target's labels recomputed; before is what the sweep began with. */
  method Visit(nodes: seq<Node>, ghost edges: seq<Edge>, t: Id, into: seq<Edge>, ghost before: Markers,
      markers: Markers)
    returns (after: Markers, grew: bool)
    requires forall e :: e in into <==> e in edges && e.target == t
    requires t in markers && Grows(before, markers) && Sound(nodes, edges, markers) && StartId(nodes) != Some(t)
    ensures Grows(markers, after) && Sound(nodes, edges, after)
    ensures forall e, m :: e in edges && e.target == t && Hands(nodes, e, before, m) ==> m in after[t]
    ensures !grew ==> after == markers
    ensures grew ==> !Complete(nodes, edges, before)
  {
    var marks := GatherMarks(nodes, into, markers);
    GatheredAt(nodes, edges, t, into, before, markers, marks);
    grew := !(marks <= markers[t]);
    if grew {
      ghost var extra :| extra in marks && extra !in markers[t];
      assert Marked(nodes, edges, t, extra) && extra !in before[t];
      after := markers[t := markers[t] + marks];
    } else {
      after := markers;
    }
  }

  lemma GrowsTrans(a: Markers, b: Markers, c: Markers)
    requires Grows(a, b) && Grows(b, c)
    ensures Grows(a, c)
  {
  }

  /** One sweep over all targets, updating labels as it goes. */
  method Sweep(nodes: seq<Node>, edges: seq<Edge>, targets: seq<Id>, incoming: map<Id, seq<Edge>>, before: Markers)
    returns (markers: Markers, changed: bool)
    requires forall t :: t in targets <==> exists e :: e in edges && e.target == t
    requires forall t :: t in targets ==> t in incoming && t in before
    requires forall t, e :: t in targets ==> (e in incoming[t] <==> e in edges && e.target == t)
    requires Sound(nodes, edges, before)
    ensures Grows(before, markers) && Sound(nodes, edges, markers)
    ensures forall e, m :: e in edges && StartId(nodes) != Some(e.target) && Hands(nodes, e, before, m)
              ==> m in markers[e.target]
    ensures !changed ==> markers == before
    ensures changed ==> !Complete(nodes, edges, before)
  {
    var startId := StartId(nodes);
    markers, changed := before, false;
    for i := 0 to |targets|
      invariant Grows(before, markers) && Sound(nodes, edges, markers)
      invariant Delivered(nodes, edges, before, targets[..i], markers)
      invariant !changed ==> markers == before
      invariant changed ==> !Complete(nodes, edges, before)
    {
      var t := targets[i];
      assert targets[..i + 1] == targets[..i] + [t];
      ghost var was := markers;
      if startId != Some(t) {
        var grew;
        markers, grew := Visit(nodes, edges, t, incoming[t], before, markers);
        changed := changed || grew;
        GrowsTrans(before, was, markers);
      }
      DeliveredMore(nodes, edges, before, targets[..i], t, was, markers);
    }
    assert targets[..|targets|] == targets;
  }

  /** A sweep carries every marker one node further. */
  lemma SweepExtendsCover(nodes: seq<Node>, edges: seq<Edge>, before: Markers, after: Markers, k: nat)
    requires WellAddressed(nodes, edges) && before.Keys == Ids(nodes)
    requires Grows(before, after) && CoveredTo(nodes, edges, before, k)
    requires forall e, m :: e in edges && StartId(nodes) != Some(e.target) && Hands(nodes, e, before, m)
              ==> m in after[e.target]
    ensures CoveredTo(nodes, edges, after, k + 1)
  {
    var arcs := FlowArcs(nodes, edges);
    forall v, m, e, p | MarkedVia(nodes, edges, v, m, e, p) && |p| <= k + 1
      ensures v in after && m in after[v]
    {
      if |p| == 1 {
        assert v == e.target && Hands(nodes, e, before, m);
      } else {
        var q := p[..|p| - 1];
        var u := q[|q| - 1];
        PathSlice(arcs, p, 0, |p| - 1);
        assert Joins(arcs, e.target, u, q);
        assert MarkedVia(nodes, edges, u, m, e, q);
        assert (p[|p| - 2], p[|p| - 2 + 1]) in arcs;
        var last :| last in edges && IsKnown(nodes, last.source) && StartId(nodes) != Some(last.target)
          && last.source == u && last.target == v;
        assert Hands(nodes, last, before, m);
      }
    }
  }

  /** Markers that need at most as many steps as there are nodes are all markers. */
  lemma CoverSuffices(nodes: seq<Node>, edges: seq<Edge>, markers: Markers)
    requires WellAddressed(nodes, edges) && CoveredTo(nodes, edges, markers, |nodes|)
    ensures Complete(nodes, edges, markers)
  {
    var arcs := FlowArcs(nodes, edges);
    IdsCard(nodes);
    assert Within(arcs, Ids(nodes));
    forall v, m | Marked(nodes, edges, v, m) ensures v in markers && m in markers[v] {
      var e, p :| MarkedVia(nodes, edges, v, m, e, p);
      var q := ShortPath(arcs, Ids(nodes), e.target, v, p);
      assert MarkedVia(nodes, edges, v, m, e, q);
    }
  }

  /** Labels a quiet sweep leaves alone cover paths of every length. */
  lemma {:induction false} SettledCovers(nodes: seq<Node>, edges: seq<Edge>, markers: Markers, k: nat)
    requires WellAddressed(nodes, edges) && markers.Keys == Ids(nodes) && Settled(nodes, edges, markers)
    ensures CoveredTo(nodes, edges, markers, k)
  {
    if k > 0 {
      SettledCovers(nodes, edges, markers, k - 1);
      SweepExtendsCover(nodes, edges, markers, markers, k - 1);
    }
  }

  /**
   * Branch labels by repeated sweeps. The cap on the number of sweeps never
   * cuts the computation short: on exit nothing is left to hand over, and the
   * labels of a node are exactly the branches some Start-avoiding path to it
   * began with.
   */
  method ComputeMarkers(nodes: seq<Node>, edges: seq<Edge>) returns (markers: Markers)
    requires WellAddressed(nodes, edges)
    ensures markers.Keys == Ids(nodes)
    ensures Settled(nodes, edges, markers)
    ensures forall v, m :: v in markers ==> (m in markers[v] <==> Marked(nodes, edges, v, m))
  {
    markers := map id | id in Ids(nodes) :: {};
    var targets, incoming := GroupByTarget(edges);
    var changed, iterations := true, 0;
    while changed && iterations <= |nodes|
      invariant 0 <= iterations <= |nodes| + 1
      invariant markers.Keys == Ids(nodes)
      invariant Sound(nodes, edges, markers)
      invariant CoveredTo(nodes, edges, markers, iterations)
      invariant !changed ==> Settled(nodes, edges, markers)
      invariant changed ==> iterations <= |nodes|
      decreases |nodes| + 1 - iterations
    {
      ghost var before := markers;
      markers, changed := Sweep(nodes, edges, targets, incoming, markers);
      SweepExtendsCover(nodes, edges, before, markers, iterations);
      if changed && iterations == |nodes| {
        CoverSuffices(nodes, edges, before);
        assert false;
      }
      iterations := iterations + 1;
    }
    SettledCovers(nodes, edges, markers, |nodes|);
    CoverSuffices(nodes, edges, markers);
  }
}
