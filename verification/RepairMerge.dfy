/** Merging extra Starts and adding missing endpoints keep a draft sound. */
module RepairMerge {
  import opened Wrappers
  import opened Digraph
  import opened Workflows
  import opened Validation
  import opened Repair

  ghost predicate Known(w: Workflow) {
    DistinctIds(w.nodes) && forall e :: e in w.edges ==> e.source in Ids(w.nodes) && e.target in Ids(w.nodes)
  }

  /** No executable node leads into a Start. */
  ghost predicate StartsClosed(w: Workflow) {
    forall e :: e in w.edges && KindOf(w.nodes, e.target).Start? ==> !Executable(w.nodes, e.source)
  }

  /** No edge leaves an End. */
  ghost predicate EndsClosed(w: Workflow) {
    forall e :: e in w.edges ==> !KindOf(w.nodes, e.source).End?
  }

  ghost predicate Sane(w: Workflow) {
    Known(w) && StartsClosed(w) && EndsClosed(w) && Acyclic(ExecArcs(w.nodes, w.edges))
  }

  /** Drafts the repair promises to mend. */
  ghost predicate Repairable(w: Workflow) {
    w.nodes != [] && Sane(w) && |EndIds(w.nodes)| <= 1
  }

  /** The ids a repair may have to generate are new to the merged draft. */
  ghost predicate FreshNames(w: Workflow, startId: Id, endId: Id) {
    var ns := MergeStarts(w).nodes;
    && (StartIds(ns) == [] ==> startId !in Ids(ns))
    && (EndIds(ns) == [] ==> endId !in Ids(ns))
    && (StartIds(ns) == [] && EndIds(ns) == [] ==> startId != endId)
  }

  // ---- lookups -------------------------------------------------------------

  lemma LookupAgrees(ns: seq<Node>, ms: seq<Node>, v: Id)
    requires DistinctIds(ns) && DistinctIds(ms)
    requires forall n: Node :: n.id == v ==> (n in ns <==> n in ms)
    ensures Lookup(ns, v) == Lookup(ms, v)
  {
    if v in Ids(ns) || v in Ids(ms) {
      var n: Node :| (n in ns || n in ms) && n.id == v;
      LookupMember(ns, n);
      LookupMember(ms, n);
    }
  }

  lemma {:induction false} EndpointIdsDistinct(nodes: seq<Node>)
    requires DistinctIds(nodes)
    ensures Distinct(StartIds(nodes)) && Distinct(EndIds(nodes))
  {
    if nodes != [] {
      var k := |nodes| - 1;
      EndpointIdsDistinct(nodes[..k]);
      assert nodes[k].id !in Ids(nodes[..k]);
      forall id | id in StartIds(nodes[..k]) || id in EndIds(nodes[..k]) ensures id in Ids(nodes[..k]) {
      }
    }
  }

  lemma OnlyOne(p: seq<Id>, a: Id)
    requires Distinct(p) && a in p && forall x :: x in p ==> x == a
    ensures p == [a]
  {
    assert forall i :: 0 <= i < |p| ==> p[i] in p;
    DistinctBound(p, {a});
  }

  lemma NoMore(p: seq<Id>, q: seq<Id>)
    requires Distinct(p) && |q| <= 1 && forall x :: x in p ==> x in q
    ensures |p| <= 1
  {
    assert forall i :: 0 <= i < |p| ==> p[i] in p;
    if q == [] {
      DistinctBound(p, {});
    } else {
      assert forall x :: x in q ==> x == q[0];
      DistinctBound(p, {q[0]});
    }
  }

  lemma StartKind(nodes: seq<Node>, id: Id)
    requires DistinctIds(nodes)
    ensures id in StartIds(nodes) <==> KindOf(nodes, id).Start?
    ensures id in EndIds(nodes) <==> KindOf(nodes, id).End?
  {
    if id in StartIds(nodes) {
      var n :| n in nodes && n.kind.Start? && n.id == id;
      LookupMember(nodes, n);
    }
    if id in EndIds(nodes) {
      var n :| n in nodes && n.kind.End? && n.id == id;
      LookupMember(nodes, n);
    }
  }

  // ---- absorbing one extra Start -------------------------------------------

  /** Redirected arcs are old arcs, except that those out of extra now leave kept. */
  lemma AbsorbArc(w: Workflow, kept: Id, extra: Id, u: Id, v: Id)
    requires Known(w) && kept != extra && Executable(w.nodes, kept) && Executable(w.nodes, extra)
    requires (u, v) in ExecArcs(Absorb(w, kept, extra).nodes, Absorb(w, kept, extra).edges)
    ensures v != extra && u != extra
    ensures (u, v) in ExecArcs(w.nodes, w.edges) || (u == kept && (extra, v) in ExecArcs(w.nodes, w.edges))
  {
    var m := Absorb(w, kept, extra);
    var f :| f in m.edges && Executable(m.nodes, f.source) && Executable(m.nodes, f.target) && u == f.source
        && v == f.target;
    var e := RedirectFrom(w.edges, extra, kept, f);
    LookupAgrees(w.nodes, m.nodes, v);
    if e.source != extra {
      LookupAgrees(w.nodes, m.nodes, u);
    }
  }

  lemma AbsorbAcyclic(w: Workflow, kept: Id, extra: Id)
    requires Sane(w) && kept != extra && KindOf(w.nodes, kept).Start? && KindOf(w.nodes, extra).Start?
    ensures Acyclic(ExecArcs(Absorb(w, kept, extra).nodes, Absorb(w, kept, extra).edges))
  {
    var m := Absorb(w, kept, extra);
    var was, now := ExecArcs(w.nodes, w.edges), ExecArcs(m.nodes, m.edges);
    forall a | a in now ensures a.1 != kept && (a.0 == kept || a in was) {
      AbsorbArcRooted(w, kept, extra, a);
    }
    AcyclicReroot(was, now, kept);
  }

  lemma AbsorbArcRooted(w: Workflow, kept: Id, extra: Id, a: (Id, Id))
    requires Known(w) && StartsClosed(w) && kept != extra && KindOf(w.nodes, kept).Start?
              && KindOf(w.nodes, extra).Start?
    requires a in ExecArcs(Absorb(w, kept, extra).nodes, Absorb(w, kept, extra).edges)
    ensures a.1 != kept && (a.0 == kept || a in ExecArcs(w.nodes, w.edges))
  {
    AbsorbArc(w, kept, extra, a.0, a.1);
    StartHasNoArc(w, a.0, kept);
    StartHasNoArc(w, extra, kept);
  }

  lemma StartHasNoArc(w: Workflow, u: Id, v: Id)
    requires StartsClosed(w) && KindOf(w.nodes, v).Start?
    ensures (u, v) !in ExecArcs(w.nodes, w.edges)
  {
  }

  lemma AbsorbLookup(w: Workflow, kept: Id, extra: Id)
    requires DistinctIds(w.nodes)
    ensures DistinctIds(Absorb(w, kept, extra).nodes)
    ensures forall v :: v != extra ==> Lookup(Absorb(w, kept, extra).nodes, v) == Lookup(w.nodes, v)
    ensures Ids(Absorb(w, kept, extra).nodes) == Ids(w.nodes) - {extra}
  {
    var m := Absorb(w, kept, extra);
    forall v | v != extra ensures Lookup(m.nodes, v) == Lookup(w.nodes, v) {
      LookupAgrees(m.nodes, w.nodes, v);
    }
  }

  lemma AbsorbEdge(w: Workflow, kept: Id, extra: Id, f: Edge)
    requires Known(w) && StartsClosed(w) && EndsClosed(w)
    requires kept != extra && KindOf(w.nodes, kept).Start? && KindOf(w.nodes, extra).Start?
    requires f in Redirect(w.edges, extra, kept)
    ensures f.source != extra && f.target != extra && f.source in Ids(w.nodes) && f.target in Ids(w.nodes)
    ensures !KindOf(w.nodes, f.source).End?
    ensures KindOf(w.nodes, f.target).Start? ==> !Executable(w.nodes, f.source)
  {
    var e := RedirectFrom(w.edges, extra, kept, f);
    assert e.source in Ids(w.nodes) && e.target in Ids(w.nodes) && !KindOf(w.nodes, e.source).End?;
    assert KindOf(w.nodes, e.target).Start? ==> !Executable(w.nodes, e.source);
  }

  lemma AbsorbSane(w: Workflow, kept: Id, extra: Id)
    requires Sane(w) && kept != extra && KindOf(w.nodes, kept).Start? && KindOf(w.nodes, extra).Start?
    ensures Sane(Absorb(w, kept, extra))
  {
    AbsorbLookup(w, kept, extra);
    var m := Absorb(w, kept, extra);
    forall f | f in m.edges
      ensures f.source in Ids(m.nodes) && f.target in Ids(m.nodes) && !KindOf(m.nodes, f.source).End?
      ensures KindOf(m.nodes, f.target).Start? ==> !Executable(m.nodes, f.source)
    {
      AbsorbEdge(w, kept, extra, f);
    }
    AbsorbAcyclic(w, kept, extra);
  }

  lemma {:induction false} AbsorbAllLookup(w: Workflow, kept: Id, extras: seq<Id>)
    requires DistinctIds(w.nodes)
    ensures DistinctIds(AbsorbAll(w, kept, extras).nodes)
    ensures forall v :: v !in extras ==> Lookup(AbsorbAll(w, kept, extras).nodes, v) == Lookup(w.nodes, v)
    ensures forall n :: n in AbsorbAll(w, kept, extras).nodes <==> n in w.nodes && n.id !in extras
  {
    if extras != [] {
      var k := |extras| - 1;
      assert extras == extras[..k] + [extras[k]];
      AbsorbAllLookup(w, kept, extras[..k]);
      AbsorbLookup(AbsorbAll(w, kept, extras[..k]), kept, extras[k]);
    }
  }

  lemma {:induction false} AbsorbAllSane(w: Workflow, kept: Id, extras: seq<Id>)
    requires Sane(w) && KindOf(w.nodes, kept).Start? && kept !in extras && Distinct(extras)
    requires forall id :: id in extras ==> KindOf(w.nodes, id).Start?
    ensures Sane(AbsorbAll(w, kept, extras))
  {
    if extras != [] {
      var k := |extras| - 1;
      assert extras == extras[..k] + [extras[k]];
      AbsorbAllSane(w, kept, extras[..k]);
      AbsorbAllLookup(w, kept, extras[..k]);
      assert extras[k] !in extras[..k];
      AbsorbNext(w, AbsorbAll(w, kept, extras[..k]), kept, extras[k]);
    }
  }

  lemma AbsorbNext(w: Workflow, m: Workflow, kept: Id, extra: Id)
    requires Sane(m) && kept != extra && KindOf(w.nodes, kept).Start? && KindOf(w.nodes, extra).Start?
    requires Lookup(m.nodes, kept) == Lookup(w.nodes, kept) && Lookup(m.nodes, extra) == Lookup(w.nodes, extra)
    ensures Sane(Absorb(m, kept, extra))
  {
    AbsorbSane(m, kept, extra);
  }

  // ---- the two first stages ------------------------------------------------

  lemma SetVariablesLookup(nodes: seq<Node>, id: Id, vars: seq<Variable>, v: Id)
    requires DistinctIds(nodes)
    ensures DistinctIds(SetVariables(nodes, id, vars)) && Ids(SetVariables(nodes, id, vars)) == Ids(nodes)
    ensures Lookup(SetVariables(nodes, id, vars), v)
         == if v == id && v in Ids(nodes) then Some(Node(id, Start(vars))) else Lookup(nodes, v)
  {
    var r := SetVariables(nodes, id, vars);
    forall x ensures x in Ids(nodes) <==> x in Ids(r) {
      if x in Ids(nodes) {
        var i :| 0 <= i < |nodes| && nodes[i].id == x;
        assert r[i] in r && r[i].id == x;
      }
      if x in Ids(r) {
        var i :| 0 <= i < |r| && r[i].id == x;
        assert nodes[i] in nodes && nodes[i].id == x;
      }
    }
    if v in Ids(nodes) {
      var i :| 0 <= i < |nodes| && nodes[i].id == v;
      LookupMember(nodes, nodes[i]);
      LookupMember(r, r[i]);
    }
  }

  /** Same edges, nodes that look alike everywhere that matters. */
  lemma SaneTransfers(w: Workflow, m: Workflow)
    requires Sane(w) && m.edges == w.edges && DistinctIds(m.nodes) && Ids(w.nodes) <= Ids(m.nodes)
    requires forall v :: v in Ids(w.nodes) ==> VisualOnly(KindOf(m.nodes, v)) == VisualOnly(KindOf(w.nodes, v))
    requires forall v :: v in Ids(w.nodes) ==> KindOf(m.nodes, v).Start? == KindOf(w.nodes, v).Start?
    requires forall v :: v in Ids(w.nodes) ==> KindOf(m.nodes, v).End? == KindOf(w.nodes, v).End?
    ensures Sane(m)
  {
    forall v | v in Ids(w.nodes) ensures Executable(m.nodes, v) == Executable(w.nodes, v) {
      assert IsKnown(m.nodes, v) && IsKnown(w.nodes, v);
    }
    assert ExecArcs(m.nodes, m.edges) == ExecArcs(w.nodes, w.edges);
  }

  /** What merging Starts leaves behind. */
  ghost predicate MergedFrom(w: Workflow, m: Workflow) {
    && |StartIds(m.nodes)| <= 1
    && (StartIds(w.nodes) == [] <==> StartIds(m.nodes) == [])
    && (w.nodes != [] ==> m.nodes != [])
    && Ids(m.nodes) <= Ids(w.nodes)
    && (forall n :: n in w.nodes && !n.kind.Start? ==> n in m.nodes)
    && (forall n :: n in m.nodes && !n.kind.Start? ==> n in w.nodes)
  }

  /** A node list with two or more Starts: the first is kept, the rest are extra. */
  ghost predicate StartsSplit(nodes: seq<Node>, kept: Id, extras: seq<Id>) {
    && DistinctIds(nodes) && StartIds(nodes) == [kept] + extras
    && KindOf(nodes, kept).Start? && kept !in extras && Distinct(extras)
    && (forall id :: id in extras ==> KindOf(nodes, id).Start?)
    && (forall n :: n in nodes && (n.id == kept || n.id in extras) ==> n.kind.Start?)
  }

  lemma SplitStarts(nodes: seq<Node>)
    requires DistinctIds(nodes) && |StartIds(nodes)| >= 2
    ensures StartsSplit(nodes, StartIds(nodes)[0], StartIds(nodes)[1..])
  {
    var starts := StartIds(nodes);
    EndpointIdsDistinct(nodes);
    assert starts == [starts[0]] + starts[1..];
    forall id | id in starts ensures KindOf(nodes, id).Start? {
      StartKind(nodes, id);
    }
    forall n | n in nodes && n.id in starts ensures n.kind.Start? {
      LookupMember(nodes, n);
    }
  }

  lemma MergeSaneTwo(w: Workflow, kept: Id, extras: seq<Id>, vars: seq<Variable>)
    requires Sane(w) && StartsSplit(w.nodes, kept, extras)
    ensures var m := AbsorbAll(w, kept, extras); Sane(Workflow(SetVariables(m.nodes, kept, vars), m.edges))
  {
    AbsorbAllSane(w, kept, extras);
    AbsorbAllLookup(w, kept, extras);
    var m := AbsorbAll(w, kept, extras);
    var r := Workflow(SetVariables(m.nodes, kept, vars), m.edges);
    SetVariablesLookup(m.nodes, kept, vars, kept);
    forall v | v in Ids(m.nodes)
      ensures VisualOnly(KindOf(r.nodes, v)) == VisualOnly(KindOf(m.nodes, v))
      ensures KindOf(r.nodes, v).Start? == KindOf(m.nodes, v).Start?
                && KindOf(r.nodes, v).End? == KindOf(m.nodes, v).End?
    {
      SetVariablesLookup(m.nodes, kept, vars, v);
    }
    SaneTransfers(m, r);
  }

  /** What remains are the kept Start and the nodes that were no extra Starts. */
  lemma MergedMembers(nodes: seq<Node>, left: seq<Node>, kept: Id, extras: seq<Id>, vars: seq<Variable>)
    requires StartsSplit(nodes, kept, extras) && DistinctIds(left)
    requires forall n :: n in left <==> n in nodes && n.id !in extras
    ensures var r := SetVariables(left, kept, vars);
      && (forall n :: n in r ==> n.id == kept || (n in nodes && n.id !in extras))
      && (forall n :: n in nodes && !n.kind.Start? ==> n in r)
      && (exists n :: n in r && n.kind.Start? && n.id == kept)
  {
    var r := SetVariables(left, kept, vars);
    forall n | n in r ensures n.id == kept || (n in nodes && n.id !in extras) {
      var i :| 0 <= i < |r| && r[i] == n;
      assert left[i] in left;
    }
    forall n | n in nodes && !n.kind.Start? ensures n in r {
      var i :| 0 <= i < |left| && left[i] == n;
      assert r[i] == n;
    }
    assert kept in StartIds(nodes);
    var first :| first in nodes && first.kind.Start? && first.id == kept;
    var i :| 0 <= i < |left| && left[i] == first;
    assert r[i] in r && r[i].kind.Start? && r[i].id == kept;
  }

  lemma MergedNodes(nodes: seq<Node>, left: seq<Node>, kept: Id, extras: seq<Id>, vars: seq<Variable>)
    requires StartsSplit(nodes, kept, extras) && DistinctIds(left)
    requires forall n :: n in left <==> n in nodes && n.id !in extras
    ensures var r := SetVariables(left, kept, vars);
      && StartIds(r) == [kept] && r != [] && Ids(r) <= Ids(nodes)
      && (forall n :: n in nodes && !n.kind.Start? ==> n in r)
      && (forall n :: n in r && !n.kind.Start? ==> n in nodes)
  {
    var r := SetVariables(left, kept, vars);
    SetVariablesLookup(left, kept, vars, kept);
    MergedMembers(nodes, left, kept, extras, vars);
    EndpointIdsDistinct(r);
    forall id | id in StartIds(r) ensures id == kept {
      var n :| n in r && n.kind.Start? && n.id == id;
      assert n.id != kept ==> n.id in StartIds(nodes);
    }
    OnlyOne(StartIds(r), kept);
  }

  lemma MergeSane(w: Workflow)
    requires Sane(w)
    ensures Sane(MergeStarts(w)) && MergedFrom(w, MergeStarts(w))
  {
    var starts := StartIds(w.nodes);
    if |starts| >= 2 {
      SplitStarts(w.nodes);
      var vars := MergedVariables(w.nodes, starts[0], starts[1..]);
      MergeSaneTwo(w, starts[0], starts[1..], vars);
      AbsorbAllLookup(w, starts[0], starts[1..]);
      MergedNodes(w.nodes, AbsorbAll(w, starts[0], starts[1..]).nodes, starts[0], starts[1..], vars);
    }
  }

  lemma AtMostOneEnd(ns: seq<Node>, ms: seq<Node>)
    requires DistinctIds(ms) && |EndIds(ns)| <= 1
    requires forall n :: n in ns && !n.kind.Start? <==> n in ms && !n.kind.Start?
    ensures |EndIds(ms)| <= 1 && (EndIds(ms) == [] <==> EndIds(ns) == [])
  {
    EndpointIdsDistinct(ms);
    forall id ensures id in EndIds(ms) <==> id in EndIds(ns) {
      if id in EndIds(ms) {
        var n :| n in ms && n.kind.End? && n.id == id;
        assert n in ns;
      }
      if id in EndIds(ns) {
        var n :| n in ns && n.kind.End? && n.id == id;
        assert n in ms;
      }
    }
    NoMore(EndIds(ms), EndIds(ns));
    assert EndIds(ms) != [] ==> EndIds(ms)[0] in EndIds(ms);
    assert EndIds(ns) != [] ==> EndIds(ns)[0] in EndIds(ns);
  }

  lemma AppendNode(w: Workflow, n: Node)
    requires Sane(w) && n.id !in Ids(w.nodes)
    ensures Sane(w.(nodes := w.nodes + [n]))
    ensures StartIds(w.nodes + [n]) == StartIds(w.nodes) + (if n.kind.Start? then [n.id] else [])
    ensures EndIds(w.nodes + [n]) == EndIds(w.nodes) + (if n.kind.End? then [n.id] else [])
    ensures Ids(w.nodes + [n]) == Ids(w.nodes) + {n.id}
  {
    var ms := w.nodes + [n];
    assert ms[..|w.nodes|] == w.nodes;
    forall v | v in Ids(w.nodes) ensures Lookup(ms, v) == Lookup(w.nodes, v) {
      LookupAgrees(ms, w.nodes, v);
    }
    SaneTransfers(w, w.(nodes := ms));
  }

  /** After the first two stages: sound, with exactly one Start and one End, no other node lost. */
  lemma EndpointsReady(w: Workflow, startId: Id, endId: Id)
    requires Repairable(w) && FreshNames(w, startId, endId)
    ensures var m := EnsureEnd(EnsureStart(MergeStarts(w), startId), endId);
      && Sane(m) && |StartIds(m.nodes)| == 1 && |EndIds(m.nodes)| == 1
      && (forall n :: n in w.nodes && !n.kind.Start? ==> n in m.nodes)
      && (forall n :: n in m.nodes && !n.kind.Start? && !n.kind.End? ==> n in w.nodes)
  {
    MergeSane(w);
    var a := MergeStarts(w);
    AtMostOneEnd(w.nodes, a.nodes);
    StartReady(a, startId);
    var b := EnsureStart(a, startId);
    if EndIds(b.nodes) == [] {
      assert endId !in Ids(b.nodes);
      AppendNode(b, Node(endId, End));
    }
  }

  lemma StartReady(a: Workflow, startId: Id)
    requires Sane(a) && a.nodes != [] && |StartIds(a.nodes)| <= 1
    requires StartIds(a.nodes) == [] ==> startId !in Ids(a.nodes)
    ensures var b := EnsureStart(a, startId);
      && Sane(b) && |StartIds(b.nodes)| == 1 && EndIds(b.nodes) == EndIds(a.nodes)
      && Ids(b.nodes) <= Ids(a.nodes) + (if StartIds(a.nodes) == [] then {startId} else {})
      && b.nodes != []
      && (forall n :: n in b.nodes && !n.kind.Start? <==> n in a.nodes && !n.kind.Start?)
  {
    if StartIds(a.nodes) == [] {
      AppendNode(a, Node(startId, Start([])));
    }
  }
}
