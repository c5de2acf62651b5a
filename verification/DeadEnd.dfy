/**
 * A valid workflow that the repair turns into an invalid one: a task with no
 * successor is a legal side branch, but the repair feeds it into the End,
 * which then has two incoming edges that nothing separates.
 */
module DeadEnd {
  import opened Wrappers
  import opened Digraph
  import opened Workflows
  import opened BranchMarkers
  import opened Exclusivity
  import opened Validation
  import opened Compile
  import opened Repair
  import opened RepairMerge
  import opened RepairWire
  import opened RepairTheorems
  import opened RepairNoOp

  datatype Names = Names(s: Id, a: Id, b: Id, t: Id)

  predicate Apart(m: Names) {
    m.s != m.a && m.s != m.b && m.s != m.t && m.a != m.b && m.a != m.t && m.b != m.t
  }

  function Nodes(m: Names): seq<Node> {
    [Node(m.s, Start([])), Node(m.a, Task("", "")), Node(m.b, Task("", "")), Node(m.t, End)]
  }

  /** s to a, s to b, a to t; b leads nowhere. */
  function Edges(m: Names): seq<Edge> {
    [Link(m.s, m.a), Link(m.s, m.b), Link(m.a, m.t)]
  }

  ghost predicate Shape(m: Names, ns: seq<Node>, es: seq<Edge>) {
    && Apart(m) && DistinctIds(ns) && Ids(ns) == {m.s, m.a, m.b, m.t} && StartId(ns) == Some(m.s)
    && KindOf(ns, m.s).Start? && KindOf(ns, m.a).Task? && KindOf(ns, m.b).Task? && KindOf(ns, m.t).End?
    && StartIds(ns) == [m.s] && EndIds(ns) == [m.t]
    && (forall e :: e in es <==> e == Link(m.s, m.a) || e == Link(m.s, m.b) || e == Link(m.a, m.t))
    && ExecIncoming(ns, es, m.t) == [Link(m.a, m.t)]
  }

  lemma ShapeHolds(m: Names)
    requires Apart(m)
    ensures Shape(m, Nodes(m), Edges(m))
  {
    var ns, es := Nodes(m), Edges(m);
    assert DistinctIds(ns);
    LookupMember(ns, ns[0]);
    LookupMember(ns, ns[1]);
    LookupMember(ns, ns[2]);
    LookupMember(ns, ns[3]);
    EndpointLists(ns, m);
    IncomingList(ns, m);
  }

  lemma EndpointLists(ns: seq<Node>, m: Names)
    requires Apart(m) && ns == Nodes(m)
    ensures StartIds(ns) == [m.s] && EndIds(ns) == [m.t]
  {
    EndpointIdsDistinct(ns);
    assert ns[0] in ns && ns[3] in ns;
    assert m.s in StartIds(ns) && m.t in EndIds(ns);
    OnlyOne(StartIds(ns), m.s);
    OnlyOne(EndIds(ns), m.t);
  }

  lemma IncomingList(ns: seq<Node>, m: Names)
    requires Apart(m) && Executable(ns, m.a)
    ensures ExecIncoming(ns, Edges(m), m.t) == [Link(m.a, m.t)]
  {
    var early := [Link(m.s, m.a), Link(m.s, m.b)];
    var none := ExecIncoming(ns, early, m.t);
    EmptyOrFirst(none);
    assert Edges(m)[..2] == early;
  }

  lemma AllReached(m: Names, ns: seq<Node>, es: seq<Edge>, v: Id)
    requires Shape(m, ns, es) && v in Ids(ns)
    ensures Reaches(ExecArcs(ns, es), m.s, v)
  {
    var arcs := ExecArcs(ns, es);
    assert Link(m.s, m.a) in es && Link(m.s, m.b) in es && Link(m.a, m.t) in es;
    assert (m.s, m.a) in arcs && (m.s, m.b) in arcs && (m.a, m.t) in arcs;
    ReachesSelf(arcs, m.s);
    ReachesArc(arcs, m.s, m.a);
    ReachesArc(arcs, m.s, m.b);
    ReachesArc(arcs, m.a, m.t);
    ReachesTrans(arcs, m.s, m.a, m.t);
  }

  lemma NoJoin(m: Names, ns: seq<Node>, es: seq<Edge>, x: Violation)
    requires Shape(m, ns, es)
    ensures !JoinDefect(ns, es, |ns|, x)
  {
    if JoinDefect(ns, es, |ns|, x) {
      var v :| v in ns[..|ns|] && v.id == x.id && v.kind.Join?;
      LookupMember(ns, v);
    }
  }

  lemma NoEndDefect(m: Names, ns: seq<Node>, es: seq<Edge>, x: Violation)
    requires Shape(m, ns, es)
    ensures !EndDefect(ns, es, [m.t], x)
  {
  }

  lemma NoBranchDefect(m: Names, ns: seq<Node>, es: seq<Edge>, x: Violation)
    requires Shape(m, ns, es)
    ensures !BranchDefect(ns, es, x)
  {
  }

  lemma NoReachDefect(m: Names, ns: seq<Node>, es: seq<Edge>, x: Violation)
    requires Shape(m, ns, es)
    ensures !ReachDefect(ns, es, m.s, x)
  {
    if x.Unreachable? && x.id in Ids(ns) {
      AllReached(m, ns, es, x.id);
    }
  }

  lemma IsValid(m: Names, ns: seq<Node>, es: seq<Edge>)
    requires Shape(m, ns, es)
    ensures Valid(Workflow(ns, es))
  {
    forall x ensures !EndDefect(ns, es, [m.t], x) && !JoinDefect(ns, es, |ns|, x) && !BranchDefect(ns, es, x)
                     && !ReachDefect(ns, es, m.s, x)
    {
      NoJoin(m, ns, es, x);
      NoEndDefect(m, ns, es, x);
      NoBranchDefect(m, ns, es, x);
      NoReachDefect(m, ns, es, x);
    }
    ValidByParts(ns, es, m.s);
  }

  /** No conditional, no label, nothing separable. */
  lemma NothingSeparable(m: Names, ns: seq<Node>, es: seq<Edge>, r: seq<Edge>, u: Id, v: Id)
    requires Shape(m, ns, es)
    ensures !Separable(ns, r, u, v)
  {
    forall e, k ensures !Originates(ns, e, k) {
    }
  }

  lemma OneTail(m: Names, ns: seq<Node>, es: seq<Edge>)
    requires Shape(m, ns, es)
    ensures !AllTailsFed(ns, es, m.s, m.t)
    ensures forall e :: TailLink(ns, m.s, m.t, e) ==> e.target == m.t && Executable(ns, e.source)
  {
    var n := Lookup(ns, m.b).value;
    var j :| 0 <= j < |ns| && ns[j] == n;
    assert NeedsOut(ns, es, m.s, m.t, ns[j]);
  }

  lemma IncomingGrows(ns: seq<Node>, es: seq<Edge>, r: seq<Edge>, t: Id)
    requires es < r && r[|es|].target == t && Executable(ns, r[|es|].source)
    ensures |ExecIncoming(ns, r, t)| > |ExecIncoming(ns, es, t)|
    decreases |r|
  {
    var k := |r| - 1;
    assert r == r[..k] + [r[k]];
    if k == |es| {
      assert r[..k] == es;
    } else {
      assert r[..k][..|es|] == r[..|es|];
      IncomingGrows(ns, es, r[..k], t);
    }
  }

  /** The repair adds a second edge into the End. */
  lemma RepairAddsTail(m: Names, ns: seq<Node>, es: seq<Edge>, startId: Id, endId: Id)
    requires Shape(m, ns, es)
    ensures var r := Normalize(Workflow(ns, es), startId, endId);
      r.nodes == ns && |ExecIncoming(ns, r.edges, m.t)| > 1
  {
    var w := Workflow(ns, es);
    IsValid(m, ns, es);
    ValidSkipsFirstStages(w, startId, endId);
    forall k | 0 <= k < |es| ensures !Shortcut(es[k], m.s, [m.t]) {
      assert es[k] in es;
    }
    NoShortcuts(es, m.s, [m.t], 0);
    OneTail(m, ns, es);
    TailsIff(ns, es, m.s, m.t);
    var tailed := AddTails(ns, es, m.s, m.t, 0);
    IncomingGrows(ns, es, tailed, m.t);
    assert Link(m.a, m.t) in es;
    EntryKept(ns, es, tailed, m.t);
  }

  /** Valid before, invalid after: repairing is not a no-op and can do harm. */
  lemma RepairBreaksValid(m: Names, startId: Id, endId: Id)
    requires Apart(m)
    ensures Valid(Workflow(Nodes(m), Edges(m)))
    ensures !Valid(Normalize(Workflow(Nodes(m), Edges(m)), startId, endId))
  {
    var ns, es := Nodes(m), Edges(m);
    ShapeHolds(m);
    IsValid(m, ns, es);
    RepairAddsTail(m, ns, es, startId, endId);
    var r := Normalize(Workflow(ns, es), startId, endId);
    if Valid(r) {
      ValidEndEntry(r, m.t, 0, 1);
      var into := ExecIncoming(ns, r.edges, m.t);
      NothingSeparable(m, ns, es, r.edges, into[0].source, into[1].source);
    }
  }
}
