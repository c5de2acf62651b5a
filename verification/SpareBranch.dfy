/**
 * A valid workflow that the repair changes and leaves valid: a task without
 * successor sits on the branch of an if-else that does not lead to the End.
 * The repair feeds it into the End, and the if-else keeps the two entries
 * apart.
 */
module SpareBranch {
  import opened Wrappers
  import opened Digraph
  import opened Workflows
  import opened BranchMarkers
  import opened Exclusivity
  import opened Validation
  import opened Repair
  import opened RepairNoOp
  import opened RepairValidity
  import SharedEnd

  type Names = SharedEnd.Names

  function CA(m: Names): Edge { Edge("", m.c, m.a, Some(m.yes)) }
  function CB(m: Names): Edge { Edge("", m.c, m.b, Some(m.no)) }

  /** s to c, c on yes to a and on no to b, a to e; b leads nowhere. */
  function Edges(m: Names): seq<Edge> {
    [Link(m.s, m.c), CA(m), CB(m), Link(m.a, m.e)]
  }

  ghost predicate Kinds(m: Names, ns: seq<Node>) {
    && SharedEnd.Apart(m) && DistinctIds(ns) && Ids(ns) == {m.s, m.c, m.a, m.b, m.e} && StartId(ns) == Some(m.s)
    && KindOf(ns, m.s).Start? && KindOf(ns, m.c).IfElse? && KindOf(ns, m.a).Task? && KindOf(ns, m.b).Task?
    && KindOf(ns, m.e).End? && StartIds(ns) == [m.s] && EndIds(ns) == [m.e]
  }

  ghost predicate Arrows(m: Names, es: seq<Edge>) {
    forall e :: e in es <==> e == Link(m.s, m.c) || e == CA(m) || e == CB(m) || e == Link(m.a, m.e)
  }

  ghost predicate Shape(m: Names, ns: seq<Node>, es: seq<Edge>) {
    Kinds(m, ns) && Arrows(m, es) && ExecIncoming(ns, es, m.e) == [Link(m.a, m.e)]
  }

  lemma KindsHold(m: Names)
    requires SharedEnd.Apart(m)
    ensures Kinds(m, SharedEnd.Nodes(m))
  {
    var ns := SharedEnd.Nodes(m);
    SharedEnd.ShapeHolds(m);
    SharedEnd.Lists(m);
  }

  lemma IntoEnd(m: Names, ns: seq<Node>)
    requires Kinds(m, ns)
    ensures ExecIncoming(ns, Edges(m), m.e) == [Link(m.a, m.e)]
  {
    var early := [Link(m.s, m.c), CA(m), CB(m)];
    SharedEnd.NoneInto(ns, early, m.e);
    SharedEnd.ExecIncomingSnoc(ns, early, Link(m.a, m.e), m.e);
    assert Edges(m) == early + [Link(m.a, m.e)];
  }

  lemma ShapeHolds(m: Names)
    requires SharedEnd.Apart(m)
    ensures Shape(m, SharedEnd.Nodes(m), Edges(m))
  {
    KindsHold(m);
    IntoEnd(m, SharedEnd.Nodes(m));
  }

  lemma Reached(m: Names, ns: seq<Node>, es: seq<Edge>, v: Id)
    requires Shape(m, ns, es) && v in Ids(ns)
    ensures Reaches(ExecArcs(ns, es), m.s, v)
  {
    var arcs := ExecArcs(ns, es);
    assert Link(m.s, m.c) in es && CA(m) in es && CB(m) in es && Link(m.a, m.e) in es;
    assert (m.s, m.c) in arcs && (m.c, m.a) in arcs && (m.c, m.b) in arcs && (m.a, m.e) in arcs;
    ReachesSelf(arcs, m.s);
    ReachesArc(arcs, m.s, m.c);
    ReachesArc(arcs, m.c, m.a);
    ReachesArc(arcs, m.c, m.b);
    ReachesArc(arcs, m.a, m.e);
    ReachesTrans(arcs, m.s, m.c, m.a);
    ReachesTrans(arcs, m.s, m.c, m.b);
    ReachesTrans(arcs, m.s, m.a, m.e);
  }

  lemma NoJoin(m: Names, ns: seq<Node>, es: seq<Edge>, x: Violation)
    requires Shape(m, ns, es)
    ensures !JoinDefect(ns, es, |ns|, x)
  {
    forall v | v in ns ensures !v.kind.Join? {
      LookupMember(ns, v);
    }
    assert ns[..|ns|] == ns;
  }

  lemma NoBranchDefect(m: Names, ns: seq<Node>, es: seq<Edge>, x: Violation)
    requires Shape(m, ns, es)
    ensures !BranchDefect(ns, es, x)
  {
  }

  lemma NoReachDefect(m: Names, ns: seq<Node>, es: seq<Edge>, x: Violation)
    requires Shape(m, ns, es)
    ensures !ReachDefect(ns, es, m.s, x)
  {
    if x.Unreachable? && x.id in Ids(ns) {
      Reached(m, ns, es, x.id);
    }
  }

  lemma NoDefect(m: Names, ns: seq<Node>, es: seq<Edge>, x: Violation)
    requires Shape(m, ns, es)
    ensures !EndDefect(ns, es, [m.e], x) && !JoinDefect(ns, es, |ns|, x) && !BranchDefect(ns, es, x)
            && !ReachDefect(ns, es, m.s, x)
  {
    NoJoin(m, ns, es, x);
    NoBranchDefect(m, ns, es, x);
    NoReachDefect(m, ns, es, x);
  }

  lemma IsValid(m: Names, ns: seq<Node>, es: seq<Edge>)
    requires Shape(m, ns, es)
    ensures Valid(Workflow(ns, es))
  {
    forall x ensures !EndDefect(ns, es, [m.e], x) && !JoinDefect(ns, es, |ns|, x) && !BranchDefect(ns, es, x)
                     && !ReachDefect(ns, es, m.s, x)
    {
      NoDefect(m, ns, es, x);
    }
    ValidByParts(ns, es, m.s);
  }

  /** Branch yes of c labels a and nothing else does; branch no labels b. */
  lemma LabelsOfA(m: Names, ns: seq<Node>, es: seq<Edge>, l: string)
    requires Shape(m, ns, es)
    ensures Marked(ns, es, m.a, (m.c, l)) <==> l == m.yes
  {
    var arcs := FlowArcs(ns, es);
    assert Joins(arcs, m.a, m.a, [m.a]);
    assert MarkedVia(ns, es, m.a, (m.c, m.yes), CA(m), [m.a]);
    if Marked(ns, es, m.a, (m.c, l)) && l != m.yes {
      var e, p :| MarkedVia(ns, es, m.a, (m.c, l), e, p);
      assert e == CB(m);
      JoinsStaysInside(arcs, {m.b}, m.b, m.a, p);
    }
  }

  lemma LabelsOfB(m: Names, ns: seq<Node>, es: seq<Edge>, l: string)
    requires Shape(m, ns, es)
    ensures Marked(ns, es, m.b, (m.c, l)) <==> l == m.no
  {
    var arcs := FlowArcs(ns, es);
    assert Joins(arcs, m.b, m.b, [m.b]);
    assert MarkedVia(ns, es, m.b, (m.c, m.no), CB(m), [m.b]);
    if Marked(ns, es, m.b, (m.c, l)) && l != m.no {
      var e, p :| MarkedVia(ns, es, m.b, (m.c, l), e, p);
      assert e == CA(m);
      JoinsStaysInside(arcs, {m.a, m.e}, m.a, m.b, p);
    }
  }

  lemma Apart(m: Names, ns: seq<Node>, es: seq<Edge>)
    requires Shape(m, ns, es)
    ensures Separable(ns, es, m.a, m.b) && Separable(ns, es, m.b, m.a)
  {
    LabelsOfA(m, ns, es, m.yes);
    LabelsOfB(m, ns, es, m.no);
    forall l ensures !(Marked(ns, es, m.a, (m.c, l)) && Marked(ns, es, m.b, (m.c, l))) {
      LabelsOfA(m, ns, es, l);
      LabelsOfB(m, ns, es, l);
    }
    assert Separates(ns, es, m.c, m.a, m.b);
    SeparableSymmetric(ns, es, m.a, m.b);
  }

  /** Only a enters the End, and only b leads nowhere. */
  lemma Feeders(m: Names, ns: seq<Node>, es: seq<Edge>, v: Id)
    requires Shape(m, ns, es) && Feeder(Workflow(ns, es), m.s, m.e, v)
    ensures v == m.a || v == m.b
  {
    if NeedsTail(ns, es, m.s, m.e, v) {
      var j :| 0 <= j < |ns| && ns[j].id == v && NeedsOut(ns, es, m.s, m.e, ns[j]);
      LookupMember(ns, ns[j]);
      assert Link(m.a, m.e) in es;
    }
  }

  lemma DeadEndIsThere(m: Names, ns: seq<Node>, es: seq<Edge>)
    requires Shape(m, ns, es)
    ensures !AllTailsFed(ns, es, m.s, m.e)
  {
    var n := Lookup(ns, m.b).value;
    var j :| 0 <= j < |ns| && ns[j] == n;
    assert NeedsOut(ns, es, m.s, m.e, ns[j]);
  }

  lemma FeedersAreApart(m: Names, ns: seq<Node>, es: seq<Edge>)
    requires Shape(m, ns, es)
    ensures FeedersApart(Workflow(ns, es), m.s, m.e, es)
  {
    var w := Workflow(ns, es);
    Apart(m, ns, es);
    forall a, b | Feeder(w, m.s, m.e, a) && Feeder(w, m.s, m.e, b) && a != b ensures Separable(ns, es, a, b) {
      Feeders(m, ns, es, a);
      Feeders(m, ns, es, b);
    }
  }

  lemma SparesShape(m: Names, ns: seq<Node>, es: seq<Edge>, startId: Id, endId: Id)
    requires Shape(m, ns, es)
    ensures var w := Workflow(ns, es);
      Valid(w) && Valid(Normalize(w, startId, endId)) && !SameDraft(Normalize(w, startId, endId), w)
  {
    IsValid(m, ns, es);
    FeedersAreApart(m, ns, es);
    DeadEndIsThere(m, ns, es);
    DeadEndMayStay(Workflow(ns, es), startId, endId, m.s, m.e);
  }

  /** Valid before and after, and changed. */
  lemma RepairSparesValid(m: Names, startId: Id, endId: Id)
    requires SharedEnd.Apart(m)
    ensures var w := Workflow(SharedEnd.Nodes(m), Edges(m));
      Valid(w) && Valid(Normalize(w, startId, endId)) && !SameDraft(Normalize(w, startId, endId), w)
  {
    ShapeHolds(m);
    SparesShape(m, SharedEnd.Nodes(m), Edges(m), startId, endId);
  }
}
