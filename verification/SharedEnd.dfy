/**
 * A workflow the validator accepts although the two edges into its End can
 * both be taken in one run: the label test sees which branches may lead to a
 * node, not which ones must.
 */
module SharedEnd {
  import opened Wrappers
  import opened Digraph
  import opened Workflows
  import opened BranchMarkers
  import opened Exclusivity
  import opened Validation
  import opened Compile
  import opened Supersteps

  /** Names for the five nodes, the condition of the if-else, and its two branches in either order. */
  datatype Names = Names(s: Id, c: Id, a: Id, b: Id, e: Id, test: string, yes: string, no: string)

  predicate Apart(m: Names) {
    && m.s != m.c && m.s != m.a && m.s != m.b && m.s != m.e
    && m.c != m.a && m.c != m.b && m.c != m.e
    && m.a != m.b && m.a != m.e && m.b != m.e
    && m.yes != m.no
  }

  /** The branches are those an if-else must have. */
  predicate Labelled(m: Names) {
    {m.yes, m.no} == {"true", "false"}
  }

  function Nodes(m: Names): seq<Node> {
    [Node(m.s, Start([])), Node(m.c, IfElse(m.test)), Node(m.a, Task("", "")), Node(m.b, Task("", "")), Node(m.e, End)]
  }

  function SC(m: Names): Edge { Edge(m.s, m.s, m.c, None) }
  function SA(m: Names): Edge { Edge(m.s, m.s, m.a, None) }
  function CA(m: Names): Edge { Edge(m.s, m.c, m.a, Some(m.yes)) }
  function CB(m: Names): Edge { Edge(m.s, m.c, m.b, Some(m.no)) }
  function AE(m: Names): Edge { Edge(m.s, m.a, m.e, None) }
  function BE(m: Names): Edge { Edge(m.s, m.b, m.e, None) }

  /** s to c, s to a, c on yes to a, c on no to b, and both a and b to e. */
  function Edges(m: Names): seq<Edge> {
    [SC(m), SA(m), CA(m), CB(m), AE(m), BE(m)]
  }

  /** What the arguments below use of the two lists. */
  ghost predicate Shape(m: Names, ns: seq<Node>, es: seq<Edge>) {
    && Apart(m) && DistinctIds(ns) && Ids(ns) == {m.s, m.c, m.a, m.b, m.e} && StartId(ns) == Some(m.s)
    && KindOf(ns, m.s) == Start([]) && KindOf(ns, m.c).IfElse? && KindOf(ns, m.a).Task? && KindOf(ns, m.b).Task?
    && KindOf(ns, m.e).End?
    && (forall e :: e in es <==> e == SC(m) || e == SA(m) || e == CA(m) || e == CB(m) || e == AE(m) || e == BE(m))
  }

  lemma ShapeHolds(m: Names)
    requires Apart(m)
    ensures Shape(m, Nodes(m), Edges(m))
  {
    var ns := Nodes(m);
    assert DistinctIds(ns);
    LookupMember(ns, ns[0]);
    LookupMember(ns, ns[1]);
    LookupMember(ns, ns[2]);
    LookupMember(ns, ns[3]);
    LookupMember(ns, ns[4]);
  }

  lemma Runnable(m: Names, ns: seq<Node>, es: seq<Edge>)
    requires Shape(m, ns, es)
    ensures forall v :: Executable(ns, v) <==> v in Ids(ns)
    ensures forall v :: v in Ids(ns) ==> (Conditional(Lookup(ns, v).value.kind) <==> v == m.c)
  {
  }

  /** Branch yes of c labels a but not b; branch no labels b but not a. */
  lemma LabelsOfA(m: Names, ns: seq<Node>, es: seq<Edge>, l: string)
    requires Shape(m, ns, es)
    ensures Marked(ns, es, m.a, (m.c, l)) <==> l == m.yes
  {
    var arcs := FlowArcs(ns, es);
    assert Joins(arcs, m.a, m.a, [m.a]);
    assert MarkedVia(ns, es, m.a, (m.c, m.yes), CA(m), [m.a]);
    if Marked(ns, es, m.a, (m.c, l)) && l != m.yes {
      var e, p :| MarkedVia(ns, es, m.a, (m.c, l), e, p);
      assert e == CB(m);
      JoinsStaysInside(arcs, {m.b, m.e}, m.b, m.a, p);
    }
  }

  lemma LabelsOfB(m: Names, ns: seq<Node>, es: seq<Edge>, l: string)
    requires Shape(m, ns, es)
    ensures Marked(ns, es, m.b, (m.c, l)) <==> l == m.no
  {
    var arcs := FlowArcs(ns, es);
    assert Joins(arcs, m.b, m.b, [m.b]);
    assert MarkedVia(ns, es, m.b, (m.c, m.no), CB(m), [m.b]);
    if Marked(ns, es, m.b, (m.c, l)) && l != m.no {
      var e, p :| MarkedVia(ns, es, m.b, (m.c, l), e, p);
      assert e == CA(m);
      JoinsStaysInside(arcs, {m.a, m.e}, m.a, m.b, p);
    }
  }

  lemma SourcesSeparable(m: Names, ns: seq<Node>, es: seq<Edge>)
    requires Shape(m, ns, es)
    ensures Separable(ns, es, m.a, m.b)
  {
    LabelsOfA(m, ns, es, m.yes);
    LabelsOfB(m, ns, es, m.no);
    forall l ensures !(Marked(ns, es, m.a, (m.c, l)) && Marked(ns, es, m.b, (m.c, l))) {
      LabelsOfA(m, ns, es, l);
      LabelsOfB(m, ns, es, l);
    }
    assert Separates(ns, es, m.c, m.a, m.b);
  }

  lemma Reached(m: Names, ns: seq<Node>, es: seq<Edge>, v: Id)
    requires Shape(m, ns, es) && v in Ids(ns)
    ensures Reaches(ExecArcs(ns, es), m.s, v)
  {
    var arcs := ExecArcs(ns, es);
    assert SC(m) in es && SA(m) in es && CB(m) in es && AE(m) in es;
    assert (m.s, m.c) in arcs && (m.s, m.a) in arcs && (m.c, m.b) in arcs && (m.a, m.e) in arcs;
    ReachesSelf(arcs, m.s);
    ReachesArc(arcs, m.s, m.c);
    ReachesArc(arcs, m.s, m.a);
    ReachesArc(arcs, m.c, m.b);
    ReachesArc(arcs, m.a, m.e);
    ReachesTrans(arcs, m.s, m.c, m.b);
    ReachesTrans(arcs, m.s, m.a, m.e);
  }

  lemma StartIdsSnoc(ns: seq<Node>, n: Node)
    ensures StartIds(ns + [n]) == StartIds(ns) + (if n.kind.Start? then [n.id] else [])
    ensures EndIds(ns + [n]) == EndIds(ns) + (if n.kind.End? then [n.id] else [])
  {
    assert (ns + [n])[..|ns|] == ns;
  }

  lemma {:induction false} PlainLists(ns: seq<Node>, more: seq<Node>)
    requires forall n :: n in more ==> !n.kind.Start? && !n.kind.End?
    ensures StartIds(ns + more) == StartIds(ns) && EndIds(ns + more) == EndIds(ns)
  {
    if more == [] {
      assert ns + more == ns;
    } else {
      var k := |more| - 1;
      PlainLists(ns, more[..k]);
      StartIdsSnoc(ns + more[..k], more[k]);
      assert ns + more == ns + more[..k] + [more[k]];
    }
  }

  lemma Lists(m: Names)
    ensures StartIds(Nodes(m)) == [m.s] && EndIds(Nodes(m)) == [m.e]
  {
    var ns := Nodes(m);
    StartIdsSnoc([], ns[0]);
    assert [] + [ns[0]] == [ns[0]];
    PlainLists([ns[0]], ns[1..4]);
    StartIdsSnoc([ns[0]] + ns[1..4], ns[4]);
    assert [ns[0]] + ns[1..4] + [ns[4]] == ns;
  }

  lemma ExecIncomingSnoc(ns: seq<Node>, es: seq<Edge>, e: Edge, id: Id)
    ensures ExecIncoming(ns, es + [e], id)
         == ExecIncoming(ns, es, id) + (if e.target == id && Executable(ns, e.source) then [e] else [])
  {
    assert (es + [e])[..|es|] == es;
  }

  lemma NoneInto(ns: seq<Node>, es: seq<Edge>, id: Id)
    requires forall e :: e in es ==> e.target != id
    ensures ExecIncoming(ns, es, id) == []
  {
    EmptyOrFirst(ExecIncoming(ns, es, id));
  }

  lemma TwoInto(ns: seq<Node>, es: seq<Edge>, e: Edge, f: Edge)
    requires e.target == f.target && Executable(ns, e.source) && Executable(ns, f.source)
    requires ExecIncoming(ns, es, e.target) == []
    ensures ExecIncoming(ns, es + [e] + [f], e.target) == [e, f]
  {
    ExecIncomingSnoc(ns, es, e, e.target);
    ExecIncomingSnoc(ns, es + [e], f, e.target);
  }

  lemma IntoEnd(m: Names, ns: seq<Node>)
    requires Apart(m) && Executable(ns, m.a) && Executable(ns, m.b)
    ensures ExecIncoming(ns, Edges(m), m.e) == [AE(m), BE(m)]
  {
    var early := [SC(m), SA(m), CA(m), CB(m)];
    NoneInto(ns, early, m.e);
    TwoInto(ns, early, AE(m), BE(m));
    assert Edges(m) == early + [AE(m)] + [BE(m)];
  }

  lemma NoEndDefect(m: Names, ns: seq<Node>, es: seq<Edge>, x: Violation)
    requires Shape(m, ns, es) && ExecIncoming(ns, es, m.e) == [AE(m), BE(m)]
    ensures !EndDefect(ns, es, [m.e], x)
  {
    SourcesSeparable(m, ns, es);
    assert MayEnterEnd(ns, es, [AE(m), BE(m)]);
  }

  lemma NoJoinDefect(m: Names, ns: seq<Node>, es: seq<Edge>, x: Violation)
    requires Shape(m, ns, es)
    ensures !JoinDefect(ns, es, |ns|, x)
  {
    if JoinDefect(ns, es, |ns|, x) {
      var v :| v in ns[..|ns|] && v.id == x.id && v.kind.Join?;
      LookupMember(ns, v);
    }
  }

  lemma NoBranchDefect(m: Names, ns: seq<Node>, es: seq<Edge>, x: Violation)
    requires Shape(m, ns, es)
    ensures !BranchDefect(ns, es, x)
  {
  }

  lemma NoReachDefect(m: Names, ns: seq<Node>, es: seq<Edge>, x: Violation)
    requires Shape(m, ns, es)
    ensures !ReachDefect(ns, es, m.s, x)
  {
    if x.Unreachable? && x.id in Ids(ns) {
      Reached(m, ns, es, x.id);
    }
  }

  /** The validator accepts the workflow. */
  lemma Accepted(m: Names)
    requires Apart(m)
    ensures Validation.Valid(Workflow(Nodes(m), Edges(m)))
  {
    var ns, es := Nodes(m), Edges(m);
    ShapeHolds(m);
    Runnable(m, ns, es);
    Lists(m);
    IntoEnd(m, ns);
    AcceptedShape(m, ns, es);
  }

  lemma AcceptedShape(m: Names, ns: seq<Node>, es: seq<Edge>)
    requires Shape(m, ns, es) && ExecIncoming(ns, es, m.e) == [AE(m), BE(m)]
    requires StartIds(ns) == [m.s] && EndIds(ns) == [m.e]
    ensures Validation.Valid(Workflow(ns, es))
  {
    forall x ensures !EndDefect(ns, es, [m.e], x) && !JoinDefect(ns, es, |ns|, x) && !BranchDefect(ns, es, x)
                     && !ReachDefect(ns, es, m.s, x)
    {
      NoEndDefect(m, ns, es, x);
      NoJoinDefect(m, ns, es, x);
      NoBranchDefect(m, ns, es, x);
      NoReachDefect(m, ns, es, x);
    }
    ValidByParts(ns, es, m.s);
  }

  lemma LabelsOfC(m: Names)
    requires Apart(m) && Labelled(m)
    ensures ExactlyLabelled(Edges(m), m.c, {"true", "false"})
  {
    var es := Edges(m);
    assert es[2] == CA(m) && es[3] == CB(m) && CA(m) in es && CB(m) in es;
    forall b | b in {"true", "false"} ensures HasBranch(es, m.c, b) {
      assert b in {m.yes, m.no};
      assert b == m.yes || b == m.no;
    }
    forall e | e in es && e.source == m.c ensures e.branch.Some? && e.branch.value in {"true", "false"} {
      assert e == CA(m) || e == CB(m);
      assert m.yes in {m.yes, m.no} && m.no in {m.yes, m.no};
    }
  }

  /** The workflow compiles as well. */
  lemma Compiles(m: Names)
    requires Apart(m) && Labelled(m)
    ensures Routable(Workflow(Nodes(m), Edges(m)))
  {
    var ns, es := Nodes(m), Edges(m);
    ShapeHolds(m);
    Runnable(m, ns, es);
    LabelsOfC(m);
    forall n | n in ns && Conditional(n.kind) ensures NodeRoutable(Workflow(ns, es), n) {
      assert n == ns[1];
    }
  }

  lemma SingleEdgeWalk(ns: seq<Node>, es: seq<Edge>, start: Id, e: Edge)
    requires e in es && Usable(ns, e) && e.source == start
    ensures EdgeWalk(ns, es, start, [e])
  {
    assert [e][..0] == [];
    assert EdgeWalk(ns, es, start, [e][..0]) && Tip(start, [e][..0]) == start;
  }

  lemma BothCanFire(m: Names, ns: seq<Node>, es: seq<Edge>)
    requires Shape(m, ns, es) && Labelled(m) && KindOf(ns, m.c) == IfElse(m.test) && m.test != ""
    ensures CanBothFire(ns, es, m.s, m.a, m.b)
  {
    Runnable(m, ns, es);
    var p, q := [SA(m)], [SC(m), CB(m)];
    assert m.no in {m.yes, m.no};
    assert Usable(ns, CB(m));
    SingleEdgeWalk(ns, es, m.s, SA(m));
    SingleEdgeWalk(ns, es, m.s, SC(m));
    assert q[..1] == [SC(m)];
    assert EdgeWalk(ns, es, m.s, q);
    assert ClashFree(ns, es, m.s, m.a, m.b, p, q);
    BothFireIffClashFree(ns, es, m.s, m.a, m.b);
  }

  /**
   * Yet both sources of the End fire when c takes branch no: exclusivity by
   * labels alone is not exclusivity of runs. The condition is not empty; with
   * an empty one the if-else itself fails.
   */
  lemma AcceptedButBothFire(m: Names)
    requires Apart(m) && Labelled(m) && m.test != ""
    ensures Validation.Valid(Workflow(Nodes(m), Edges(m))) && Routable(Workflow(Nodes(m), Edges(m)))
    ensures ExecIncoming(Nodes(m), Edges(m), m.e) == [AE(m), BE(m)]
    ensures CanBothFire(Nodes(m), Edges(m), m.s, m.a, m.b)
  {
    Accepted(m);
    Compiles(m);
    ShapeHolds(m);
    Runnable(m, Nodes(m), Edges(m));
    IntoEnd(m, Nodes(m));
    LookupMember(Nodes(m), Nodes(m)[1]);
    BothCanFire(m, Nodes(m), Edges(m));
  }
}
