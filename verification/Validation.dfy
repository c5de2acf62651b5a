/**
 * The shape validator. Defect says, in terms of paths and counts, what each
 * violation means; CollectViolations finds exactly the defects there are.
 */
module Validation {
  import opened Wrappers
  import opened Digraph
  import opened Workflows
  import opened BranchMarkers
  import opened Exclusivity

  datatype Violation =
    | DuplicateId(id: Id)
    | StartCount(found: nat)
    | NoEnd
    | UnknownSource(edge: Id, source: Id)
    | UnknownTarget(edge: Id, target: Id)
    | EndIncoming(id: Id, found: nat)
    | JoinOutgoing(id: Id, found: nat)
    | MissingBranch(edge: Id, source: Id)
    | UnexpectedBranch(edge: Id, branch: string, source: Id)
    | Unreachable(id: Id)

  /** Position of the check that reports a violation. */
  function Rank(x: Violation): nat {
    match x
    case DuplicateId(_) => 1
    case StartCount(_) => 2
    case NoEnd => 3
    case UnknownSource(_, _) => 4
    case UnknownTarget(_, _) => 4
    case EndIncoming(_, _) => 5
    case JoinOutgoing(_, _) => 6
    case MissingBranch(_, _) => 7
    case UnexpectedBranch(_, _, _) => 7
    case Unreachable(_) => 8
  }

  /** Later nodes that repeat an id are left out. */
  function Table(nodes: seq<Node>): (r: seq<Node>)
    ensures Ids(r) == Ids(nodes)
    ensures DistinctIds(r)
    ensures forall n :: n in r ==> n in nodes
  {
    if nodes == [] then []
    else
      var k := |nodes| - 1;
      assert nodes == nodes[..k] + [nodes[k]];
      var r := Table(nodes[..k]);
      assert Ids(nodes) == Ids(nodes[..k]) + {nodes[k].id};
      assert Ids(r + [nodes[k]]) == Ids(r) + {nodes[k].id};
      if nodes[k].id in Ids(r) then r else r + [nodes[k]]
  }

  lemma {:induction false} TableOfDistinct(nodes: seq<Node>)
    requires DistinctIds(nodes)
    ensures Table(nodes) == nodes
  {
    if nodes != [] {
      var k := |nodes| - 1;
      TableOfDistinct(nodes[..k]);
      assert nodes[..k] + [nodes[k]] == nodes;
    }
  }

  function StartIds(nodes: seq<Node>): (r: seq<Id>)
    ensures forall id :: id in r <==> exists n :: n in nodes && n.kind.Start? && n.id == id
  {
    if nodes == [] then []
    else
      var k := |nodes| - 1;
      assert nodes == nodes[..k] + [nodes[k]];
      StartIds(nodes[..k]) + (if nodes[k].kind.Start? then [nodes[k].id] else [])
  }

  function EndIds(nodes: seq<Node>): (r: seq<Id>)
    ensures forall id :: id in r <==> exists n :: n in nodes && n.kind.End? && n.id == id
  {
    if nodes == [] then []
    else
      var k := |nodes| - 1;
      assert nodes == nodes[..k] + [nodes[k]];
      EndIds(nodes[..k]) + (if nodes[k].kind.End? then [nodes[k].id] else [])
  }

  function Filter(edges: seq<Edge>, keep: Edge -> bool): (r: seq<Edge>)
    ensures forall e :: e in r <==> e in edges && keep(e)
    ensures |r| <= |edges|
  {
    if edges == [] then []
    else
      var k := |edges| - 1;
      assert edges == edges[..k] + [edges[k]];
      Filter(edges[..k], keep) + (if keep(edges[k]) then [edges[k]] else [])
  }

  lemma {:induction false} FilterAll(edges: seq<Edge>, keep: Edge -> bool)
    requires forall e :: e in edges ==> keep(e)
    ensures Filter(edges, keep) == edges
  {
    if edges != [] {
      var k := |edges| - 1;
      assert edges == edges[..k] + [edges[k]];
      FilterAll(edges[..k], keep);
    }
  }

  lemma FilterSnoc(a: seq<Edge>, x: Edge, keep: Edge -> bool)
    ensures Filter(a + [x], keep) == Filter(a, keep) + (if keep(x) then [x] else [])
  {
    assert (a + [x])[..|a|] == a;
  }

  lemma EmptyOrFirst(edges: seq<Edge>)
    ensures edges == [] || edges[0] in edges
  {
  }

  /** Edges whose two ends are known. */
  function CleanEdges(nodes: seq<Node>, edges: seq<Edge>): seq<Edge> {
    Filter(edges, (e: Edge) => e.source in Ids(nodes) && e.target in Ids(nodes))
  }

  function ExecIncoming(nodes: seq<Node>, edges: seq<Edge>, id: Id): seq<Edge> {
    Filter(edges, (e: Edge) => e.target == id && Executable(nodes, e.source))
  }

  function ExecOutgoing(nodes: seq<Node>, edges: seq<Edge>, id: Id): seq<Edge> {
    Filter(edges, (e: Edge) => e.source == id && Executable(nodes, e.target))
  }

  /** Some conditional separates every two of the edges' sources. */
  ghost predicate PairwiseSeparated(nodes: seq<Node>, edges: seq<Edge>, into: seq<Edge>) {
    forall i, j :: 0 <= i < j < |into| ==> Separable(nodes, edges, into[i].source, into[j].source)
  }

  ghost predicate MayEnterEnd(nodes: seq<Node>, edges: seq<Edge>, into: seq<Edge>) {
    |into| == 1 || (|into| > 1 && PairwiseSeparated(nodes, edges, into))
  }

  ghost predicate Repeated(nodes: seq<Node>, id: Id) {
    exists i, j :: 0 <= i < j < |nodes| && nodes[i].id == id == nodes[j].id
  }

  ghost predicate IdDefect(all: seq<Node>, x: Violation) {
    x.DuplicateId? && Repeated(all, x.id)
  }

  ghost predicate CountDefect(all: seq<Node>, x: Violation) {
    || (x.StartCount? && x.found == |StartIds(all)| && x.found != 1)
    || (x.NoEnd? && EndIds(all) == [])
  }

  ghost predicate EndpointDefect(nodes: seq<Node>, all: seq<Edge>, x: Violation) {
    || (x.UnknownSource? && x.source !in Ids(nodes)
        && exists e :: e in all && e.id == x.edge && e.source == x.source)
    || (x.UnknownTarget? && x.target !in Ids(nodes)
        && exists e :: e in all && e.id == x.edge && e.target == x.target && e.source in Ids(nodes))
  }

  ghost predicate EndDefect(nodes: seq<Node>, edges: seq<Edge>, endIds: seq<Id>, x: Violation) {
    && x.EndIncoming? && x.id in endIds
    && x.found == |ExecIncoming(nodes, edges, x.id)|
    && !MayEnterEnd(nodes, edges, ExecIncoming(nodes, edges, x.id))
  }

  ghost predicate JoinDefect(nodes: seq<Node>, edges: seq<Edge>, upTo: nat, x: Violation)
    requires upTo <= |nodes|
  {
    && x.JoinOutgoing?
    && x.found == |ExecOutgoing(nodes, edges, x.id)| && x.found != 1
    && exists v :: v in nodes[..upTo] && v.id == x.id && v.kind.Join?
  }

  ghost predicate BranchDefect(nodes: seq<Node>, edges: seq<Edge>, x: Violation) {
    || (x.MissingBranch? && Conditional(KindOf(nodes, x.source))
        && exists e :: e in edges && e.id == x.edge && e.source == x.source && e.branch.None?)
    || (x.UnexpectedBranch? && !Conditional(KindOf(nodes, x.source))
        && exists e :: e in edges && e.id == x.edge && e.source == x.source && e.branch == Some(x.branch))
  }

  ghost predicate ReachDefect(nodes: seq<Node>, edges: seq<Edge>, start: Id, x: Violation) {
    x.Unreachable? && Executable(nodes, x.id) && !Reaches(ExecArcs(nodes, edges), start, x.id)
  }

  /** What it means for a workflow to have the defect a violation names. */
  ghost predicate Defect(w: Workflow, x: Violation) {
    var nodes := Table(w.nodes);
    var edges := CleanEdges(nodes, w.edges);
    var starts := StartIds(w.nodes);
    || IdDefect(w.nodes, x)
    || CountDefect(w.nodes, x)
    || EndpointDefect(nodes, w.edges, x)
    || (|starts| == 1 && (
          || EndDefect(nodes, edges, EndIds(w.nodes), x)
          || JoinDefect(nodes, edges, |nodes|, x)
          || BranchDefect(nodes, edges, x)
          || ReachDefect(nodes, edges, starts[0], x)))
  }

  function KindOf(nodes: seq<Node>, id: Id): Kind {
    if IsKnown(nodes, id) then Lookup(nodes, id).value.kind else Note
  }

  ghost predicate Valid(w: Workflow) {
    forall x :: !Defect(w, x)
  }

  /** Distinct ids, known ends and no defect of any other kind make a workflow valid. */
  lemma ValidByParts(ns: seq<Node>, es: seq<Edge>, s: Id)
    requires DistinctIds(ns) && StartIds(ns) == [s] && EndIds(ns) != []
    requires forall e :: e in es ==> e.source in Ids(ns) && e.target in Ids(ns)
    requires forall x :: !EndDefect(ns, es, EndIds(ns), x) && !JoinDefect(ns, es, |ns|, x)
                         && !BranchDefect(ns, es, x) && !ReachDefect(ns, es, s, x)
    ensures Valid(Workflow(ns, es))
  {
    TableOfDistinct(ns);
    FilterAll(es, (e: Edge) => e.source in Ids(ns) && e.target in Ids(ns));
    forall x ensures !IdDefect(ns, x) && !CountDefect(ns, x) && !EndpointDefect(ns, es, x) {
      NoIdDefect(ns, x);
      NoEndpointDefect(ns, es, x);
    }
  }

  lemma NoIdDefect(ns: seq<Node>, x: Violation)
    requires DistinctIds(ns)
    ensures !IdDefect(ns, x)
  {
  }

  lemma NoEndpointDefect(ns: seq<Node>, es: seq<Edge>, x: Violation)
    requires forall e :: e in es ==> e.source in Ids(ns) && e.target in Ids(ns)
    ensures !EndpointDefect(ns, es, x)
  {
  }

  ghost predicate Ordered(xs: seq<Violation>) {
    forall i, j :: 0 <= i < j < |xs| ==> Rank(xs[i]) <= Rank(xs[j])
  }

  // ---- what is reported, in which order ---------------------------------------

  /** One report for every node that repeats an earlier id. */
  ghost function DuplicateReports(all: seq<Node>, k: nat): seq<Violation>
    requires k <= |all|
  {
    if k == 0 then []
    else
      DuplicateReports(all, k - 1)
        + (if all[k - 1].id in Ids(all[..k - 1]) then [DuplicateId(all[k - 1].id)] else [])
  }

  ghost function CountReports(all: seq<Node>): seq<Violation> {
    (if |StartIds(all)| != 1 then [StartCount(|StartIds(all)|)] else []) + (if EndIds(all) == [] then [NoEnd] else [])
  }

  /** One report for every edge with an unknown end, about its source if that is unknown. */
  ghost function EndpointReports(nodes: seq<Node>, all: seq<Edge>, k: nat): seq<Violation>
    requires k <= |all|
  {
    if k == 0 then []
    else
      var e := all[k - 1];
      EndpointReports(nodes, all, k - 1)
        + (if e.source !in Ids(nodes) then [UnknownSource(e.id, e.source)]
           else if e.target !in Ids(nodes) then [UnknownTarget(e.id, e.target)] else [])
  }

  /** One report for every End that may not be entered as it is. */
  ghost function EndReports(nodes: seq<Node>, edges: seq<Edge>, endIds: seq<Id>, k: nat): seq<Violation>
    requires k <= |endIds|
  {
    if k == 0 then [] else EndReports(nodes, edges, endIds, k - 1) + EndReport(nodes, edges, endIds[k - 1])
  }

  ghost function EndReport(nodes: seq<Node>, edges: seq<Edge>, id: Id): seq<Violation> {
    var into := ExecIncoming(nodes, edges, id);
    if MayEnterEnd(nodes, edges, into) then [] else [EndIncoming(id, |into|)]
  }

  ghost function JoinReports(nodes: seq<Node>, edges: seq<Edge>, k: nat): seq<Violation>
    requires k <= |nodes|
  {
    if k == 0 then [] else JoinReports(nodes, edges, k - 1) + JoinReport(nodes, edges, nodes[k - 1])
  }

  ghost function JoinReport(nodes: seq<Node>, edges: seq<Edge>, v: Node): seq<Violation> {
    var n := |ExecOutgoing(nodes, edges, v.id)|;
    if v.kind.Join? && n != 1 then [JoinOutgoing(v.id, n)] else []
  }

  ghost function BranchReports(nodes: seq<Node>, edges: seq<Edge>, k: nat): seq<Violation>
    requires k <= |edges|
  {
    if k == 0 then []
    else
      var e := edges[k - 1];
      BranchReports(nodes, edges, k - 1)
        + (if Conditional(KindOf(nodes, e.source)) && e.branch.None? then [MissingBranch(e.id, e.source)]
           else if !Conditional(KindOf(nodes, e.source)) && e.branch.Some?
           then [UnexpectedBranch(e.id, e.branch.value, e.source)]
           else [])
  }

  ghost function ReachReports(nodes: seq<Node>, edges: seq<Edge>, start: Id, k: nat): seq<Violation>
    requires k <= |nodes|
  {
    if k == 0 then []
    else
      ReachReports(nodes, edges, start, k - 1)
        + (if !VisualOnly(nodes[k - 1].kind) && !Reaches(ExecArcs(nodes, edges), start, nodes[k - 1].id)
           then [Unreachable(nodes[k - 1].id)] else [])
  }

  ghost function GraphReports(nodes: seq<Node>, edges: seq<Edge>, start: Id, endIds: seq<Id>): seq<Violation> {
    EndReports(nodes, edges, endIds, |endIds|) + JoinReports(nodes, edges, |nodes|)
    + BranchReports(nodes, edges, |edges|) + ReachReports(nodes, edges, start, |nodes|)
  }

  /** All reports: check by check, each in the order of the nodes or edges it is about. */
  ghost function Reports(w: Workflow): seq<Violation> {
    var nodes, starts := Table(w.nodes), StartIds(w.nodes);
    DuplicateReports(w.nodes, |w.nodes|) + CountReports(w.nodes) + EndpointReports(nodes, w.edges, |w.edges|)
    + (if |starts| == 1 then GraphReports(nodes, CleanEdges(nodes, w.edges), starts[0], EndIds(w.nodes)) else [])
  }


  // ---- what is reported is what is wrong ----------------------------------------

  lemma {:induction false} DuplicatesReported(all: seq<Node>, k: nat)
    requires k <= |all|
    ensures forall x :: x in DuplicateReports(all, k) <==> IdDefect(all[..k], x)
  {
    if k > 0 {
      DuplicatesReported(all, k - 1);
      RepeatedNext(all, k - 1);
    }
  }

  lemma {:induction false} EndpointsReported(nodes: seq<Node>, all: seq<Edge>, k: nat)
    requires k <= |all|
    ensures forall x :: x in EndpointReports(nodes, all, k) <==> EndpointDefect(nodes, all[..k], x)
  {
    if k > 0 {
      EndpointsReported(nodes, all, k - 1);
      assert all[..k] == all[..k - 1] + [all[k - 1]];
    }
  }

  lemma {:induction false} EndsReported(nodes: seq<Node>, edges: seq<Edge>, endIds: seq<Id>, k: nat)
    requires k <= |endIds|
    ensures forall x :: x in EndReports(nodes, edges, endIds, k) <==> EndDefect(nodes, edges, endIds[..k], x)
  {
    if k > 0 {
      EndsReported(nodes, edges, endIds, k - 1);
      assert endIds[..k] == endIds[..k - 1] + [endIds[k - 1]];
    }
  }

  lemma {:induction false} JoinsReported(nodes: seq<Node>, edges: seq<Edge>, k: nat)
    requires k <= |nodes|
    ensures forall x :: x in JoinReports(nodes, edges, k) <==> JoinDefect(nodes, edges, k, x)
  {
    if k > 0 {
      JoinsReported(nodes, edges, k - 1);
      assert nodes[..k] == nodes[..k - 1] + [nodes[k - 1]];
    }
  }

  lemma {:induction false} BranchesReported(nodes: seq<Node>, edges: seq<Edge>, k: nat)
    requires k <= |edges|
    ensures forall x :: x in BranchReports(nodes, edges, k) <==> BranchDefect(nodes, edges[..k], x)
  {
    if k > 0 {
      BranchesReported(nodes, edges, k - 1);
      assert edges[..k] == edges[..k - 1] + [edges[k - 1]];
    }
  }

  lemma {:induction false} UnreachedReported(nodes: seq<Node>, edges: seq<Edge>, start: Id, k: nat)
    requires DistinctIds(nodes) && k <= |nodes|
    ensures forall x :: x in ReachReports(nodes, edges, start, k) <==>
              ReachDefect(nodes, edges, start, x) && x.id in Ids(nodes[..k])
  {
    if k > 0 {
      UnreachedReported(nodes, edges, start, k - 1);
      assert nodes[..k] == nodes[..k - 1] + [nodes[k - 1]];
      assert Ids(nodes[..k]) == Ids(nodes[..k - 1]) + {nodes[k - 1].id};
      LookupMember(nodes, nodes[k - 1]);
    }
  }

  lemma RepeatedNext(all: seq<Node>, k: nat)
    requires k < |all|
    ensures all[..k + 1][..k] == all[..k] && all[..k + 1] == all[..k] + [all[k]]
    ensures forall id :: Repeated(all[..k + 1], id) <==>
              Repeated(all[..k], id) || (id == all[k].id && id in Ids(all[..k]))
  {
    var now, next := all[..k], all[..k + 1];
    forall id ensures Repeated(next, id) <==> Repeated(now, id) || (id == all[k].id && id in Ids(now)) {
      if Repeated(next, id) {
        var i, j :| 0 <= i < j < |next| && next[i].id == id == next[j].id;
        assert now[i] in now;
        if j < k {
          assert now[i].id == id == now[j].id;
        }
      }
      if Repeated(now, id) {
        var i, j :| 0 <= i < j < |now| && now[i].id == id == now[j].id;
        assert next[i].id == id == next[j].id;
      }
      if id == all[k].id && id in Ids(now) {
        var n :| n in now && n.id == id;
        var i :| 0 <= i < |now| && now[i] == n;
        assert next[i].id == id == next[k].id;
      }
    }
  }

  // ---- the checks ----------------------------------------------------------

  method CheckDuplicates(all: seq<Node>) returns (found: seq<Violation>, nodes: seq<Node>)
    ensures nodes == Table(all) && found == DuplicateReports(all, |all|)
    ensures forall x :: x in found <==> IdDefect(all, x)
  {
    found, nodes := [], [];
    for k := 0 to |all|
      invariant nodes == Table(all[..k]) && found == DuplicateReports(all, k)
    {
      assert all[..k + 1][..k] == all[..k];
      if all[k].id in Ids(nodes) {
        found := found + [DuplicateId(all[k].id)];
      } else {
        nodes := nodes + [all[k]];
      }
    }
    assert all[..|all|] == all;
    DuplicatesReported(all, |all|);
  }

  method CheckEndpoints(nodes: seq<Node>, all: seq<Edge>) returns (found: seq<Violation>, edges: seq<Edge>)
    ensures edges == CleanEdges(nodes, all) && found == EndpointReports(nodes, all, |all|)
    ensures forall x :: x in found <==> EndpointDefect(nodes, all, x)
  {
    found, edges := [], [];
    for k := 0 to |all|
      invariant edges == CleanEdges(nodes, all[..k]) && found == EndpointReports(nodes, all, k)
    {
      var e := all[k];
      assert all[..k + 1][..k] == all[..k];
      if e.source !in Ids(nodes) {
        found := found + [UnknownSource(e.id, e.source)];
      } else if e.target !in Ids(nodes) {
        found := found + [UnknownTarget(e.id, e.target)];
      } else {
        edges := edges + [e];
      }
    }
    assert all[..|all|] == all;
    EndpointsReported(nodes, all, |all|);
  }

  method TestEntry(nodes: seq<Node>, edges: seq<Edge>, markers: Markers, into: seq<Edge>) returns (fine: bool)
    requires Exact(nodes, edges, markers)
    requires forall e :: e in into ==> e.source in markers
    ensures fine <==> MayEnterEnd(nodes, edges, into)
  {
    forall i, j | 0 <= i < j < |into|
      ensures MutuallyExclusive(markers[into[i].source], markers[into[j].source])
         <==> Separable(nodes, edges, into[i].source, into[j].source)
    {
      ExclusiveMeansSeparated(nodes, edges, markers, into[i].source, into[j].source);
    }
    fine := || |into| == 1
            || (|into| > 1 && forall i, j :: 0 <= i < j < |into| ==>
                  MutuallyExclusive(markers[into[i].source], markers[into[j].source]));
  }

  /** The End rule for one End. */
  method ReportEnd(nodes: seq<Node>, edges: seq<Edge>, markers: Markers, id: Id) returns (report: seq<Violation>)
    requires Exact(nodes, edges, markers) && forall e :: e in edges ==> e.source in markers
    ensures report == EndReport(nodes, edges, id)
  {
    var into := ExecIncoming(nodes, edges, id);
    var fine := TestEntry(nodes, edges, markers, into);
    report := if fine then [] else [EndIncoming(id, |into|)];
  }

  method CheckEnds(nodes: seq<Node>, edges: seq<Edge>, endIds: seq<Id>) returns (found: seq<Violation>)
    requires WellAddressed(nodes, edges)
    requires forall e :: e in edges ==> e.source in Ids(nodes)
    ensures found == EndReports(nodes, edges, endIds, |endIds|)
    ensures forall x :: x in found <==> EndDefect(nodes, edges, endIds, x)
  {
    var markers := ComputeMarkers(nodes, edges);
    found := [];
    for k := 0 to |endIds|
      invariant found == EndReports(nodes, edges, endIds, k)
    {
      var report := ReportEnd(nodes, edges, markers, endIds[k]);
      found := found + report;
    }
    assert endIds[..|endIds|] == endIds;
    EndsReported(nodes, edges, endIds, |endIds|);
  }

  /** The Join rule for one node. */
  method ReportJoin(nodes: seq<Node>, edges: seq<Edge>, v: Node) returns (report: seq<Violation>)
    ensures report == JoinReport(nodes, edges, v)
  {
    report := [];
    if v.kind.Join? {
      var n := |ExecOutgoing(nodes, edges, v.id)|;
      if n != 1 {
        report := [JoinOutgoing(v.id, n)];
      }
    }
  }

  method CheckJoins(nodes: seq<Node>, edges: seq<Edge>) returns (found: seq<Violation>)
    ensures found == JoinReports(nodes, edges, |nodes|)
    ensures forall x :: x in found <==> JoinDefect(nodes, edges, |nodes|, x)
  {
    found := [];
    for k := 0 to |nodes|
      invariant found == JoinReports(nodes, edges, k)
    {
      var report := ReportJoin(nodes, edges, nodes[k]);
      found := found + report;
    }
    JoinsReported(nodes, edges, |nodes|);
  }

  method CheckBranches(nodes: seq<Node>, edges: seq<Edge>) returns (found: seq<Violation>)
    ensures found == BranchReports(nodes, edges, |edges|)
    ensures forall x :: x in found <==> BranchDefect(nodes, edges, x)
  {
    found := [];
    for k := 0 to |edges|
      invariant found == BranchReports(nodes, edges, k)
    {
      var e := edges[k];
      if Conditional(KindOf(nodes, e.source)) {
        if e.branch.None? {
          found := found + [MissingBranch(e.id, e.source)];
        }
      } else if e.branch.Some? {
        found := found + [UnexpectedBranch(e.id, e.branch.value, e.source)];
      }
    }
    assert edges[..|edges|] == edges;
    BranchesReported(nodes, edges, |edges|);
  }

  /** Targets of executable edges, by source. */
  method OutgoingMap(nodes: seq<Node>, edges: seq<Edge>) returns (out: map<Id, seq<Id>>)
    requires forall e :: e in edges ==> e.source in Ids(nodes)
    ensures out.Keys == Ids(nodes)
    ensures forall u, v :: u in out ==> (v in out[u] <==> (u, v) in ExecArcs(nodes, edges))
  {
    out := map id | id in Ids(nodes) :: [];
    for k := 0 to |edges|
      invariant out.Keys == Ids(nodes)
      invariant forall u, v :: u in out ==> (v in out[u] <==> (u, v) in ExecArcs(nodes, edges[..k]))
    {
      var e := edges[k];
      assert edges[..k + 1] == edges[..k] + [e];
      if Executable(nodes, e.source) && Executable(nodes, e.target) {
        assert ExecArcs(nodes, edges[..k + 1]) == ExecArcs(nodes, edges[..k]) + {(e.source, e.target)};
        out := out[e.source := out[e.source] + [e.target]];
      } else {
        assert ExecArcs(nodes, edges[..k + 1]) == ExecArcs(nodes, edges[..k]);
      }
    }
    assert edges[..|edges|] == edges;
  }

  /** Breadth-first search visits exactly the nodes a path leads to. */
  method Search(nodes: seq<Node>, edges: seq<Edge>, start: Id) returns (reachable: set<Id>)
    requires forall e :: e in edges ==> e.source in Ids(nodes) && e.target in Ids(nodes)
    requires start in Ids(nodes)
    ensures forall v :: v in reachable <==> Reaches(ExecArcs(nodes, edges), start, v)
  {
    ghost var arcs := ExecArcs(nodes, edges);
    var out := OutgoingMap(nodes, edges);
    reachable := {};
    var queue := [start];
    ReachesSelf(arcs, start);
    while queue != []
      invariant reachable <= Ids(nodes) && forall v :: v in queue ==> v in Ids(nodes)
      invariant start in reachable || start in queue
      invariant forall v :: v in reachable || v in queue ==> Reaches(arcs, start, v)
      invariant forall u, v :: u in reachable && (u, v) in arcs ==> v in reachable || v in queue
      decreases |Ids(nodes) - reachable|, |queue|
    {
      var current := queue[0];
      ghost var waiting := queue;
      queue := queue[1..];
      assert waiting == [current] + queue;
      if current !in reachable {
        forall v | v in out[current] ensures v in Ids(nodes) && Reaches(arcs, start, v) {
          ReachesArc(arcs, current, v);
          ReachesTrans(arcs, start, current, v);
        }
        assert Ids(nodes) - (reachable + {current}) < Ids(nodes) - reachable;
        SubsetCard(Ids(nodes) - (reachable + {current}), Ids(nodes) - reachable);
        reachable := reachable + {current};
        queue := queue + out[current];
      }
    }
    forall v | Reaches(arcs, start, v) ensures v in reachable {
      ReachesStaysInside(arcs, reachable, start, v);
    }
  }

  lemma SubsetCard(a: set<Id>, b: set<Id>)
    requires a < b
    ensures |a| < |b|
  {
    assert b == a + (b - a);
    assert |b| == |a| + |b - a|;
    assert b - a != {};
  }

  method CheckReachability(nodes: seq<Node>, edges: seq<Edge>, start: Id) returns (found: seq<Violation>)
    requires DistinctIds(nodes)
    requires forall e :: e in edges ==> e.source in Ids(nodes) && e.target in Ids(nodes)
    requires start in Ids(nodes)
    ensures found == ReachReports(nodes, edges, start, |nodes|)
    ensures forall x :: x in found <==> ReachDefect(nodes, edges, start, x)
  {
    var reachable := Search(nodes, edges, start);
    found := [];
    for k := 0 to |nodes|
      invariant found == ReachReports(nodes, edges, start, k)
    {
      if !VisualOnly(nodes[k].kind) && nodes[k].id !in reachable {
        found := found + [Unreachable(nodes[k].id)];
      }
    }
    assert nodes[..|nodes|] == nodes;
    UnreachedReported(nodes, edges, start, |nodes|);
  }

  method CheckCounts(all: seq<Node>) returns (found: seq<Violation>)
    ensures found == CountReports(all)
    ensures forall x :: x in found <==> CountDefect(all, x)
  {
    var starts := StartIds(all);
    found := if |starts| != 1 then [StartCount(|starts|)] else [];
    if EndIds(all) == [] {
      found := found + [NoEnd];
    }
  }

  // ---- all of them ----------------------------------------------------------

  /** The list holds the defects and nothing else. */
  lemma ReportsAreDefects(w: Workflow, x: Violation)
    ensures x in Reports(w) <==> Defect(w, x)
  {
    var nodes, starts, ends := Table(w.nodes), StartIds(w.nodes), EndIds(w.nodes);
    var edges := CleanEdges(nodes, w.edges);
    DuplicatesReported(w.nodes, |w.nodes|);
    EndpointsReported(nodes, w.edges, |w.edges|);
    assert w.nodes[..|w.nodes|] == w.nodes && w.edges[..|w.edges|] == w.edges;
    CountsReported(w.nodes, x);
    if |starts| == 1 {
      GraphReported(nodes, edges, starts[0], ends, x);
    }
  }

  lemma CountsReported(all: seq<Node>, x: Violation)
    ensures x in CountReports(all) <==> CountDefect(all, x)
  {
  }

  lemma GraphReported(nodes: seq<Node>, edges: seq<Edge>, start: Id, endIds: seq<Id>, x: Violation)
    requires DistinctIds(nodes)
    ensures x in GraphReports(nodes, edges, start, endIds) <==>
            || EndDefect(nodes, edges, endIds, x) || JoinDefect(nodes, edges, |nodes|, x)
            || BranchDefect(nodes, edges, x) || ReachDefect(nodes, edges, start, x)
  {
    EndsReported(nodes, edges, endIds, |endIds|);
    JoinsReported(nodes, edges, |nodes|);
    BranchesReported(nodes, edges, |edges|);
    UnreachedReported(nodes, edges, start, |nodes|);
    assert endIds[..|endIds|] == endIds && edges[..|edges|] == edges && nodes[..|nodes|] == nodes;
  }

  ghost predicate RankedWithin(xs: seq<Violation>, lo: nat, hi: nat) {
    Ordered(xs) && forall x :: x in xs ==> lo <= Rank(x) <= hi
  }

  lemma RankedAppend(xs: seq<Violation>, ys: seq<Violation>, lo: nat, mid: nat, top: nat, hi: nat)
    requires RankedWithin(xs, lo, mid) && RankedWithin(ys, top, hi) && lo <= mid <= top <= hi
    ensures RankedWithin(xs + ys, lo, hi)
  {
    var zs := xs + ys;
    forall i, j | 0 <= i < j < |zs| ensures Rank(zs[i]) <= Rank(zs[j]) {
      if i < |xs| <= j {
        assert zs[i] in xs && zs[j] in ys;
      }
    }
  }

  lemma RankedSame(xs: seq<Violation>, k: nat)
    requires forall x :: x in xs ==> Rank(x) == k
    ensures RankedWithin(xs, k, k)
  {
  }

  ghost predicate AllRanked(xs: seq<Violation>, k: nat) {
    forall x :: x in xs ==> Rank(x) == k
  }

  lemma FourRanked(a: seq<Violation>, b: seq<Violation>, c: seq<Violation>, d: seq<Violation>)
    requires AllRanked(a, 5) && AllRanked(b, 6) && AllRanked(c, 7) && AllRanked(d, 8)
    ensures RankedWithin(a + b + c + d, 5, 8)
  {
    RankedSame(a, 5);
    RankedSame(b, 6);
    RankedSame(c, 7);
    RankedSame(d, 8);
    RankedAppend(a, b, 5, 5, 6, 6);
    RankedAppend(a + b, c, 5, 6, 7, 7);
    RankedAppend(a + b + c, d, 5, 7, 8, 8);
  }

  lemma RanksAppend(xs: seq<Violation>, ys: seq<Violation>, k: nat)
    requires AllRanked(xs, k) && AllRanked(ys, k)
    ensures AllRanked(xs + ys, k)
  {
  }

  lemma EndRank(nodes: seq<Node>, edges: seq<Edge>, id: Id)
    ensures AllRanked(EndReport(nodes, edges, id), 5)
  {
  }

  lemma JoinRank(nodes: seq<Node>, edges: seq<Edge>, v: Node)
    ensures AllRanked(JoinReport(nodes, edges, v), 6)
  {
  }

  lemma {:induction false} EndRanks(nodes: seq<Node>, edges: seq<Edge>, endIds: seq<Id>, k: nat)
    requires k <= |endIds|
    ensures AllRanked(EndReports(nodes, edges, endIds, k), 5)
  {
    if k > 0 {
      EndRanks(nodes, edges, endIds, k - 1);
      EndRank(nodes, edges, endIds[k - 1]);
      RanksAppend(EndReports(nodes, edges, endIds, k - 1), EndReport(nodes, edges, endIds[k - 1]), 5);
    }
  }

  lemma {:induction false} JoinRanks(nodes: seq<Node>, edges: seq<Edge>, k: nat)
    requires k <= |nodes|
    ensures AllRanked(JoinReports(nodes, edges, k), 6)
  {
    if k > 0 {
      JoinRanks(nodes, edges, k - 1);
      JoinRank(nodes, edges, nodes[k - 1]);
      RanksAppend(JoinReports(nodes, edges, k - 1), JoinReport(nodes, edges, nodes[k - 1]), 6);
    }
  }

  lemma {:induction false} BranchRanks(nodes: seq<Node>, edges: seq<Edge>, k: nat)
    requires k <= |edges|
    ensures AllRanked(BranchReports(nodes, edges, k), 7)
  {
    if k > 0 {
      BranchRanks(nodes, edges, k - 1);
    }
  }

  lemma {:induction false} ReachRanks(nodes: seq<Node>, edges: seq<Edge>, start: Id, k: nat)
    requires k <= |nodes|
    ensures AllRanked(ReachReports(nodes, edges, start, k), 8)
  {
    if k > 0 {
      ReachRanks(nodes, edges, start, k - 1);
    }
  }

  lemma GraphReportsRanked(nodes: seq<Node>, edges: seq<Edge>, start: Id, endIds: seq<Id>)
    ensures RankedWithin(GraphReports(nodes, edges, start, endIds), 5, 8)
  {
    EndRanks(nodes, edges, endIds, |endIds|);
    JoinRanks(nodes, edges, |nodes|);
    BranchRanks(nodes, edges, |edges|);
    ReachRanks(nodes, edges, start, |nodes|);
    FourRanked(EndReports(nodes, edges, endIds, |endIds|), JoinReports(nodes, edges, |nodes|),
      BranchReports(nodes, edges, |edges|), ReachReports(nodes, edges, start, |nodes|));
  }

  lemma BasicReportsRanked(all: seq<Node>, nodes: seq<Node>, edges: seq<Edge>)
    ensures RankedWithin(
              DuplicateReports(all, |all|) + CountReports(all) + EndpointReports(nodes, edges, |edges|), 1, 4)
  {
    var duplicates, counts, endpoints :=
        DuplicateReports(all, |all|), CountReports(all), EndpointReports(nodes, edges, |edges|);
    DuplicatesReported(all, |all|);
    EndpointsReported(nodes, edges, |edges|);
    RankedSame(duplicates, 1);
    RankedSame(endpoints, 4);
    RankedAppend(duplicates, counts, 1, 1, 2, 3);
    RankedAppend(duplicates + counts, endpoints, 1, 3, 4, 4);
  }

  /** The checks come in their documented order. */
  lemma ReportsOrdered(w: Workflow)
    ensures Ordered(Reports(w))
  {
    var nodes, starts := Table(w.nodes), StartIds(w.nodes);
    BasicReportsRanked(w.nodes, nodes, w.edges);
    var basic :=
        DuplicateReports(w.nodes, |w.nodes|) + CountReports(w.nodes) + EndpointReports(nodes, w.edges, |w.edges|);
    if |starts| == 1 {
      var more := GraphReports(nodes, CleanEdges(nodes, w.edges), starts[0], EndIds(w.nodes));
      GraphReportsRanked(nodes, CleanEdges(nodes, w.edges), starts[0], EndIds(w.nodes));
      RankedAppend(basic, more, 1, 4, 5, 8);
    } else {
      assert basic + [] == basic;
    }
  }

  /** Checks 5 to 8, made only on a workflow with one Start. */
  method GraphChecks(nodes: seq<Node>, edges: seq<Edge>, start: Id, endIds: seq<Id>) returns (found: seq<Violation>)
    requires DistinctIds(nodes) && start in Ids(nodes)
    requires forall e :: e in edges ==> e.source in Ids(nodes) && e.target in Ids(nodes)
    ensures found == GraphReports(nodes, edges, start, endIds)
  {
    var ends := CheckEnds(nodes, edges, endIds);
    var joins := CheckJoins(nodes, edges);
    var branches := CheckBranches(nodes, edges);
    var unreached := CheckReachability(nodes, edges, start);
    found := ends + joins + branches + unreached;
  }

  /**
   * All violations: exactly the defects, and exactly the list of reports. Past a wrong number of
   * Starts only the first four checks are made.
   */
  method CollectViolations(w: Workflow) returns (found: seq<Violation>)
    ensures found == Reports(w)
    ensures forall x :: x in found <==> Defect(w, x)
    ensures found == [] <==> Valid(w)
    ensures Ordered(found)
  {
    var startIds := StartIds(w.nodes);
    var duplicates, nodes := CheckDuplicates(w.nodes);
    var counts := CheckCounts(w.nodes);
    var endpoints, edges := CheckEndpoints(nodes, w.edges);
    found := duplicates + counts + endpoints;
    if |startIds| == 1 {
      assert startIds[0] in startIds;
      var more := GraphChecks(nodes, edges, startIds[0], EndIds(w.nodes));
      found := found + more;
    }
    assert found == Reports(w);
    forall x ensures x in found <==> Defect(w, x) {
      ReportsAreDefects(w, x);
    }
    ReportsOrdered(w);
    assert found != [] ==> found[0] in found;
  }
}
