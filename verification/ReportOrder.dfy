/**
 * The order within each check of the validator: its reports are the defects
 * its nodes, edges or Ends have one by one, in the order these come in.
 */
module ReportOrder {
  import opened Wrappers
  import opened Digraph
  import opened Workflows
  import opened Validation
  import opened Selection

  type Reported = seq<Option<Violation>>

  // ---- edge by edge ----------------------------------------------------------

  /** o is the unknown end of the edge, None if it has none. */
  ghost predicate EndpointNames(nodes: seq<Node>, e: Edge, o: Option<Violation>) {
    forall x :: o == Some(x) <==> EndpointDefect(nodes, [e], x)
  }

  lemma EndpointNamed(nodes: seq<Node>, e: Edge) returns (o: Option<Violation>)
    ensures EndpointNames(nodes, e, o) && Present(o) == (
              if e.source !in Ids(nodes) then [UnknownSource(e.id, e.source)]
              else if e.target !in Ids(nodes) then [UnknownTarget(e.id, e.target)] else [])
  {
    o := if e.source !in Ids(nodes) then Some(UnknownSource(e.id, e.source))
         else if e.target !in Ids(nodes) then Some(UnknownTarget(e.id, e.target)) else None;
    assert [e][0] == e && e in [e];
  }

  lemma EndpointsNext(nodes: seq<Node>, edges: seq<Edge>, k: nat, o: Option<Violation>)
    requires k < |edges| && EndpointNames(nodes, edges[k], o)
    ensures EndpointReports(nodes, edges, k + 1) == EndpointReports(nodes, edges, k) + Present(o)
  {
    var p := EndpointNamed(nodes, edges[k]);
    assert o.Some? ==> p == Some(o.value);
    assert p.Some? ==> o == Some(p.value);
  }

  /** Unknown ends come in the order of the edges. */
  lemma {:induction false} EndpointsInOrder(nodes: seq<Node>, edges: seq<Edge>, from: Reported)
    requires |from| == |edges| && forall i :: 0 <= i < |edges| ==> EndpointNames(nodes, edges[i], from[i])
    ensures Selected(from, EndpointReports(nodes, edges, |edges|))
  {
    var lists := seq(|edges| + 1, k requires 0 <= k <= |edges| => EndpointReports(nodes, edges, k));
    forall k | 0 <= k < |edges| ensures lists[k + 1] == lists[k] + Present(from[k]) {
      EndpointsNext(nodes, edges, k, from[k]);
    }
    Listed(lists, from);
  }

  /** o is the missing or unexpected label of the edge, None if it has neither. */
  ghost predicate BranchNames(nodes: seq<Node>, e: Edge, o: Option<Violation>) {
    forall x :: o == Some(x) <==> BranchDefect(nodes, [e], x)
  }

  lemma BranchNamed(nodes: seq<Node>, e: Edge) returns (o: Option<Violation>)
    ensures BranchNames(nodes, e, o) && Present(o) == (
              if Conditional(KindOf(nodes, e.source)) && e.branch.None? then [MissingBranch(e.id, e.source)]
              else if !Conditional(KindOf(nodes, e.source)) && e.branch.Some?
              then [UnexpectedBranch(e.id, e.branch.value, e.source)] else [])
  {
    o := if Conditional(KindOf(nodes, e.source)) && e.branch.None? then Some(MissingBranch(e.id, e.source))
         else if !Conditional(KindOf(nodes, e.source)) && e.branch.Some?
         then Some(UnexpectedBranch(e.id, e.branch.value, e.source)) else None;
    assert [e][0] == e && e in [e];
  }

  lemma BranchesNext(nodes: seq<Node>, edges: seq<Edge>, k: nat, o: Option<Violation>)
    requires k < |edges| && BranchNames(nodes, edges[k], o)
    ensures BranchReports(nodes, edges, k + 1) == BranchReports(nodes, edges, k) + Present(o)
  {
    var p := BranchNamed(nodes, edges[k]);
    assert o.Some? ==> p == Some(o.value);
    assert p.Some? ==> o == Some(p.value);
  }

  /** Missing and unexpected labels come in the order of the edges. */
  lemma {:induction false} BranchesInOrder(nodes: seq<Node>, edges: seq<Edge>, from: Reported)
    requires |from| == |edges| && forall i :: 0 <= i < |edges| ==> BranchNames(nodes, edges[i], from[i])
    ensures Selected(from, BranchReports(nodes, edges, |edges|))
  {
    var lists := seq(|edges| + 1, k requires 0 <= k <= |edges| => BranchReports(nodes, edges, k));
    forall k | 0 <= k < |edges| ensures lists[k + 1] == lists[k] + Present(from[k]) {
      BranchesNext(nodes, edges, k, from[k]);
    }
    Listed(lists, from);
  }

  // ---- End by End ------------------------------------------------------------

  /** o is what is wrong with the edges into the End, None if nothing is. */
  ghost predicate EndNames(nodes: seq<Node>, edges: seq<Edge>, id: Id, o: Option<Violation>) {
    forall x :: o == Some(x) <==> EndDefect(nodes, edges, [id], x)
  }

  lemma EndNamed(nodes: seq<Node>, edges: seq<Edge>, id: Id) returns (o: Option<Violation>)
    ensures EndNames(nodes, edges, id, o) && Present(o) == EndReport(nodes, edges, id)
  {
    var r := EndReport(nodes, edges, id);
    o := if r == [] then None else Some(r[0]);
    assert [id][0] == id;
  }

  lemma EndsNext(nodes: seq<Node>, edges: seq<Edge>, ends: seq<Id>, k: nat, o: Option<Violation>)
    requires k < |ends| && EndNames(nodes, edges, ends[k], o)
    ensures EndReports(nodes, edges, ends, k + 1) == EndReports(nodes, edges, ends, k) + Present(o)
  {
    var p := EndNamed(nodes, edges, ends[k]);
    assert o.Some? ==> p == Some(o.value);
    assert p.Some? ==> o == Some(p.value);
  }

  /** Ends that may not be entered as they are come in the order of the Ends. */
  lemma {:induction false} EndsInOrder(nodes: seq<Node>, edges: seq<Edge>, ends: seq<Id>, from: Reported)
    requires |from| == |ends| && forall i :: 0 <= i < |ends| ==> EndNames(nodes, edges, ends[i], from[i])
    ensures Selected(from, EndReports(nodes, edges, ends, |ends|))
  {
    var lists := seq(|ends| + 1, k requires 0 <= k <= |ends| => EndReports(nodes, edges, ends, k));
    forall k | 0 <= k < |ends| ensures lists[k + 1] == lists[k] + Present(from[k]) {
      EndsNext(nodes, edges, ends, k, from[k]);
    }
    Listed(lists, from);
  }

  // ---- node by node ----------------------------------------------------------

  /** o says that the node at i repeats the id of an earlier one, None if it does not. */
  ghost predicate RepeatNames(all: seq<Node>, i: nat, o: Option<Violation>)
    requires i < |all|
  {
    o == if exists j :: 0 <= j < i && all[j].id == all[i].id then Some(DuplicateId(all[i].id)) else None
  }

  lemma DuplicatesNext(all: seq<Node>, k: nat, o: Option<Violation>)
    requires k < |all| && RepeatNames(all, k, o)
    ensures DuplicateReports(all, k + 1) == DuplicateReports(all, k) + Present(o)
  {
    if all[k].id in Ids(all[..k]) {
      var n :| n in all[..k] && n.id == all[k].id;
      var j :| 0 <= j < k && all[..k][j] == n;
      assert all[j].id == all[k].id;
    }
    if j :| 0 <= j < k && all[j].id == all[k].id {
      assert all[..k][j] in all[..k];
    }
  }

  /** Repeated ids come in the order of the nodes. */
  lemma {:induction false} DuplicatesInOrder(all: seq<Node>, from: Reported)
    requires |from| == |all| && forall i :: 0 <= i < |all| ==> RepeatNames(all, i, from[i])
    ensures Selected(from, DuplicateReports(all, |all|))
  {
    var lists := seq(|all| + 1, k requires 0 <= k <= |all| => DuplicateReports(all, k));
    forall k | 0 <= k < |all| ensures lists[k + 1] == lists[k] + Present(from[k]) {
      DuplicatesNext(all, k, from[k]);
    }
    Listed(lists, from);
  }

  /** o says that v is a join without exactly one executable successor, None if it is not. */
  ghost predicate JoinNames(nodes: seq<Node>, edges: seq<Edge>, v: Node, o: Option<Violation>) {
    var n := |ExecOutgoing(nodes, edges, v.id)|;
    o == if v.kind.Join? && n != 1 then Some(JoinOutgoing(v.id, n)) else None
  }

  lemma JoinsNext(nodes: seq<Node>, edges: seq<Edge>, k: nat, o: Option<Violation>)
    requires k < |nodes| && JoinNames(nodes, edges, nodes[k], o)
    ensures JoinReports(nodes, edges, k + 1) == JoinReports(nodes, edges, k) + Present(o)
  {
  }

  /** Such joins come in the order of the nodes. */
  lemma {:induction false} JoinsInOrder(nodes: seq<Node>, edges: seq<Edge>, from: Reported)
    requires |from| == |nodes| && forall i :: 0 <= i < |nodes| ==> JoinNames(nodes, edges, nodes[i], from[i])
    ensures Selected(from, JoinReports(nodes, edges, |nodes|))
  {
    var lists := seq(|nodes| + 1, k requires 0 <= k <= |nodes| => JoinReports(nodes, edges, k));
    forall k | 0 <= k < |nodes| ensures lists[k + 1] == lists[k] + Present(from[k]) {
      JoinsNext(nodes, edges, k, from[k]);
    }
    Listed(lists, from);
  }

  /** o says that v is executable and no path from the Start enters it, None if it is not so. */
  ghost predicate UnreachedNames(nodes: seq<Node>, edges: seq<Edge>, start: Id, v: Node, o: Option<Violation>) {
    o == if !VisualOnly(v.kind) && !Reaches(ExecArcs(nodes, edges), start, v.id) then Some(Unreachable(v.id))
         else None
  }

  lemma UnreachedNext(nodes: seq<Node>, edges: seq<Edge>, start: Id, k: nat, o: Option<Violation>)
    requires k < |nodes| && UnreachedNames(nodes, edges, start, nodes[k], o)
    ensures ReachReports(nodes, edges, start, k + 1) == ReachReports(nodes, edges, start, k) + Present(o)
  {
  }

  /** Unreachable nodes come in the order of the nodes. */
  lemma {:induction false} UnreachedInOrder(nodes: seq<Node>, edges: seq<Edge>, start: Id, from: Reported)
    requires |from| == |nodes|
    requires forall i :: 0 <= i < |nodes| ==> UnreachedNames(nodes, edges, start, nodes[i], from[i])
    ensures Selected(from, ReachReports(nodes, edges, start, |nodes|))
  {
    var lists := seq(|nodes| + 1, k requires 0 <= k <= |nodes| => ReachReports(nodes, edges, start, k));
    forall k | 0 <= k < |nodes| ensures lists[k + 1] == lists[k] + Present(from[k]) {
      UnreachedNext(nodes, edges, start, k, from[k]);
    }
    Listed(lists, from);
  }

  // ---- what is counted -------------------------------------------------------

  /** The id is that of a node that runs: neither a note nor a file trigger. */
  ghost predicate Runs(nodes: seq<Node>, id: Id) {
    exists n :: n in nodes && n.id == id && !n.kind.Note? && !n.kind.FileTrigger?
  }

  lemma ExecutableRuns(nodes: seq<Node>, id: Id)
    requires DistinctIds(nodes)
    ensures Executable(nodes, id) <==> Runs(nodes, id)
  {
    if n :| n in nodes && n.id == id {
      LookupMember(nodes, n);
    }
  }

  ghost function IncomingEdge(nodes: seq<Node>, id: Id, e: Edge): Option<Edge> {
    if e.target == id && Runs(nodes, e.source) then Some(e) else None
  }

  lemma IncomingNext(nodes: seq<Node>, edges: seq<Edge>, id: Id, k: nat)
    requires DistinctIds(nodes) && k < |edges|
    ensures ExecIncoming(nodes, edges[..k + 1], id) ==
            ExecIncoming(nodes, edges[..k], id) + Present(IncomingEdge(nodes, id, edges[k]))
  {
    assert edges[..k + 1][..k] == edges[..k];
    ExecutableRuns(nodes, edges[k].source);
    ExecutableRuns(nodes, edges[k].target);
  }

  /** The End rule counts the edges into the End that leave a node that runs, each as often as it comes. */
  lemma {:induction false} IncomingInOrder(nodes: seq<Node>, edges: seq<Edge>, id: Id) returns (from: seq<Option<Edge>>)
    requires DistinctIds(nodes)
    ensures |from| == |edges| && forall i :: 0 <= i < |edges| ==> from[i] == IncomingEdge(nodes, id, edges[i])
    ensures Selected(from, ExecIncoming(nodes, edges, id))
  {
    from := seq(|edges|, i requires 0 <= i < |edges| => IncomingEdge(nodes, id, edges[i]));
    var lists := seq(|edges| + 1, k requires 0 <= k <= |edges| => ExecIncoming(nodes, edges[..k], id));
    forall k | 0 <= k < |edges| ensures lists[k + 1] == lists[k] + Present(from[k]) {
      IncomingNext(nodes, edges, id, k);
    }
    assert edges[..|edges|] == edges && edges[..0] == [];
    Listed(lists, from);
  }

  ghost function OutgoingEdge(nodes: seq<Node>, id: Id, e: Edge): Option<Edge> {
    if e.source == id && Runs(nodes, e.target) then Some(e) else None
  }

  lemma OutgoingNext(nodes: seq<Node>, edges: seq<Edge>, id: Id, k: nat)
    requires DistinctIds(nodes) && k < |edges|
    ensures ExecOutgoing(nodes, edges[..k + 1], id) ==
            ExecOutgoing(nodes, edges[..k], id) + Present(OutgoingEdge(nodes, id, edges[k]))
  {
    assert edges[..k + 1][..k] == edges[..k];
    ExecutableRuns(nodes, edges[k].source);
    ExecutableRuns(nodes, edges[k].target);
  }

  /** The Join rule counts the edges out of the Join that enter a node that runs. */
  lemma {:induction false} OutgoingInOrder(nodes: seq<Node>, edges: seq<Edge>, id: Id) returns (from: seq<Option<Edge>>)
    requires DistinctIds(nodes)
    ensures |from| == |edges| && forall i :: 0 <= i < |edges| ==> from[i] == OutgoingEdge(nodes, id, edges[i])
    ensures Selected(from, ExecOutgoing(nodes, edges, id))
  {
    from := seq(|edges|, i requires 0 <= i < |edges| => OutgoingEdge(nodes, id, edges[i]));
    var lists := seq(|edges| + 1, k requires 0 <= k <= |edges| => ExecOutgoing(nodes, edges[..k], id));
    forall k | 0 <= k < |edges| ensures lists[k + 1] == lists[k] + Present(from[k]) {
      OutgoingNext(nodes, edges, id, k);
    }
    assert edges[..|edges|] == edges && edges[..0] == [];
    Listed(lists, from);
  }

  function IfEnd(n: Node): Option<Id> {
    if n.kind.End? then Some(n.id) else None
  }

  lemma EndIdsNext(nodes: seq<Node>, k: nat)
    requires k < |nodes|
    ensures EndIds(nodes[..k + 1]) == EndIds(nodes[..k]) + Present(IfEnd(nodes[k]))
  {
    assert nodes[..k + 1][..k] == nodes[..k];
  }

  /** The Ends come in the order of the nodes. */
  lemma {:induction false} EndsListed(nodes: seq<Node>, from: seq<Option<Id>>)
    requires |from| == |nodes|
    requires forall i :: 0 <= i < |nodes| ==> from[i] == IfEnd(nodes[i])
    ensures Selected(from, EndIds(nodes))
  {
    var lists := seq(|nodes| + 1, k requires 0 <= k <= |nodes| => EndIds(nodes[..k]));
    forall k | 0 <= k < |nodes| ensures lists[k + 1] == lists[k] + Present(from[k]) {
      EndIdsNext(nodes, k);
    }
    assert nodes[..|nodes|] == nodes && nodes[..0] == [];
    Listed(lists, from);
  }
}
