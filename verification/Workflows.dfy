/** Nodes, edges and workflows, as far as their shape and routing go. */
module Workflows {
  import opened Wrappers
  import opened Digraph

  datatype Variable = Variable(name: string, spec: string)

  datatype DecisionMode = Binary | Choice(options: seq<string>)

  /** Task stands for every node type without shape or routing rules of its own. */
  datatype Kind =
    | Start(inputVariables: seq<Variable>)
    | End
    | Note
    | FileTrigger
    | IfElse(condition: string)
    | While(condition: string)
    | UserApproval
    | Decision(mode: DecisionMode)
    | Join
    | Task(typeName: string, config: string)

  datatype Node = Node(id: Id, kind: Kind)

  datatype Edge = Edge(id: Id, source: Id, target: Id, branch: Option<string>)

  datatype Workflow = Workflow(nodes: seq<Node>, edges: seq<Edge>)

  predicate VisualOnly(k: Kind) {
    k.Note? || k.FileTrigger?
  }

  predicate Conditional(k: Kind) {
    k.IfElse? || k.While? || k.UserApproval? || k.Decision?
  }

  function Ids(nodes: seq<Node>): (ids: set<Id>) {
    set n | n in nodes :: n.id
  }

  /** The node table: a later node never displaces an earlier one of the same id. */
  function Lookup(nodes: seq<Node>, id: Id): (r: Option<Node>)
    ensures r.Some? ==> r.value in nodes && r.value.id == id
    ensures r.None? <==> id !in Ids(nodes)
  {
    LookupFrom(nodes, 0, id)
  }

  function LookupFrom(nodes: seq<Node>, k: nat, id: Id): (r: Option<Node>)
    requires k <= |nodes|
    ensures r.Some? ==> r.value in nodes && r.value.id == id
    ensures r.None? <==> forall i :: k <= i < |nodes| ==> nodes[i].id != id
    decreases |nodes| - k
  {
    if k == |nodes| then None
    else if nodes[k].id == id then Some(nodes[k])
    else LookupFrom(nodes, k + 1, id)
  }

  ghost predicate DistinctIds(nodes: seq<Node>) {
    forall i, j :: 0 <= i < j < |nodes| ==> nodes[i].id != nodes[j].id
  }

  lemma LookupMember(nodes: seq<Node>, n: Node)
    requires DistinctIds(nodes) && n in nodes
    ensures Lookup(nodes, n.id) == Some(n)
  {
    var m := Lookup(nodes, n.id).value;
    var i :| 0 <= i < |nodes| && nodes[i] == n;
    var j :| 0 <= j < |nodes| && nodes[j] == m;
    assert !(i < j) && !(j < i);
  }

  /** Distinct ids make the id table as large as the list. */
  lemma {:induction false} IdsCard(nodes: seq<Node>)
    requires DistinctIds(nodes)
    ensures |Ids(nodes)| == |nodes|
  {
    if nodes != [] {
      var rest := nodes[1..];
      assert nodes == [nodes[0]] + rest;
      IdsCard(rest);
      assert Ids(nodes) == {nodes[0].id} + Ids(rest);
      assert nodes[0].id !in Ids(rest);
    }
  }

  predicate IsKnown(nodes: seq<Node>, id: Id) {
    Lookup(nodes, id).Some?
  }

  predicate Executable(nodes: seq<Node>, id: Id) {
    var n := Lookup(nodes, id);
    n.Some? && !VisualOnly(n.value.kind)
  }

  /** Id of the first Start node, if any. */
  function StartId(nodes: seq<Node>): (r: Option<Id>)
    ensures r.Some? <==> exists n :: n in nodes && n.kind.Start?
    ensures r.Some? ==> exists n :: n in nodes && n.kind.Start? && n.id == r.value
  {
    StartIdFrom(nodes, 0)
  }

  function StartIdFrom(nodes: seq<Node>, k: nat): (r: Option<Id>)
    requires k <= |nodes|
    ensures r.Some? <==> exists i :: k <= i < |nodes| && nodes[i].kind.Start?
    ensures r.Some? ==> exists i :: k <= i < |nodes| && nodes[i].kind.Start? && nodes[i].id == r.value
    decreases |nodes| - k
  {
    if k == |nodes| then None
    else if nodes[k].kind.Start? then Some(nodes[k].id)
    else StartIdFrom(nodes, k + 1)
  }

  /** Arcs between executable nodes. */
  ghost function ExecArcs(nodes: seq<Node>, edges: seq<Edge>): Arcs {
    set e | e in edges && Executable(nodes, e.source) && Executable(nodes, e.target)
      :: (e.source, e.target)
  }
}
