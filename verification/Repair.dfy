/**
 * What the builder's graph repair computes, as functions on drafts. Generated
 * edge ids carry no meaning: edges the repair adds have the empty id here, and
 * drafts are compared with ids stripped.
 */
module Repair {
  import opened Wrappers
  import opened Digraph
  import opened Workflows
  import opened Validation

  function Strip(edges: seq<Edge>): (r: seq<Edge>)
    ensures |r| == |edges| && forall i :: 0 <= i < |r| ==> r[i] == edges[i].(id := "")
  {
    seq(|edges|, i requires 0 <= i < |edges| => edges[i].(id := ""))
  }

  function Link(source: Id, target: Id): Edge {
    Edge("", source, target, None)
  }

  // ---- merging Starts ------------------------------------------------------

  function Without(nodes: seq<Node>, id: Id): (r: seq<Node>)
    ensures forall n :: n in r <==> n in nodes && n.id != id
    ensures DistinctIds(nodes) ==> DistinctIds(r)
  {
    if nodes == [] then []
    else
      var k := |nodes| - 1;
      assert nodes == nodes[..k] + [nodes[k]];
      Without(nodes[..k], id) + (if nodes[k].id == id then [] else [nodes[k]])
  }

  /** Edges into a Start that is being merged go; edges out of it now leave the kept one. */
  function Redirect(edges: seq<Edge>, extra: Id, kept: Id): seq<Edge> {
    if edges == [] then []
    else
      var k := |edges| - 1;
      var e := edges[k];
      Redirect(edges[..k], extra, kept)
        + (if e.target == extra then [] else if e.source == extra then [e.(source := kept)] else [e])
  }

  /** Every redirected edge stems from one that does not enter the merged Start. */
  lemma {:induction false} RedirectFrom(edges: seq<Edge>, extra: Id, kept: Id, f: Edge) returns (e: Edge)
    requires f in Redirect(edges, extra, kept)
    ensures e in edges && e.target != extra && f == if e.source == extra then e.(source := kept) else e
  {
    var k := |edges| - 1;
    if f in Redirect(edges[..k], extra, kept) {
      e := RedirectFrom(edges[..k], extra, kept, f);
    } else {
      e := edges[k];
    }
  }

  function Absorb(w: Workflow, kept: Id, extra: Id): Workflow {
    Workflow(Without(w.nodes, extra), Redirect(w.edges, extra, kept))
  }

  function AbsorbAll(w: Workflow, kept: Id, extras: seq<Id>): Workflow {
    if extras == [] then w
    else
      var k := |extras| - 1;
      Absorb(AbsorbAll(w, kept, extras[..k]), kept, extras[k])
  }

  function Names(vars: seq<Variable>): set<string> {
    set v | v in vars :: v.name
  }

  /** vars, then those of more whose names are still free, in order. */
  function AddVariables(vars: seq<Variable>, more: seq<Variable>): (r: seq<Variable>)
    ensures vars <= r
  {
    if more == [] then vars
    else
      var r := AddVariables(vars, more[..|more| - 1]);
      if more[|more| - 1].name in Names(r) then r else r + [more[|more| - 1]]
  }

  lemma {:induction false} AddedNames(vars: seq<Variable>, more: seq<Variable>)
    ensures Names(AddVariables(vars, more)) == Names(vars) + Names(more)
  {
    if more != [] {
      var k := |more| - 1;
      var r := AddVariables(vars, more[..k]);
      AddedNames(vars, more[..k]);
      assert more == more[..k] + [more[k]];
      assert Names(r + [more[k]]) == Names(r) + {more[k].name};
      assert Names(more) == Names(more[..k]) + {more[k].name};
    }
  }

  function VariablesOf(nodes: seq<Node>, id: Id): seq<Variable> {
    var n := Lookup(nodes, id);
    if n.Some? && n.value.kind.Start? then n.value.kind.inputVariables else []
  }

  function MergedVariables(nodes: seq<Node>, kept: Id, extras: seq<Id>): (r: seq<Variable>)
    ensures VariablesOf(nodes, kept) <= r
    ensures forall id :: id in extras ==> Names(VariablesOf(nodes, id)) <= Names(r)
  {
    if extras == [] then VariablesOf(nodes, kept)
    else
      var k := |extras| - 1;
      assert extras == extras[..k] + [extras[k]];
      var vars := MergedVariables(nodes, kept, extras[..k]);
      AddedNames(vars, VariablesOf(nodes, extras[k]));
      AddVariables(vars, VariablesOf(nodes, extras[k]))
  }

  function SetVariables(nodes: seq<Node>, id: Id, vars: seq<Variable>): (r: seq<Node>)
    ensures |r| == |nodes|
    ensures forall i :: 0 <= i < |nodes| ==> r[i] == if nodes[i].id == id then Node(id, Start(vars)) else nodes[i]
  {
    seq(|nodes|, i requires 0 <= i < |nodes| => if nodes[i].id == id then Node(id, Start(vars)) else nodes[i])
  }

  function MergeStarts(w: Workflow): Workflow {
    var starts := StartIds(w.nodes);
    if |starts| < 2 then w
    else
      var m := AbsorbAll(w, starts[0], starts[1..]);
      Workflow(SetVariables(m.nodes, starts[0], MergedVariables(w.nodes, starts[0], starts[1..])), m.edges)
  }

  // ---- endpoints -----------------------------------------------------------

  function EnsureStart(w: Workflow, id: Id): Workflow {
    if StartIds(w.nodes) == [] && w.nodes != [] then w.(nodes := w.nodes + [Node(id, Start([]))]) else w
  }

  function EnsureEnd(w: Workflow, id: Id): Workflow {
    if EndIds(w.nodes) == [] && w.nodes != [] then w.(nodes := w.nodes + [Node(id, End)]) else w
  }

  // ---- wiring --------------------------------------------------------------

  predicate HasExecIn(nodes: seq<Node>, edges: seq<Edge>, id: Id) {
    exists e :: e in edges && e.target == id && Executable(nodes, e.source)
  }

  predicate HasExecOut(nodes: seq<Node>, edges: seq<Edge>, id: Id) {
    exists e :: e in edges && e.source == id && Executable(nodes, e.target)
  }

  predicate NeedsIn(nodes: seq<Node>, edges: seq<Edge>, start: Id, n: Node) {
    n.id != start && !VisualOnly(n.kind) && !n.kind.End? && !HasExecIn(nodes, edges, n.id)
  }

  /** Chain heads from position k on hang off Start. */
  function AddHeads(nodes: seq<Node>, edges: seq<Edge>, start: Id, k: nat): seq<Edge>
    requires k <= |nodes|
    decreases |nodes| - k
  {
    if k == |nodes| then edges
    else if NeedsIn(nodes, edges, start, nodes[k]) then
      AddHeads(nodes, edges + [Link(start, nodes[k].id)], start, k + 1)
    else AddHeads(nodes, edges, start, k + 1)
  }

  predicate Shortcut(e: Edge, start: Id, ends: seq<Id>) {
    e.source == start && e.target in ends
  }

  /** An edge other than the one at k leaves Start or enters the same target. */
  predicate HasOther(edges: seq<Edge>, start: Id, k: nat)
    requires k < |edges|
  {
    exists i :: 0 <= i < |edges| && i != k && (edges[i].source == start || edges[i].target == edges[k].target)
  }

  /** Start-to-End shortcuts from position k on go if anything runs beside them. */
  function DropShortcuts(edges: seq<Edge>, start: Id, ends: seq<Id>, k: nat): seq<Edge>
    requires k <= |edges|
    decreases |edges| - k
  {
    if k == |edges| then edges
    else if Shortcut(edges[k], start, ends) && HasOther(edges, start, k) then
      DropShortcuts(edges[..k] + edges[k + 1..], start, ends, k)
    else DropShortcuts(edges, start, ends, k + 1)
  }

  predicate NeedsOut(nodes: seq<Node>, edges: seq<Edge>, start: Id, end: Id, n: Node) {
    && n.id != start && n.id != end && !VisualOnly(n.kind)
    && !Conditional(n.kind) && !n.kind.End?
    && !HasExecOut(nodes, edges, n.id)
  }

  /** Chain tails from position k on feed the End. */
  function AddTails(nodes: seq<Node>, edges: seq<Edge>, start: Id, end: Id, k: nat): seq<Edge>
    requires k <= |nodes|
    decreases |nodes| - k
  {
    if k == |nodes| then edges
    else if NeedsOut(nodes, edges, start, end, nodes[k]) then
      AddTails(nodes, edges + [Link(nodes[k].id, end)], start, end, k + 1)
    else AddTails(nodes, edges, start, end, k + 1)
  }

  function WireEnd(nodes: seq<Node>, edges: seq<Edge>, start: Id, end: Id): seq<Edge> {
    var tailed := AddTails(nodes, edges, start, end, 0);
    if HasExecIn(nodes, tailed, end) then tailed else tailed + [Link(start, end)]
  }

  function Wire(nodes: seq<Node>, edges: seq<Edge>, start: Id, ends: seq<Id>): seq<Edge> {
    var trimmed := DropShortcuts(AddHeads(nodes, edges, start, 0), start, ends, 0);
    if |ends| != 1 then trimmed else WireEnd(nodes, trimmed, start, ends[0])
  }

  /** The whole repair; startId and endId name the endpoints it may have to create. */
  function Normalize(w: Workflow, startId: Id, endId: Id): Workflow {
    var m := EnsureEnd(EnsureStart(MergeStarts(w), startId), endId);
    var start := StartId(m.nodes);
    if start.None? then m else m.(edges := Wire(m.nodes, m.edges, start.value, EndIds(m.nodes)))
  }
}
