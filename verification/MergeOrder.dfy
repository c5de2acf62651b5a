/** Merging extra Starts edge by edge, node by node and variable by variable, in the order these come in. */
module MergeOrder {
  import opened Wrappers
  import opened Digraph
  import opened Workflows
  import opened Validation
  import opened Repair
  import opened RepairMerge
  import opened Selection

  lemma Snoc<T>(xs: seq<T>, k: nat)
    requires k < |xs|
    ensures xs[..k + 1][..k] == xs[..k] && xs[..k + 1][k] == xs[k] && |xs[..k + 1]| == k + 1
  {
  }

  // ---- the Starts ------------------------------------------------------------

  function IfStart(): Node -> Option<Id> {
    (n: Node) => if n.kind.Start? then Some(n.id) else None
  }

  lemma StartIdsNext(nodes: seq<Node>, k: nat)
    requires k < |nodes|
    ensures StartIds(nodes[..k + 1]) == StartIds(nodes[..k]) + Present(IfStart()(nodes[k]))
  {
    Snoc(nodes, k);
  }

  /** The Starts are listed in the order of the nodes, so that the first is the one kept. */
  lemma StartsInOrder(nodes: seq<Node>)
    ensures Selected(Chosen(nodes, IfStart()), StartIds(nodes))
  {
    var from := Chosen(nodes, IfStart());
    var lists := seq(|nodes| + 1, k requires 0 <= k <= |nodes| => StartIds(nodes[..k]));
    forall k | 0 <= k < |nodes| ensures lists[k + 1] == lists[k] + Present(from[k]) {
      StartIdsNext(nodes, k);
    }
    assert nodes[..|nodes|] == nodes && nodes[..0] == [];
    Listed(lists, from);
  }

  // ---- edges -----------------------------------------------------------------

  /** Edges into a merged Start go, edges out of one now leave the kept Start, any other stays as it is. */
  function Rerouted(kept: Id, extras: seq<Id>): Edge -> Option<Edge> {
    (e: Edge) =>
      if e.target in extras then None
      else if e.source in extras then Some(e.(source := kept))
      else Some(e)
  }

  /** The same for one merged Start. */
  function Moved(kept: Id, extra: Id): Edge -> Option<Edge> {
    (e: Edge) =>
      if e.target == extra then None else if e.source == extra then Some(e.(source := kept)) else Some(e)
  }

  lemma RedirectNext(edges: seq<Edge>, k: nat, extra: Id, kept: Id)
    requires k < |edges|
    ensures Redirect(edges[..k + 1], extra, kept) ==
            Redirect(edges[..k], extra, kept) + Present(Moved(kept, extra)(edges[k]))
  {
    Snoc(edges, k);
  }

  lemma RedirectChooses(edges: seq<Edge>, extra: Id, kept: Id)
    ensures Redirect(edges, extra, kept) == Collect(Chosen(edges, Moved(kept, extra)))
  {
    var from := Chosen(edges, Moved(kept, extra));
    var lists := seq(|edges| + 1, k requires 0 <= k <= |edges| => Redirect(edges[..k], extra, kept));
    forall k | 0 <= k < |edges| ensures lists[k + 1] == lists[k] + Present(from[k]) {
      RedirectNext(edges, k, extra, kept);
    }
    Accumulated(lists, from);
    assert edges[..|edges|] == edges && edges[..0] == [];
    assert [] + Collect(from) == Collect(from);
  }

  lemma ReroutedTwice(edges: seq<Edge>, kept: Id, extras: seq<Id>, extra: Id)
    requires kept !in extras && kept != extra
    ensures Chosen(edges, Both(Rerouted(kept, extras), Moved(kept, extra))) ==
            Chosen(edges, Rerouted(kept, extras + [extra]))
  {
  }

  lemma {:induction false} CollectWhole<T>(xs: seq<T>, from: seq<Option<T>>)
    requires |from| == |xs| && forall i :: 0 <= i < |xs| ==> from[i] == Some(xs[i])
    ensures Collect(from) == xs
  {
    if xs != [] {
      CollectWhole(xs[..|xs| - 1], from[..|xs| - 1]);
    }
  }

  lemma {:induction false} AbsorbedEdges(w: Workflow, kept: Id, extras: seq<Id>)
    requires kept !in extras
    ensures AbsorbAll(w, kept, extras).edges == Collect(Chosen(w.edges, Rerouted(kept, extras)))
  {
    if extras == [] {
      CollectWhole(w.edges, Chosen(w.edges, Rerouted(kept, extras)));
    } else {
      var before, extra := extras[..|extras| - 1], extras[|extras| - 1];
      assert extras == before + [extra];
      AbsorbedEdges(w, kept, before);
      RedirectChooses(AbsorbAll(w, kept, before).edges, extra, kept);
      ChosenTwice(w.edges, Rerouted(kept, before), Moved(kept, extra));
      ReroutedTwice(w.edges, kept, before, extra);
    }
  }

  /** The merge keeps every edge that enters none of the extra Starts, in order, rerouted. */
  lemma MergedEdgesInOrder(w: Workflow)
    requires DistinctIds(w.nodes) && |StartIds(w.nodes)| >= 2
    ensures var starts := StartIds(w.nodes);
            Selected(Chosen(w.edges, Rerouted(starts[0], starts[1..])), MergeStarts(w).edges)
  {
    var starts := StartIds(w.nodes);
    EndpointIdsDistinct(w.nodes);
    AbsorbedEdges(w, starts[0], starts[1..]);
    CollectSelects(Chosen(w.edges, Rerouted(starts[0], starts[1..])));
  }

  // ---- nodes -----------------------------------------------------------------

  function Remaining(extras: seq<Id>): Node -> Option<Node> {
    (n: Node) => if n.id in extras then None else Some(n)
  }

  lemma WithoutNext(nodes: seq<Node>, k: nat, id: Id)
    requires k < |nodes|
    ensures Without(nodes[..k + 1], id) == Without(nodes[..k], id) + Present(Remaining([id])(nodes[k]))
  {
    Snoc(nodes, k);
  }

  lemma WithoutChooses(nodes: seq<Node>, id: Id)
    ensures Without(nodes, id) == Collect(Chosen(nodes, Remaining([id])))
  {
    var from := Chosen(nodes, Remaining([id]));
    var lists := seq(|nodes| + 1, k requires 0 <= k <= |nodes| => Without(nodes[..k], id));
    forall k | 0 <= k < |nodes| ensures lists[k + 1] == lists[k] + Present(from[k]) {
      WithoutNext(nodes, k, id);
    }
    Accumulated(lists, from);
    assert nodes[..|nodes|] == nodes && nodes[..0] == [];
    assert [] + Collect(from) == Collect(from);
  }

  lemma RemainingTwice(nodes: seq<Node>, extras: seq<Id>, extra: Id)
    ensures Chosen(nodes, Both(Remaining(extras), Remaining([extra]))) == Chosen(nodes, Remaining(extras + [extra]))
  {
  }

  lemma {:induction false} AbsorbedNodes(w: Workflow, kept: Id, extras: seq<Id>)
    ensures AbsorbAll(w, kept, extras).nodes == Collect(Chosen(w.nodes, Remaining(extras)))
  {
    if extras == [] {
      CollectWhole(w.nodes, Chosen(w.nodes, Remaining(extras)));
    } else {
      var before, extra := extras[..|extras| - 1], extras[|extras| - 1];
      assert extras == before + [extra];
      AbsorbedNodes(w, kept, before);
      WithoutChooses(AbsorbAll(w, kept, before).nodes, extra);
      ChosenTwice(w.nodes, Remaining(before), Remaining([extra]));
      RemainingTwice(w.nodes, before, extra);
    }
  }

  /** The merge keeps every other node, in order; only the kept Start's variables change. */
  lemma MergedNodesInOrder(w: Workflow) returns (left: seq<Node>)
    requires DistinctIds(w.nodes) && |StartIds(w.nodes)| >= 2
    ensures Selected(Chosen(w.nodes, Remaining(StartIds(w.nodes)[1..])), left)
    ensures |MergeStarts(w).nodes| == |left|
    ensures forall i :: 0 <= i < |left| && left[i].id != StartIds(w.nodes)[0] ==> MergeStarts(w).nodes[i] == left[i]
    ensures forall i :: 0 <= i < |left| && left[i].id == StartIds(w.nodes)[0] ==>
              MergeStarts(w).nodes[i] ==
              Node(left[i].id, Start(MergedVariables(w.nodes, left[i].id, StartIds(w.nodes)[1..])))
  {
    var starts := StartIds(w.nodes);
    AbsorbedNodes(w, starts[0], starts[1..]);
    CollectSelects(Chosen(w.nodes, Remaining(starts[1..])));
    left := AbsorbAll(w, starts[0], starts[1..]).nodes;
  }

  // ---- variables -------------------------------------------------------------

  /** more[i] has a name that neither vars nor an earlier one of more has. */
  predicate NewName(vars: seq<Variable>, more: seq<Variable>, i: nat)
    requires i < |more|
  {
    && (forall k :: 0 <= k < |vars| ==> vars[k].name != more[i].name)
    && (forall k :: 0 <= k < i ==> more[k].name != more[i].name)
  }

  function News(vars: seq<Variable>, more: seq<Variable>): (r: seq<Option<Variable>>)
    ensures |r| == |more|
    ensures forall i :: 0 <= i < |more| ==> r[i] == if NewName(vars, more, i) then Some(more[i]) else None
  {
    seq(|more|, i requires 0 <= i < |more| => if NewName(vars, more, i) then Some(more[i]) else None)
  }

  lemma NewNameIff(vars: seq<Variable>, more: seq<Variable>, k: nat)
    requires k < |more|
    ensures NewName(vars, more, k) <==> more[k].name !in Names(vars) + Names(more[..k])
  {
    var before := more[..k];
    assert forall j :: 0 <= j < k ==> before[j] == more[j];
    if NewName(vars, more, k) {
      forall v | v in vars || v in before ensures v.name != more[k].name {
      }
    }
    if more[k].name !in Names(vars) + Names(before) {
      forall j | 0 <= j < k ensures more[j].name != more[k].name {
        assert before[j] in before;
      }
    }
  }

  function AddOne(vars: seq<Variable>, x: Variable): seq<Variable> {
    if x.name in Names(vars) then vars else vars + [x]
  }

  lemma AddNext(vars: seq<Variable>, more: seq<Variable>, k: nat)
    requires k < |more|
    ensures AddVariables(vars, more[..k + 1]) == AddOne(AddVariables(vars, more[..k]), more[k])
  {
    Snoc(more, k);
  }

  lemma AddNextNew(vars: seq<Variable>, more: seq<Variable>, k: nat)
    requires k < |more|
    ensures AddVariables(vars, more[..k + 1]) == AddVariables(vars, more[..k]) + Present(News(vars, more)[k])
  {
    AddNext(vars, more, k);
    AddedNames(vars, more[..k]);
    NewNameIff(vars, more, k);
  }

  /** vars are followed by the first variable of every new name, whole and in order. */
  lemma AddedInOrder(vars: seq<Variable>, more: seq<Variable>)
    ensures AddVariables(vars, more) == vars + Collect(News(vars, more))
  {
    var from := News(vars, more);
    var lists := seq(|more| + 1, k requires 0 <= k <= |more| => AddVariables(vars, more[..k]));
    forall k | 0 <= k < |more| ensures lists[k + 1] == lists[k] + Present(from[k]) {
      AddNextNew(vars, more, k);
    }
    Accumulated(lists, from);
    assert more[..|more|] == more && more[..0] == [];
  }

  /** The variables of the extra Starts, one Start after another. */
  function VariablesOfAll(nodes: seq<Node>, ids: seq<Id>): seq<Variable> {
    if ids == [] then []
    else VariablesOfAll(nodes, ids[..|ids| - 1]) + VariablesOf(nodes, ids[|ids| - 1])
  }

  /** p are the lists on the way when the variables are added one by one. */
  ghost predicate Stepwise(p: seq<seq<Variable>>, xs: seq<Variable>) {
    |p| == |xs| + 1 && forall k :: 0 <= k < |xs| ==> p[k + 1] == AddOne(p[k], xs[k])
  }

  lemma {:induction false} SameSteps(p: seq<seq<Variable>>, q: seq<seq<Variable>>, xs: seq<Variable>)
    requires Stepwise(p, xs) && Stepwise(q, xs) && p[0] == q[0]
    ensures p[|xs|] == q[|xs|]
  {
    if xs != [] {
      var k := |xs| - 1;
      SameSteps(p[..k + 1], q[..k + 1], xs[..k]);
      assert p[k + 1] == AddOne(p[k], xs[k]) && q[k + 1] == AddOne(q[k], xs[k]);
    }
  }

  lemma JoinSteps(p: seq<seq<Variable>>, a: seq<Variable>, q: seq<seq<Variable>>, b: seq<Variable>)
    requires Stepwise(p, a) && Stepwise(q, b) && p[|a|] == q[0]
    ensures Stepwise(p + q[1..], a + b) && (p + q[1..])[|a| + |b|] == q[|b|]
  {
    var r := p + q[1..];
    forall k | 0 <= k < |a| + |b| ensures r[k + 1] == AddOne(r[k], (a + b)[k]) {
      if k >= |a| {
        assert q[k - |a| + 1] == AddOne(q[k - |a|], b[k - |a|]);
      }
    }
  }

  lemma AddSteps(vars: seq<Variable>, more: seq<Variable>) returns (p: seq<seq<Variable>>)
    ensures Stepwise(p, more) && p[0] == vars && p[|more|] == AddVariables(vars, more)
  {
    p := seq(|more| + 1, k requires 0 <= k <= |more| => AddVariables(vars, more[..k]));
    forall k | 0 <= k < |more| ensures p[k + 1] == AddOne(p[k], more[k]) {
      AddNext(vars, more, k);
    }
    assert more[..|more|] == more && more[..0] == [];
  }

  lemma AddTwice(vars: seq<Variable>, a: seq<Variable>, b: seq<Variable>)
    ensures AddVariables(AddVariables(vars, a), b) == AddVariables(vars, a + b)
  {
    var p := AddSteps(vars, a);
    var q := AddSteps(AddVariables(vars, a), b);
    var r := AddSteps(vars, a + b);
    JoinSteps(p, a, q, b);
    SameSteps(p + q[1..], r, a + b);
  }

  lemma {:induction false} MergedAtOnce(nodes: seq<Node>, kept: Id, extras: seq<Id>)
    ensures MergedVariables(nodes, kept, extras) ==
            AddVariables(VariablesOf(nodes, kept), VariablesOfAll(nodes, extras))
  {
    if extras != [] {
      var before := extras[..|extras| - 1];
      MergedAtOnce(nodes, kept, before);
      var vars, a, b :=
        VariablesOf(nodes, kept), VariablesOfAll(nodes, before), VariablesOf(nodes, extras[|extras| - 1]);
      AddTwice(vars, a, b);
    }
  }

  /** The kept Start's variables, then the first of each new name among those of the extra Starts, in order. */
  lemma MergedVariablesInOrder(nodes: seq<Node>, kept: Id, extras: seq<Id>) returns (added: seq<Variable>)
    ensures MergedVariables(nodes, kept, extras) == VariablesOf(nodes, kept) + added
    ensures Selected(News(VariablesOf(nodes, kept), VariablesOfAll(nodes, extras)), added)
  {
    var vars, more := VariablesOf(nodes, kept), VariablesOfAll(nodes, extras);
    MergedAtOnce(nodes, kept, extras);
    AddedInOrder(vars, more);
    added := Collect(News(vars, more));
    CollectSelects(News(vars, more));
  }
}
