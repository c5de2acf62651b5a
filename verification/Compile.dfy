/**
 * Compilation of a workflow into a routed graph: branch mappings, routers, and
 * the agreement between what is validated and what is emitted.
 */
module Compile {
  import opened Wrappers
  import opened Digraph
  import opened Workflows
  import opened Exclusivity
  import opened Validation

  datatype Value = Nothing | Flag(b: bool) | Text(s: string) | Other(truthy: bool)

  datatype NodeResult = NoOutput | Output(decision: Value)

  datatype RunState = RunState(variables: map<string, Value>, nodeResults: map<Id, NodeResult>)

  /** How evaluating a condition ends: in a value, or in EvalError. */
  datatype Evaluation = Evaluated(value: Value) | EvalError

  type Evaluator = (string, RunState) -> Evaluation

  predicate Truthy(v: Value) {
    match v
    case Nothing => false
    case Flag(b) => b
    case Text(s) => s != ""
    case Other(t) => t
  }

  /** Choice mode offers at least two options, with distinct labels. */
  ghost predicate WellFormed(k: Kind) {
    k.Decision? && k.mode.Choice? ==>
      |k.mode.options| >= 2
      && forall i, j :: 0 <= i < j < |k.mode.options| ==> k.mode.options[i] != k.mode.options[j]
  }

  function RequiredBranches(k: Kind): set<string>
    requires Conditional(k)
  {
    match k
    case IfElse(_) => {"true", "false"}
    case While(_) => {"body", "exit"}
    case UserApproval => {"approved", "rejected"}
    case Decision(Binary) => {"true", "false"}
    case Decision(Choice(options)) => set o | o in options
  }

  // ---- routers -------------------------------------------------------------

  function RouteOnCondition(condition: string, state: RunState, eval: Evaluator, yes: string, no: string): string {
    if condition == "" then no
    else
      var r := eval(condition, state);
      if r.EvalError? then no else if Truthy(r.value) then yes else no
  }

  function RouteUserApproval(id: Id, state: RunState): string {
    var key := "_approval_" + id;
    if key in state.variables && state.variables[key] == Text("approved") then "approved" else "rejected"
  }

  function RouteDecision(id: Id, mode: DecisionMode, state: RunState): string
    requires mode.Choice? ==> mode.options != []
  {
    var fallback := if mode.Binary? then "false" else mode.options[0];
    if id !in state.nodeResults || state.nodeResults[id].NoOutput? then fallback
    else
      var decision := state.nodeResults[id].decision;
      match mode
      case Binary => if Truthy(decision) then "true" else "false"
      case Choice(options) => if decision.Text? && decision.s in options then decision.s else fallback
  }

  function Route(n: Node, state: RunState, eval: Evaluator): string
    requires Conditional(n.kind)
    requires n.kind.Decision? && n.kind.mode.Choice? ==> n.kind.mode.options != []
  {
    match n.kind
    case IfElse(condition) => RouteOnCondition(condition, state, eval, "true", "false")
    case While(condition) => RouteOnCondition(condition, state, eval, "body", "exit")
    case UserApproval => RouteUserApproval(n.id, state)
    case Decision(mode) => RouteDecision(n.id, mode, state)
  }

  // ---- branch mapping ------------------------------------------------------

  datatype MappingError =
    | NoLabel(edge: Id)
    | Repeated(branch: string)
    | Unexpected(edge: Id)
    | Missing(branches: set<string>)

  datatype MappingResult = Mapped(targets: map<string, Id>) | Rejected(error: MappingError)

  /** The edges out of id carry exactly the required labels, each once. */
  ghost predicate ExactlyLabelled(edges: seq<Edge>, id: Id, required: set<string>) {
    && LabelsWithin(edges, id, required)
    && LabelsOnce(edges, id)
    && (forall b :: b in required ==> HasBranch(edges, id, b))
  }

  ghost predicate LabelsWithin(edges: seq<Edge>, id: Id, required: set<string>) {
    forall e :: e in edges && e.source == id ==> e.branch.Some? && e.branch.value in required
  }

  ghost predicate LabelsOnce(edges: seq<Edge>, id: Id) {
    forall i, j :: 0 <= i < j < |edges| && edges[i].source == id && edges[j].source == id
      ==> edges[i].branch != edges[j].branch
  }

  ghost predicate HasBranch(edges: seq<Edge>, id: Id, b: string) {
    exists e :: e in edges && e.source == id && e.branch == Some(b)
  }

  /** b leads to t: some edge out of id is labelled b, and every such edge enters t. */
  ghost predicate LeadsTo(edges: seq<Edge>, id: Id, b: string, t: Id) {
    && HasBranch(edges, id, b)
    && forall e :: e in edges && e.source == id && e.branch == Some(b) ==> e.target == t
  }

  method BranchMapping(edges: seq<Edge>, id: Id, required: set<string>) returns (r: MappingResult)
    ensures r.Mapped? <==> ExactlyLabelled(edges, id, required)
    ensures r.Mapped? ==> r.targets.Keys == required
                          && forall b :: b in required ==> LeadsTo(edges, id, b, r.targets[b])
  {
    var seen: map<string, Id> := map[];
    for k := 0 to |edges|
      invariant LabelsWithin(edges[..k], id, required) && LabelsOnce(edges[..k], id)
      invariant forall b :: b in seen <==> HasBranch(edges[..k], id, b)
      invariant forall b :: b in seen ==> b in required && LeadsTo(edges[..k], id, b, seen[b])
    {
      var e := edges[k];
      assert edges[..k + 1] == edges[..k] + [e];
      if e.source == id {
        if e.branch.None? {
          return Rejected(NoLabel(e.id));
        }
        if e.branch.value in seen {
          var f :| f in edges[..k] && f.source == id && f.branch == e.branch;
          var i :| 0 <= i < k && edges[..k][i] == f;
          assert edges[i].branch == edges[k].branch;
          return Rejected(Repeated(e.branch.value));
        }
        if e.branch.value !in required {
          return Rejected(Unexpected(e.id));
        }
        seen := seen[e.branch.value := e.target];
      }
      forall b ensures b in seen <==> HasBranch(edges[..k + 1], id, b) {
        if HasBranch(edges[..k], id, b) {
          var f :| f in edges[..k] && f.source == id && f.branch == Some(b);
          assert f in edges[..k + 1];
        }
      }
    }
    assert edges[..|edges|] == edges;
    var missing := set b | b in required && b !in seen;
    if missing != {} {
      var b :| b in missing;
      assert !HasBranch(edges, id, b);
      return Rejected(Missing(missing));
    }
    forall b | b in required ensures b in seen {
      assert b !in missing;
    }
    return Mapped(seen);
  }

  /** Every router answers with a label its node requires. */
  lemma RouteIsRequired(n: Node, state: RunState, eval: Evaluator)
    requires Conditional(n.kind) && WellFormed(n.kind)
    ensures Route(n, state, eval) in RequiredBranches(n.kind)
  {
    if n.kind.Decision? && n.kind.mode.Choice? {
      assert n.kind.mode.options[0] in n.kind.mode.options;
    }
  }

  /** How the routers read a result: true, a nonempty text, or another value that counts as true. */
  ghost predicate CountsAsTrue(v: Value) {
    v == Flag(true) || v == Other(true) || (v.Text? && v.s != "")
  }

  /** An if-else answers "true" exactly when its condition evaluates to something that counts as true. */
  lemma IfElseAnswers(n: Node, state: RunState, eval: Evaluator)
    requires n.kind.IfElse?
    ensures Route(n, state, eval) == "true" <==>
            n.kind.condition != "" && eval(n.kind.condition, state).Evaluated?
            && CountsAsTrue(eval(n.kind.condition, state).value)
    ensures Route(n, state, eval) == "true" || Route(n, state, eval) == "false"
  {
  }

  lemma WhileAnswers(n: Node, state: RunState, eval: Evaluator)
    requires n.kind.While?
    ensures Route(n, state, eval) == "body" <==>
            n.kind.condition != "" && eval(n.kind.condition, state).Evaluated?
            && CountsAsTrue(eval(n.kind.condition, state).value)
    ensures Route(n, state, eval) == "body" || Route(n, state, eval) == "exit"
  {
  }

  /** An approval answers "approved" exactly when its own variable says so. */
  lemma ApprovalAnswers(n: Node, state: RunState, eval: Evaluator)
    requires n.kind.UserApproval?
    ensures Route(n, state, eval) == "approved" <==>
            "_approval_" + n.id in state.variables && state.variables["_approval_" + n.id] == Text("approved")
    ensures Route(n, state, eval) == "approved" || Route(n, state, eval) == "rejected"
  {
  }

  /** A decision answers what its own result says; without one, "false" or the first option. */
  lemma DecisionAnswers(n: Node, state: RunState, eval: Evaluator)
    requires n.kind.Decision? && WellFormed(n.kind)
    ensures n.kind.mode.Binary? ==>
            (Route(n, state, eval) == "true" <==>
               n.id in state.nodeResults && state.nodeResults[n.id].Output?
               && CountsAsTrue(state.nodeResults[n.id].decision))
    ensures n.kind.mode.Binary? ==> Route(n, state, eval) == "true" || Route(n, state, eval) == "false"
    ensures n.kind.mode.Choice? ==>
            Route(n, state, eval) ==
            if n.id in state.nodeResults && state.nodeResults[n.id].Output? && state.nodeResults[n.id].decision.Text?
               && state.nodeResults[n.id].decision.s in n.kind.mode.options
            then state.nodeResults[n.id].decision.s else n.kind.mode.options[0]
  {
  }

  /** Branches a router can answer: with an empty condition only one of the two. */
  predicate Feasible(k: Kind, b: string)
    requires Conditional(k)
  {
    && b in RequiredBranches(k)
    && (k.IfElse? && k.condition == "" ==> b == "false")
    && (k.While? && k.condition == "" ==> b == "exit")
  }

  /** What a router reads: the state, its own node's writes included, and how conditions evaluate in it. */
  datatype Moment = Moment(state: RunState, eval: Evaluator)

  function Answer(n: Node, m: Moment): Option<string> {
    if Conditional(n.kind) && (n.kind.Decision? && n.kind.mode.Choice? ==> n.kind.mode.options != [])
    then Some(Route(n, m.state, m.eval)) else None
  }

  /** A moment at which n's router answers b, if it ever does. */
  function MomentFor(n: Node, b: string): Moment {
    var decision := if n.kind.Decision? && n.kind.mode.Choice? then Text(b) else Flag(b == "true");
    Moment(
      RunState(map["_approval_" + n.id := Text(b)], map[n.id := Output(decision)]),
      (condition, state) => Evaluated(Flag(b == "true" || b == "body")))
  }

  /** A router can answer exactly the feasible branches. */
  lemma AnswersFeasible(n: Node, b: string)
    requires Conditional(n.kind)
    ensures Feasible(n.kind, b) ==> Answer(n, MomentFor(n, b)) == Some(b)
    ensures forall m :: Answer(n, m) == Some(b) ==> Feasible(n.kind, b)
  {
    forall m | Answer(n, m) == Some(b) ensures Feasible(n.kind, b) {
      AnswerIsFeasible(n, m);
    }
    if Feasible(n.kind, b) && n.kind.UserApproval? {
      assert b == "approved" || b == "rejected";
    }
  }

  lemma AnswerIsFeasible(n: Node, m: Moment)
    requires Answer(n, m).Some?
    ensures Feasible(n.kind, Answer(n, m).value)
  {
    if n.kind.Decision? && n.kind.mode.Choice? {
      assert n.kind.mode.options[0] in n.kind.mode.options;
    }
  }

  lemma FeasibleIff(n: Node, b: string)
    requires Conditional(n.kind) && WellFormed(n.kind)
    ensures Feasible(n.kind, b) <==> exists state, eval :: Route(n, state, eval) == b
  {
    AnswersFeasible(n, b);
    if state, eval :| Route(n, state, eval) == b {
      assert Answer(n, Moment(state, eval)) == Some(b);
    }
  }

  /**
   * In every state a conditional's router names a label that leads to exactly
   * one target.
   */
  lemma RouterLands(edges: seq<Edge>, n: Node, state: RunState, eval: Evaluator)
    requires Conditional(n.kind) && WellFormed(n.kind)
    requires ExactlyLabelled(edges, n.id, RequiredBranches(n.kind))
    ensures exists t :: LeadsTo(edges, n.id, Route(n, state, eval), t)
    ensures forall t, u ::
              LeadsTo(edges, n.id, Route(n, state, eval), t) && LeadsTo(edges, n.id, Route(n, state, eval), u)
              ==> t == u
  {
    RouteIsRequired(n, state, eval);
    var b := Route(n, state, eval);
    var e :| e in edges && e.source == n.id && e.branch == Some(b);
    var k :| 0 <= k < |edges| && edges[k] == e;
    forall f | f in edges && f.source == n.id && f.branch == Some(b) ensures f.target == e.target {
      var m :| 0 <= m < |edges| && edges[m] == f;
      assert m == k;
    }
    assert LeadsTo(edges, n.id, b, e.target);
  }

  // ---- compilation ---------------------------------------------------------

  datatype Compiled = Compiled(
    nodes: set<Id>, plain: set<(Id, Id)>, routes: map<Id, map<string, Id>>, entry: Id, exits: set<Id>)

  /** Arcs of the compiled graph: plain edges and every route of every conditional. */
  ghost function CompiledArcs(g: Compiled): Arcs {
    g.plain + set c, b | c in g.routes && b in g.routes[c] :: (c, g.routes[c][b])
  }

  /** All conditionals have complete, unambiguous labels and lead to executable nodes. */
  ghost predicate Routable(w: Workflow) {
    forall n :: n in w.nodes && Conditional(n.kind) ==> NodeRoutable(w, n)
  }

  ghost predicate NodeRoutable(w: Workflow, n: Node)
    requires Conditional(n.kind)
  {
    && ExactlyLabelled(w.edges, n.id, RequiredBranches(n.kind))
    && forall e :: e in w.edges && e.source == n.id ==> Executable(w.nodes, e.target)
  }

  lemma ValidIds(w: Workflow)
    requires Valid(w)
    ensures DistinctIds(w.nodes)
  {
    forall i, j | 0 <= i < j < |w.nodes| ensures w.nodes[i].id != w.nodes[j].id {
      var x := DuplicateId(w.nodes[i].id);
      assert !Defect(w, x);
      assert !IdDefect(w.nodes, x);
    }
  }

  lemma ValidEdge(w: Workflow, e: Edge)
    requires Valid(w) && e in w.edges
    ensures e.source in Ids(w.nodes) && e.target in Ids(w.nodes)
  {
    var nodes := Table(w.nodes);
    var x, y := UnknownSource(e.id, e.source), UnknownTarget(e.id, e.target);
    assert !Defect(w, x) && !Defect(w, y);
    assert !EndpointDefect(nodes, w.edges, x) && !EndpointDefect(nodes, w.edges, y);
  }

  lemma ValidStart(w: Workflow)
    requires Valid(w)
    ensures |StartIds(w.nodes)| == 1
  {
    var x := StartCount(|StartIds(w.nodes)|);
    assert !Defect(w, x);
    assert !CountDefect(w.nodes, x);
  }

  lemma OnlyStart(nodes: seq<Node>)
    requires |StartIds(nodes)| == 1
    ensures StartId(nodes) == Some(StartIds(nodes)[0])
  {
    var only := StartIds(nodes)[0];
    assert only in StartIds(nodes);
    var n :| n in nodes && n.kind.Start? && n.id == StartId(nodes).value;
    assert n.id in StartIds(nodes);
  }

  /** In a valid workflow ids are distinct, ends of edges are known and there is one Start. */
  lemma ValidBasics(w: Workflow)
    requires Valid(w)
    ensures DistinctIds(w.nodes) && Table(w.nodes) == w.nodes
    ensures CleanEdges(w.nodes, w.edges) == w.edges
    ensures forall e :: e in w.edges ==> e.source in Ids(w.nodes) && e.target in Ids(w.nodes)
    ensures |StartIds(w.nodes)| == 1 && StartId(w.nodes) == Some(StartIds(w.nodes)[0])
  {
    ValidIds(w);
    TableOfDistinct(w.nodes);
    forall e | e in w.edges ensures e.source in Ids(w.nodes) && e.target in Ids(w.nodes) {
      ValidEdge(w, e);
    }
    FilterAll(w.edges, (e: Edge) => e.source in Ids(w.nodes) && e.target in Ids(w.nodes));
    ValidStart(w);
    OnlyStart(w.nodes);
  }

  /** In a valid workflow exactly the edges out of conditionals are labelled. */
  lemma LabelledRight(w: Workflow, e: Edge)
    requires Valid(w) && e in w.edges
    ensures Conditional(KindOf(w.nodes, e.source)) <==> e.branch.Some?
  {
    if e.branch.Some? {
      NotUnexpected(w, e);
    } else {
      NotMissing(w, e);
    }
  }

  lemma NotUnexpected(w: Workflow, e: Edge)
    requires Valid(w) && e in w.edges && e.branch.Some?
    ensures Conditional(KindOf(w.nodes, e.source))
  {
    ValidBasics(w);
    var x := UnexpectedBranch(e.id, e.branch.value, e.source);
    assert !Defect(w, x);
    assert !BranchDefect(w.nodes, w.edges, x);
  }

  lemma NotMissing(w: Workflow, e: Edge)
    requires Valid(w) && e in w.edges && e.branch.None?
    ensures !Conditional(KindOf(w.nodes, e.source))
  {
    ValidBasics(w);
    var x := MissingBranch(e.id, e.source);
    assert !Defect(w, x);
    assert !BranchDefect(w.nodes, w.edges, x);
  }

  lemma ValidReaches(w: Workflow, n: Node)
    requires Valid(w) && n in w.nodes && !VisualOnly(n.kind)
    ensures |StartIds(w.nodes)| == 1 && Reaches(ExecArcs(w.nodes, w.edges), StartIds(w.nodes)[0], n.id)
  {
    ValidBasics(w);
    LookupMember(w.nodes, n);
    var x := Unreachable(n.id);
    assert !Defect(w, x);
    assert !ReachDefect(w.nodes, w.edges, StartIds(w.nodes)[0], x);
  }

  /** Arcs out of one node split into those of conditional and of plain sources. */
  ghost predicate PlainArc(w: Workflow, e: Edge) {
    && Executable(w.nodes, e.source) && Executable(w.nodes, e.target)
    && !Conditional(Lookup(w.nodes, e.source).value.kind)
  }

  ghost function PlainArcs(w: Workflow, upTo: nat): Arcs
    requires upTo <= |w.edges|
  {
    set e | e in w.edges[..upTo] && PlainArc(w, e) :: (e.source, e.target)
  }

  method EmitPlain(w: Workflow) returns (plain: set<(Id, Id)>)
    requires forall e :: e in w.edges ==> e.source in Ids(w.nodes) && e.target in Ids(w.nodes)
    ensures plain == PlainArcs(w, |w.edges|)
  {
    plain := {};
    for k := 0 to |w.edges|
      invariant plain == PlainArcs(w, k)
    {
      var e := w.edges[k];
      assert w.edges[..k + 1] == w.edges[..k] + [e];
      var source, target := Lookup(w.nodes, e.source).value.kind, Lookup(w.nodes, e.target).value.kind;
      if !Conditional(source) && !VisualOnly(source) && !VisualOnly(target) {
        assert PlainArc(w, e);
        assert PlainArcs(w, k + 1) == PlainArcs(w, k) + {(e.source, e.target)};
        plain := plain + {(e.source, e.target)};
      } else {
        assert !PlainArc(w, e);
        assert PlainArcs(w, k + 1) == PlainArcs(w, k);
      }
    }
  }

  ghost predicate RoutedAs(w: Workflow, n: Node, targets: map<string, Id>)
    requires Conditional(n.kind)
  {
    && targets.Keys == RequiredBranches(n.kind)
    && forall b :: b in targets ==> LeadsTo(w.edges, n.id, b, targets[b])
  }

  ghost predicate RoutesAgree(w: Workflow, upTo: nat, routes: map<Id, map<string, Id>>)
    requires upTo <= |w.nodes|
  {
    && (forall c :: c in routes ==> exists n :: n in w.nodes[..upTo] && n.id == c && Conditional(n.kind))
    && (forall n :: n in w.nodes[..upTo] && Conditional(n.kind) ==> n.id in routes && RoutedAs(w, n, routes[n.id]))
  }

  method EmitNode(w: Workflow, n: Node) returns (targets: map<string, Id>, ok: bool)
    requires Conditional(n.kind)
    ensures ok <==> NodeRoutable(w, n)
    ensures ok ==> RoutedAs(w, n, targets)
  {
    var m := BranchMapping(w.edges, n.id, RequiredBranches(n.kind));
    if m.Rejected? {
      return map[], false;
    }
    // A route to a node that was never added is refused when the graph is compiled.
    if b :| b in m.targets && !Executable(w.nodes, m.targets[b]) {
      var e :| e in w.edges && e.source == n.id && e.branch == Some(b);
      assert !Executable(w.nodes, e.target);
      return map[], false;
    }
    forall e | e in w.edges && e.source == n.id ensures Executable(w.nodes, e.target) {
      assert e.branch.value in m.targets;
      assert LeadsTo(w.edges, n.id, e.branch.value, m.targets[e.branch.value]);
    }
    return m.targets, true;
  }

  /** One more conditional with its targets. */
  lemma RoutesNext(w: Workflow, k: nat, routes: map<Id, map<string, Id>>, targets: map<string, Id>)
    requires DistinctIds(w.nodes) && k < |w.nodes| && RoutesAgree(w, k, routes)
    requires Conditional(w.nodes[k].kind) && RoutedAs(w, w.nodes[k], targets)
    ensures RoutesAgree(w, k + 1, routes[w.nodes[k].id := targets])
  {
    var n, more := w.nodes[k], routes[w.nodes[k].id := targets];
    assert w.nodes[..k + 1] == w.nodes[..k] + [n];
    forall o | o in w.nodes[..k] ensures o.id != n.id {
      var i :| 0 <= i < k && w.nodes[i] == o;
    }
    forall c | c in more ensures exists o :: o in w.nodes[..k + 1] && o.id == c && Conditional(o.kind) {
      if c == n.id {
        assert n in w.nodes[..k + 1];
      } else {
        var o :| o in w.nodes[..k] && o.id == c && Conditional(o.kind);
        assert o in w.nodes[..k + 1];
      }
    }
  }

  lemma RoutesSame(w: Workflow, k: nat, routes: map<Id, map<string, Id>>)
    requires k < |w.nodes| && RoutesAgree(w, k, routes) && !Conditional(w.nodes[k].kind)
    ensures RoutesAgree(w, k + 1, routes)
  {
    assert w.nodes[..k + 1] == w.nodes[..k] + [w.nodes[k]];
    forall c | c in routes ensures exists o :: o in w.nodes[..k + 1] && o.id == c && Conditional(o.kind) {
      var o :| o in w.nodes[..k] && o.id == c && Conditional(o.kind);
      assert o in w.nodes[..k + 1];
    }
  }

  method EmitRoutes(w: Workflow) returns (routes: map<Id, map<string, Id>>, ok: bool)
    requires DistinctIds(w.nodes)
    ensures ok <==> Routable(w)
    ensures ok ==> RoutesAgree(w, |w.nodes|, routes)
  {
    routes := map[];
    for k := 0 to |w.nodes|
      invariant RoutesAgree(w, k, routes)
      invariant forall n :: n in w.nodes[..k] && Conditional(n.kind) ==> NodeRoutable(w, n)
    {
      var n := w.nodes[k];
      assert w.nodes[..k + 1] == w.nodes[..k] + [n];
      if Conditional(n.kind) {
        var targets, fine := EmitNode(w, n);
        if !fine {
          return routes, false;
        }
        RoutesNext(w, k, routes, targets);
        routes := routes[n.id := targets];
      } else {
        RoutesSame(w, k, routes);
      }
    }
    assert w.nodes[..|w.nodes|] == w.nodes;
    return routes, true;
  }

  lemma RoutedNode(w: Workflow, routes: map<Id, map<string, Id>>, c: Id) returns (n: Node)
    requires RoutesAgree(w, |w.nodes|, routes) && c in routes
    ensures n in w.nodes && n.id == c && Conditional(n.kind) && RoutedAs(w, n, routes[c])
  {
    assert w.nodes[..|w.nodes|] == w.nodes;
    n :| n in w.nodes[..|w.nodes|] && n.id == c && Conditional(n.kind);
  }

  lemma CompiledArcIsEdge(w: Workflow, g: Compiled, c: Id, b: string)
    requires DistinctIds(w.nodes) && Routable(w) && RoutesAgree(w, |w.nodes|, g.routes)
    requires c in g.routes && b in g.routes[c]
    ensures (c, g.routes[c][b]) in ExecArcs(w.nodes, w.edges)
  {
    var n := RoutedNode(w, g.routes, c);
    LookupMember(w.nodes, n);
    assert NodeRoutable(w, n);
    RouteIsArc(w, n, g.routes[c], b);
  }

  lemma RouteIsArc(w: Workflow, n: Node, targets: map<string, Id>, b: string)
    requires Conditional(n.kind) && RoutedAs(w, n, targets) && NodeRoutable(w, n) && Executable(w.nodes, n.id)
              && b in targets
    ensures (n.id, targets[b]) in ExecArcs(w.nodes, w.edges)
  {
    assert LeadsTo(w.edges, n.id, b, targets[b]);
    var e :| e in w.edges && e.source == n.id && e.branch == Some(b);
  }

  lemma EdgeIsCompiledArc(w: Workflow, g: Compiled, e: Edge)
    requires Routable(w) && RoutesAgree(w, |w.nodes|, g.routes)
    requires g.plain == PlainArcs(w, |w.edges|)
    requires e in w.edges && Executable(w.nodes, e.source) && Executable(w.nodes, e.target)
    ensures (e.source, e.target) in CompiledArcs(g)
  {
    var n := Lookup(w.nodes, e.source).value;
    assert w.edges[..|w.edges|] == w.edges && n in w.nodes[..|w.nodes|];
    if Conditional(n.kind) {
      assert RoutedAs(w, n, g.routes[n.id]) && NodeRoutable(w, n);
      assert e.branch.Some? && e.branch.value in g.routes[n.id];
      assert LeadsTo(w.edges, n.id, e.branch.value, g.routes[n.id][e.branch.value]);
    } else {
      assert PlainArc(w, e);
    }
  }

  /** What is emitted joins exactly the pairs of executable nodes that edges join. */
  lemma ArcsAgree(w: Workflow, g: Compiled)
    requires DistinctIds(w.nodes) && Routable(w)
    requires g.plain == PlainArcs(w, |w.edges|) && RoutesAgree(w, |w.nodes|, g.routes)
    ensures CompiledArcs(g) == ExecArcs(w.nodes, w.edges)
  {
    var arcs := ExecArcs(w.nodes, w.edges);
    forall a | a in CompiledArcs(g) ensures a in arcs {
      if a in g.plain {
        var e :| e in w.edges[..|w.edges|] && PlainArc(w, e) && a == (e.source, e.target);
        assert e in w.edges;
      } else {
        var c, b :| c in g.routes && b in g.routes[c] && a == (c, g.routes[c][b]);
        CompiledArcIsEdge(w, g, c, b);
      }
    }
    forall a | a in arcs ensures a in CompiledArcs(g) {
      var e :| e in w.edges && Executable(w.nodes, e.source) && Executable(w.nodes, e.target)
          && a == (e.source, e.target);
      EdgeIsCompiledArc(w, g, e);
    }
  }

  /** The node types whose edges are chosen among by a router. */
  ghost predicate Branching(k: Kind) {
    k.IfElse? || k.While? || k.UserApproval? || k.Decision?
  }

  /**
   * g has the nodes that are neither notes nor file triggers and a route for each branching node,
   * leads every branch where the edge so labelled goes, joins the nodes exactly as the edges do, and
   * reaches every one of them from its entry.
   */
  ghost predicate Represents(g: Compiled, w: Workflow) {
    && g.nodes == (set n | n in w.nodes && !n.kind.Note? && !n.kind.FileTrigger? :: n.id)
    && g.routes.Keys == (set n | n in w.nodes && Branching(n.kind) :: n.id)
    && (forall c, b :: c in g.routes && b in g.routes[c] ==> LeadsTo(w.edges, c, b, g.routes[c][b]))
    && StartId(w.nodes) == Some(g.entry)
    && g.exits == (set id | id in EndIds(w.nodes))
    && CompiledArcs(g) == ExecArcs(w.nodes, w.edges)
    && (forall v :: v in g.nodes ==> Reaches(CompiledArcs(g), g.entry, v))
  }

  /** Compilation succeeds exactly on valid, routable workflows, and then represents them. */
  method BuildGraph(w: Workflow) returns (r: Option<Compiled>)
    ensures r.Some? <==> Valid(w) && Routable(w)
    ensures r.Some? ==> Represents(r.value, w)
  {
    var violations := CollectViolations(w);
    if violations != [] {
      return None;
    }
    ValidBasics(w);
    var nodes := set n | n in w.nodes && !VisualOnly(n.kind) :: n.id;
    var plain := EmitPlain(w);
    var routes, ok := EmitRoutes(w);
    if !ok {
      return None;
    }
    var g := Compiled(nodes, plain, routes, StartIds(w.nodes)[0], set id | id in EndIds(w.nodes));
    Assembled(w, g);
    return Some(g);
  }

  lemma Assembled(w: Workflow, g: Compiled)
    requires Valid(w) && Routable(w) && g.nodes == set n | n in w.nodes && !VisualOnly(n.kind) :: n.id
    requires g.plain == PlainArcs(w, |w.edges|) && RoutesAgree(w, |w.nodes|, g.routes)
    requires StartIds(w.nodes) == [g.entry] && g.exits == set id | id in EndIds(w.nodes)
    ensures Represents(g, w)
  {
    ValidBasics(w);
    ArcsAgree(w, g);
    RoutedKeys(w, g.routes);
    NodesReached(w, g);
    forall c, b | c in g.routes && b in g.routes[c] ensures LeadsTo(w.edges, c, b, g.routes[c][b]) {
      var n := RoutedNode(w, g.routes, c);
    }
  }

  lemma RoutedKeys(w: Workflow, routes: map<Id, map<string, Id>>)
    requires RoutesAgree(w, |w.nodes|, routes)
    ensures routes.Keys == set n | n in w.nodes && Branching(n.kind) :: n.id
  {
    assert w.nodes[..|w.nodes|] == w.nodes;
  }

  lemma NodesReached(w: Workflow, g: Compiled)
    requires Valid(w) && CompiledArcs(g) == ExecArcs(w.nodes, w.edges) && StartIds(w.nodes) == [g.entry]
    ensures forall n :: n in w.nodes && !VisualOnly(n.kind) ==> Reaches(CompiledArcs(g), g.entry, n.id)
  {
    forall n | n in w.nodes && !VisualOnly(n.kind) ensures Reaches(CompiledArcs(g), g.entry, n.id) {
      ValidReaches(w, n);
    }
  }

  // ---- entering an End -----------------------------------------------------

  /** A node is never separated from itself, so parallel edges into one End are refused. */
  lemma NotSeparableFromItself(nodes: seq<Node>, edges: seq<Edge>, a: Id)
    ensures !Separable(nodes, edges, a, a)
  {
    forall c ensures !Separates(nodes, edges, c, a, a) {
    }
  }

  lemma ValidEndEntry(w: Workflow, end: Id, m: nat, n: nat)
    requires Valid(w) && end in EndIds(w.nodes) && m < n < |ExecIncoming(w.nodes, w.edges, end)|
    ensures var into := ExecIncoming(w.nodes, w.edges, end);
            Separable(w.nodes, w.edges, into[m].source, into[n].source)
  {
    ValidBasics(w);
    var x := EndIncoming(end, |ExecIncoming(w.nodes, w.edges, end)|);
    assert !Defect(w, x);
    assert !EndDefect(w.nodes, w.edges, EndIds(w.nodes), x);
  }

  /** Some conditional separates the two nodes, lies on all paths to both and fires at most once. */
  ghost predicate HeldApart(w: Workflow, start: Id, run: seq<Firing>, a: Id, b: Id) {
    exists c :: Separates(w.nodes, w.edges, c, a, b) && Controls(w.nodes, w.edges, start, run, c, a, b)
  }

  /**
   * At most one edge into an End is taken in a run, if for every two of them one conditional holds
   * their sources apart. Validity gives the conditional, by ValidEndEntry, but not its control.
   */
  lemma EndEnteredByOneEdge(w: Workflow, run: seq<Firing>, start: Id, end: Id, m: nat, n: nat)
    requires StartId(w.nodes) == Some(start) && Run(w.nodes, w.edges, start, run)
    requires forall i, j :: 0 <= i < j < |ExecIncoming(w.nodes, w.edges, end)| ==>
               var into := ExecIncoming(w.nodes, w.edges, end); HeldApart(w, start, run, into[i].source, into[j].source)
    requires m < |ExecIncoming(w.nodes, w.edges, end)| && n < |ExecIncoming(w.nodes, w.edges, end)|
    requires Fires(run, ExecIncoming(w.nodes, w.edges, end)[m].source)
    requires Fires(run, ExecIncoming(w.nodes, w.edges, end)[n].source)
    ensures m == n
  {
    if m != n {
      var into := ExecIncoming(w.nodes, w.edges, end);
      var i, j := if m < n then m else n, if m < n then n else m;
      assert HeldApart(w, start, run, into[i].source, into[j].source);
      SeparablePairNeverBothFires(w.nodes, w.edges, start, run, into[i].source, into[j].source);
    }
  }
}
