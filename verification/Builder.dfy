/**
 * The builder's draft object, its editing tools and its in-place repair. Every
 * tool keeps the draft consistent; the repair computes Repair.Normalize.
 */
module Builder {
  import opened Wrappers
  import opened Digraph
  import opened Workflows
  import opened Validation
  import opened Dictionary
  import opened Repair
  import opened RepairMerge
  import opened RepairTheorems
  import opened RepairNoOp
  import opened RepairValidity
  import opened EdgeIds
  import opened Drafts

  lemma StripIn(es: seq<Edge>, nodes: seq<Node>, id: Id)
    ensures HasExecIn(nodes, Strip(es), id) <==> HasExecIn(nodes, es, id)
    ensures HasExecOut(nodes, Strip(es), id) <==> HasExecOut(nodes, es, id)
  {
    var r := Strip(es);
    forall e | e in es ensures e.(id := "") in r {
      var i :| 0 <= i < |es| && es[i] == e;
      assert r[i] in r;
    }
    forall f | f in r ensures exists e :: e in es && f == e.(id := "") {
      var i :| 0 <= i < |r| && r[i] == f;
      assert es[i] in es;
    }
  }

  method AppendVariables(vars: seq<Variable>, more: seq<Variable>) returns (r: seq<Variable>)
    ensures r == AddVariables(vars, more)
  {
    r := vars;
    var known := Names(vars);
    for i := 0 to |more|
      invariant r == AddVariables(vars, more[..i]) && known == Names(r)
    {
      assert more[..i + 1][..i] == more[..i];
      if more[i].name !in known {
        r := r + [more[i]];
        known := known + {more[i].name};
      }
    }
    assert more[..|more|] == more;
  }

  /** Looks at the entry at k: deletes it, or moves on. */
  method TrimAt(d: Dict<Edge>, start: Id, ends: seq<Id>, k: nat) returns (left: Dict<Edge>, next: nat)
    requires DistinctKeys(d) && k < |d|
    ensures DistinctKeys(left) && forall e :: e in left ==> e in d
    ensures (left == d && next == k + 1) || (|left| == |d| - 1 && next == k)
    ensures DropShortcuts(Strip(Values(left)), start, ends, next) == DropShortcuts(Strip(Values(d)), start, ends, k)
  {
    var x := d[k];
    ghost var done, rest := d[..k], d[k + 1..];
    assert d == done + [x] + rest;
    TrimStep(done, x, rest, start, ends);
    if Shortcut(x.value, start, ends) && Beside(d, x, start) {
      left, next := Delete(d, x.key), k;
    } else {
      left, next := d, k + 1;
    }
  }

  /** The entries left once every shortcut with something beside it is deleted, one by one. */
  method Trimmed(items: Dict<Edge>, start: Id, ends: seq<Id>) returns (left: Dict<Edge>)
    requires DistinctKeys(items)
    ensures DistinctKeys(left) && forall e :: e in left ==> e in items
    ensures Strip(Values(left)) == DropShortcuts(Strip(Values(items)), start, ends, 0)
    ensures |left| <= |items| && (|left| == |items| ==> left == items)
  {
    left := items;
    var k: nat := 0;
    while k < |left|
      invariant k <= |left| <= |items| && (|left| == |items| ==> left == items)
      invariant DistinctKeys(left) && forall e :: e in left ==> e in items
      invariant DropShortcuts(Strip(Values(left)), start, ends, k)
             == DropShortcuts(Strip(Values(items)), start, ends, 0)
      decreases |left| - k
    {
      left, k := TrimAt(left, start, ends, k);
    }
  }

  lemma SubConsistent(nodes: Dict<Node>, items: Dict<Edge>, left: Dict<Edge>)
    requires Consistent(nodes, items) && DistinctKeys(left) && forall e :: e in left ==> e in items
    ensures Consistent(nodes, left)
  {
    forall j | 0 <= j < |left| ensures left[j].key == left[j].value.id && EndKnown(nodes, left[j].value) {
      assert left[j] in left;
      var i :| 0 <= i < |items| && items[i] == left[j];
      assert EndKnown(nodes, items[i].value);
    }
  }

  class Draft {
    var nodes: Dict<Node>
    var edges: Dict<Edge>

    /** Keys equal the ids inside, and every edge joins known nodes. */
    ghost predicate Valid()
      reads this
    {
      Consistent(nodes, edges)
    }

    /** Node list and id-free edge list. */
    ghost function Shape(): Workflow
      reads this
    {
      Workflow(Values(nodes), Strip(Values(edges)))
    }

    /** The workflow the draft stands for. */
    ghost function Full(): Workflow
      reads this
    {
      Workflow(Values(nodes), Values(edges))
    }

    constructor ()
      ensures Valid() && nodes == [] && edges == []
    {
      nodes, edges := [], [];
    }

    // ---- editing tools -----------------------------------------------------

    /** built is the node constructed from the given fields, if they are acceptable. */
    method CreateNode(id: Id, built: Option<Node>) returns (ok: bool)
      requires Valid() && (built.Some? ==> built.value.id == id)
      modifies this`nodes
      ensures Valid()
      ensures ok <==> built.Some? && !HasKey(old(nodes), id)
      ensures Values(nodes) == Values(old(nodes)) + (if ok then [built.value] else [])
    {
      ok := built.Some? && !HasKey(nodes, id);
      if ok {
        PutNew(nodes, id, built.value);
        PutNode(nodes, edges, built.value);
        nodes := Put(nodes, id, built.value);
      }
    }

    /** The rebuilt node keeps id and place. */
    method UpdateNode(id: Id, built: Option<Node>) returns (ok: bool)
      requires Valid() && (built.Some? ==> built.value.id == id)
      modifies this`nodes
      ensures Valid()
      ensures ok <==> built.Some? && HasKey(old(nodes), id)
      ensures !ok ==> nodes == old(nodes)
      ensures ok ==> |nodes| == |old(nodes)| && forall i :: 0 <= i < |nodes| ==>
                nodes[i] == if old(nodes)[i].key == id then Entry(id, built.value) else old(nodes)[i]
    {
      ok := built.Some? && HasKey(nodes, id);
      if ok {
        PutNode(nodes, edges, built.value);
        nodes := Put(nodes, id, built.value);
      }
    }

    /** Removing a node takes every edge touching it along, and nothing else. */
    method RemoveNode(id: Id) returns (ok: bool)
      requires Valid()
      modifies this
      ensures Valid()
      ensures ok <==> HasKey(old(nodes), id)
      ensures !ok ==> nodes == old(nodes) && edges == old(edges)
      ensures ok ==> Values(nodes) == Without(Values(old(nodes)), id) && edges == Rewrite(old(edges), Detaching(id))
    {
      ok := HasKey(nodes, id);
      if ok {
        DetachConsistent(nodes, edges, id);
        nodes := Delete(nodes, id);
        Detach(id);
      }
    }

    method Detach(id: Id)
      requires EdgesKeyed(edges)
      modifies this`edges
      ensures edges == Rewrite(old(edges), Detaching(id)) && EdgesKeyed(edges)
    {
      var items := edges;
      ghost var f := Detaching(id);
      for i := 0 to |items|
        invariant edges == Rewrite(items[..i], f) + items[i..]
      {
        var x := items[i];
        RewriteAt(items, f, i);
        if x.value.source == id || x.value.target == id {
          edges := Delete(edges, x.key);
        }
      }
      assert items[..|items|] == items;
      RewriteKeyed(items, f);
    }

    /** token is the random id of the new edge; a clash would overwrite an edge, never break the draft. */
    method ConnectNodes(source: Id, target: Id, branch: Option<string>, token: Id) returns (ok: bool)
      requires Valid()
      modifies this`edges
      ensures Valid()
      ensures ok <==> HasKey(nodes, source) && HasKey(nodes, target)
      ensures !ok ==> edges == old(edges)
      ensures ok ==> edges == Put(old(edges), token, Edge(token, source, target, branch))
      ensures ok && !HasKey(old(edges), token) ==>
                Values(edges) == Values(old(edges)) + [Edge(token, source, target, branch)]
    {
      ok := HasKey(nodes, source) && HasKey(nodes, target);
      if ok {
        PutEdge(nodes, edges, Edge(token, source, target, branch));
        edges := Put(edges, token, Edge(token, source, target, branch));
      }
    }

    /** Declares the first Start's inputs; an unacceptable one leaves everything as it was. */
    method SetStartInputs(variables: seq<Option<Variable>>) returns (ok: bool)
      requires Valid()
      modifies this`nodes
      ensures Valid()
      ensures ok <==> StartId(Values(old(nodes))).Some? && forall i :: 0 <= i < |variables| ==> variables[i].Some?
      ensures !ok ==> nodes == old(nodes)
      ensures ok ==>
                Values(nodes) == SetVariables(Values(old(nodes)), StartId(Values(old(nodes))).value, Given(variables))
    {
      var start := StartId(Values(nodes));
      if start.None? {
        return false;
      }
      var vars: seq<Variable> := [];
      for i := 0 to |variables|
        invariant vars == Given(variables[..i]) && forall k :: 0 <= k < i ==> variables[k].Some?
      {
        if variables[i].None? {
          return false;
        }
        assert variables[..i + 1][..i] == variables[..i];
        vars := vars + [variables[i].value];
      }
      assert variables[..|variables|] == variables;
      StartIsKey(nodes, start.value);
      PutSame(nodes, Node(start.value, Start(vars)));
      PutNode(nodes, edges, Node(start.value, Start(vars)));
      nodes := Put(nodes, start.value, Node(start.value, Start(vars)));
      return true;
    }

    // ---- repair ------------------------------------------------------------

    method RedirectEdges(extra: Id, kept: Id)
      requires EdgesKeyed(edges)
      modifies this`edges
      ensures edges == Rewrite(old(edges), Redirecting(extra, kept)) && EdgesKeyed(edges)
    {
      var items := edges;
      ghost var f := Redirecting(extra, kept);
      for i := 0 to |items|
        invariant edges == Rewrite(items[..i], f) + items[i..]
      {
        var x := items[i];
        RewriteAt(items, f, i);
        if x.value.target == extra {
          edges := Delete(edges, x.key);
        } else if x.value.source == extra {
          edges := Put(edges, x.key, x.value.(source := kept));
        }
      }
      assert items[..|items|] == items;
      RewriteKeyed(items, f);
    }

    method AbsorbStart(extra: Id, kept: Id)
      requires Valid() && HasKey(nodes, kept) && extra != kept
      modifies this
      ensures Valid() && HasKey(nodes, kept)
      ensures Shape() == Absorb(old(Shape()), kept, extra)
    {
      AbsorbConsistent(nodes, edges, extra, kept);
      AbsorbShape(nodes, edges, extra, kept);
      RedirectEdges(extra, kept);
      nodes := Delete(nodes, extra);
    }

    /** The next Start taken in. */
    method AbsorbNext(kept: Id, extras: seq<Id>, i: nat, ghost w: Workflow)
      requires i < |extras| && Valid() && HasKey(nodes, kept) && extras[i] != kept
      requires Shape() == AbsorbAll(w, kept, extras[..i])
      modifies this
      ensures Valid() && HasKey(nodes, kept)
      ensures Shape() == AbsorbAll(w, kept, extras[..i + 1])
    {
      MergeStep(w, kept, extras, i);
      AbsorbStart(extras[i], kept);
    }

    /** Takes in every Start after the first, collecting input variables. */
    method AbsorbStarts(kept: Id, extras: seq<Id>) returns (variables: seq<Variable>)
      requires Valid() && HasKey(nodes, kept) && kept !in extras
      modifies this
      ensures Valid() && HasKey(nodes, kept)
      ensures Shape() == AbsorbAll(old(Shape()), kept, extras)
      ensures variables == MergedVariables(Values(old(nodes)), kept, extras)
    {
      var before := Values(nodes);
      variables := VariablesOf(before, kept);
      ghost var w := Shape();
      NothingMerged(w, kept, extras);
      for i := 0 to |extras|
        invariant Valid() && HasKey(nodes, kept)
        invariant Shape() == AbsorbAll(w, kept, extras[..i])
        invariant variables == MergedVariables(before, kept, extras[..i])
      {
        variables := CollectNext(before, kept, extras, i, variables);
        AbsorbNext(kept, extras, i, w);
      }
      assert extras[..|extras|] == extras;
    }

    /** The kept Start gets the variables of all. */
    method GiveVariables(start: Id, variables: seq<Variable>)
      requires Valid() && HasKey(nodes, start)
      modifies this`nodes
      ensures Valid()
      ensures Shape() == old(Shape()).(nodes := SetVariables(Values(old(nodes)), start, variables))
    {
      PutSame(nodes, Node(start, Start(variables)));
      PutNode(nodes, edges, Node(start, Start(variables)));
      nodes := Put(nodes, start, Node(start, Start(variables)));
    }

    method MergeInto(kept: Id, extras: seq<Id>)
      requires Valid() && HasKey(nodes, kept) && kept !in extras
      modifies this
      ensures Valid()
      ensures var m, vars := AbsorbAll(old(Shape()), kept, extras), MergedVariables(old(Shape()).nodes, kept, extras);
              Shape() == Workflow(SetVariables(m.nodes, kept, vars), m.edges)
    {
      var variables := AbsorbStarts(kept, extras);
      GiveVariables(kept, variables);
    }

    method MergeExtraStarts()
      requires Valid()
      modifies this
      ensures Valid()
      ensures Shape() == MergeStarts(old(Shape()))
      ensures |StartIds(Values(old(nodes)))| < 2 ==> nodes == old(nodes) && edges == old(edges)
    {
      var starts := StartIds(Values(nodes));
      if |starts| >= 2 {
        StartsListed(nodes, starts);
        MergeInto(starts[0], starts[1..]);
      }
    }

    method AddNode(n: Node)
      requires Valid() && !HasKey(nodes, n.id)
      modifies this`nodes
      ensures Valid()
      ensures Shape() == old(Shape()).(nodes := Values(old(nodes)) + [n])
      ensures forall x :: HasKey(nodes, x) <==> HasKey(old(nodes), x) || x == n.id
    {
      PutNew(nodes, n.id, n);
      PutNode(nodes, edges, n);
      nodes := Put(nodes, n.id, n);
    }

    method UniqueId(base: Id) returns (id: Id)
      ensures !HasKey(nodes, id)
      ensures !HasKey(nodes, base) ==> id == base
    {
      id := FreshKey(KeySet(nodes), base);
      assert forall k :: HasKey(nodes, k) <==> k in KeySet(nodes);
    }

    method EnsureEndpoints() returns (ghost startId: Id, ghost endId: Id)
      requires Valid()
      modifies this`nodes
      ensures Valid()
      ensures Shape() == EnsureEnd(EnsureStart(old(Shape()), startId), endId)
      ensures StartIds(Values(old(nodes))) == [] ==> !HasKey(old(nodes), startId)
      ensures EndIds(Values(old(nodes))) == [] ==> !HasKey(old(nodes), endId)
      ensures StartIds(Values(old(nodes))) == [] && EndIds(Values(old(nodes))) == [] ==> startId != endId
      ensures StartIds(Values(old(nodes))) != [] && EndIds(Values(old(nodes))) != [] ==> nodes == old(nodes)
      ensures !HasKey(old(nodes), "start") && !HasKey(old(nodes), "end") ==> startId == "start" && endId == "end"
    {
      var s := UniqueId("start");
      startId := s;
      if StartIds(Values(nodes)) == [] && nodes != [] {
        AddNode(Node(s, Start([])));
        assert Values(nodes)[..|old(nodes)|] == Values(old(nodes));
      }
      var e := UniqueId("end");
      endId := e;
      if EndIds(Values(nodes)) == [] && nodes != [] {
        AddNode(Node(e, End));
      }
    }

    method AddEdge(source: Id, target: Id)
      requires Valid() && HasKey(nodes, source) && HasKey(nodes, target)
      modifies this`edges
      ensures Valid()
      ensures Shape() == old(Shape()).(edges := old(Shape()).edges + [Link(source, target)])
      ensures edges != old(edges) && |edges| == |old(edges)| + 1
    {
      var id := FreshKey(KeySet(edges), "e");
      assert forall k :: HasKey(edges, k) ==> k in KeySet(edges);
      PutNew(edges, id, Edge(id, source, target, None));
      edges := Put(edges, id, Edge(id, source, target, None));
      StripSnoc(old(edges), Entry(id, Edge(id, source, target, None)));
    }

    method ConnectHeads(start: Id)
      requires Valid() && HasKey(nodes, start)
      modifies this`edges
      ensures Valid()
      ensures Shape().edges == AddHeads(Values(nodes), old(Shape()).edges, start, 0)
      ensures |edges| >= |old(edges)| && (|edges| == |old(edges)| ==> edges == old(edges))
    {
      var list := Values(nodes);
      for i := 0 to |list|
        invariant Valid() && list == Values(nodes)
        invariant AddHeads(list, Shape().edges, start, i) == AddHeads(list, old(Shape()).edges, start, 0)
        invariant |edges| >= |old(edges)| && (|edges| == |old(edges)| ==> edges == old(edges))
      {
        StripIn(Values(edges), list, list[i].id);
        if NeedsIn(list, Values(edges), start, list[i]) {
          assert nodes[i].key == list[i].id;
          AddEdge(start, list[i].id);
        }
      }
    }

    method TrimShortcuts(start: Id, ends: seq<Id>)
      requires Valid()
      modifies this`edges
      ensures Valid()
      ensures Shape().edges == DropShortcuts(old(Shape()).edges, start, ends, 0)
      ensures |edges| <= |old(edges)| && (|edges| == |old(edges)| ==> edges == old(edges))
    {
      var left := Trimmed(edges, start, ends);
      SubConsistent(nodes, edges, left);
      edges := left;
    }

    method ConnectTails(start: Id, end: Id)
      requires Valid() && HasKey(nodes, end)
      modifies this`edges
      ensures Valid()
      ensures Shape().edges == AddTails(Values(nodes), old(Shape()).edges, start, end, 0)
      ensures |edges| >= |old(edges)| && (|edges| == |old(edges)| ==> edges == old(edges))
    {
      var list := Values(nodes);
      for i := 0 to |list|
        invariant Valid() && list == Values(nodes)
        invariant AddTails(list, Shape().edges, start, end, i) == AddTails(list, old(Shape()).edges, start, end, 0)
        invariant |edges| >= |old(edges)| && (|edges| == |old(edges)| ==> edges == old(edges))
      {
        StripIn(Values(edges), list, list[i].id);
        if NeedsOut(list, Values(edges), start, end, list[i]) {
          assert nodes[i].key == list[i].id;
          AddEdge(list[i].id, end);
        }
      }
    }

    method WireAll(start: Id, ends: seq<Id>)
      requires Valid() && HasKey(nodes, start) && forall e :: e in ends ==> HasKey(nodes, e)
      modifies this`edges
      ensures Valid()
      ensures Shape().edges == Wire(Values(nodes), old(Shape()).edges, start, ends)
      ensures PassesIdle(Values(nodes), old(Shape()).edges, start, ends) ==> edges == old(edges)
    {
      ConnectHeads(start);
      TrimShortcuts(start, ends);
      if |ends| == 1 {
        ConnectTails(start, ends[0]);
        StripIn(Values(edges), Values(nodes), ends[0]);
        if !HasExecIn(Values(nodes), Values(edges), ends[0]) {
          AddEdge(start, ends[0]);
        }
      }
    }

    ghost predicate Idle()
      reads this
    {
      var ns := Values(nodes);
      && |StartIds(ns)| == 1 && EndIds(ns) != [] && StartId(ns) == Some(StartIds(ns)[0])
      && PassesIdle(ns, Shape().edges, StartIds(ns)[0], EndIds(ns))
    }

    method RunPasses() returns (ghost startId: Id, ghost endId: Id)
      requires Valid()
      modifies this
      ensures Valid()
      ensures FreshNames(old(Shape()), startId, endId)
      ensures Shape() == Normalize(old(Shape()), startId, endId)
      ensures old(Idle()) ==> nodes == old(nodes) && edges == old(edges)
    {
      startId, endId := PrepareEndpoints();
      WireFromStart();
    }

    /** The three passes, on a draft that has a Start. */
    method WireFromStart()
      requires Valid()
      modifies this`edges
      ensures Valid()
      ensures var start := StartId(Values(nodes));
        Shape().edges == if start.None? then old(Shape()).edges
                         else Wire(Values(nodes), old(Shape()).edges, start.value, EndIds(Values(nodes)))
      ensures old(Idle()) ==> edges == old(edges)
    {
      EndpointsKeyed(nodes);
      var start, ends := StartId(Values(nodes)), EndIds(Values(nodes));
      if start.Some? {
        WireAll(start.value, ends);
      }
    }

    method PrepareEndpoints() returns (ghost startId: Id, ghost endId: Id)
      requires Valid()
      modifies this
      ensures Valid()
      ensures FreshNames(old(Shape()), startId, endId)
      ensures Shape() == EnsureEnd(EnsureStart(MergeStarts(old(Shape())), startId), endId)
      ensures |StartIds(Values(old(nodes)))| == 1 && EndIds(Values(old(nodes))) != [] ==>
                nodes == old(nodes) && edges == old(edges)
    {
      MergeExtraStarts();
      KeysAreIds(nodes);
      startId, endId := EnsureEndpoints();
    }

    /** A valid draft on which the repair has nothing to do. */
    ghost predicate Settled()
      reads this
    {
      && Validation.Valid(Full()) && LeftAlone(Shape())
      && ShortcutsAlone(Shape().edges, StartIds(Values(nodes))[0], EndIds(Values(nodes)))
    }

    /**
     * The whole repair. On repairable drafts it leaves one Start, one End and
     * everything reachable; on settled ones it changes nothing at all; and it
     * leaves a valid draft valid exactly when StaysValid says so.
     */
    method NormalizeOrchestration() returns (ghost startId: Id, ghost endId: Id)
      requires Valid()
      modifies this
      ensures Valid()
      ensures FreshNames(old(Shape()), startId, endId)
      ensures Shape() == Normalize(old(Shape()), startId, endId)
      ensures Repairable(old(Shape())) ==>
        && Repairable(Shape()) && |StartIds(Values(nodes))| == 1 && |EndIds(Values(nodes))| == 1
        && forall x :: !ReachDefect(Values(nodes), Shape().edges, StartIds(Values(nodes))[0], x)
      ensures old(Settled()) ==> nodes == old(nodes) && edges == old(edges)
      ensures old(Validation.Valid(Full())) ==> (Validation.Valid(Full()) <==> StaysValid(old(Shape())))
    {
      ghost var w, full := Shape(), Full();
      if Settled() {
        ValidStripped(Values(nodes), Values(edges));
        NothingMoves(w, "", "");
      }
      startId, endId := RunPasses();
      if Repairable(w) {
        RepairGivesReachability(w, startId, endId);
      }
      KeepsValidIff(full, Full(), startId, endId);
    }
  }

  /** The effect of a repair on validity, edge ids included. */
  lemma KeepsValidIff(before: Workflow, after: Workflow, startId: Id, endId: Id)
    requires after.(edges := Strip(after.edges)) == Normalize(before.(edges := Strip(before.edges)), startId, endId)
    ensures Validation.Valid(before) ==>
              (Validation.Valid(after) <==> StaysValid(before.(edges := Strip(before.edges))))
  {
    ValidStripped(before.nodes, before.edges);
    ValidStripped(after.nodes, after.edges);
    if Validation.Valid(before) {
      RepairKeepsValidIff(before.(edges := Strip(before.edges)), startId, endId);
    }
  }

  lemma EndpointsKeyed(nodes: Dict<Node>)
    requires NodesKeyed(nodes)
    ensures StartId(Values(nodes)).Some? ==> HasKey(nodes, StartId(Values(nodes)).value)
    ensures forall e :: e in EndIds(Values(nodes)) ==> HasKey(nodes, e)
  {
    KeysAreIds(nodes);
  }

  lemma RewriteKeyed(d: Dict<Edge>, f: Edge -> Option<Edge>)
    requires EdgesKeyed(d) && forall e :: f(e).Some? ==> f(e).value.id == e.id
    ensures EdgesKeyed(Rewrite(d, f))
  {
    RewriteDistinct(d, f);
    forall j | 0 <= j < |Rewrite(d, f)| ensures Rewrite(d, f)[j].key == Rewrite(d, f)[j].value.id {
      var i := RewriteFrom(d, f, j);
    }
  }

  /** Some entry other than x leaves Start or enters x's target. */
  predicate Beside(d: Dict<Edge>, x: Entry<Edge>, start: Id) {
    exists j :: 0 <= j < |d| && d[j].key != x.key && (d[j].value.source == start || d[j].value.target == x.value.target)
  }

  lemma OthersAgree(d: Dict<Edge>, start: Id, k: nat)
    requires DistinctKeys(d) && k < |d|
    ensures Beside(d, d[k], start) <==> HasOther(Strip(Values(d)), start, k)
  {
    var now := Strip(Values(d));
    if Beside(d, d[k], start) {
      var j :| 0 <= j < |d| && d[j].key != d[k].key
          && (d[j].value.source == start || d[j].value.target == d[k].value.target);
      assert now[j].source == d[j].value.source;
    }
    if HasOther(now, start, k) {
      var j :| 0 <= j < |now| && j != k && (now[j].source == start || now[j].target == now[k].target);
      assert d[j].key != d[k].key;
    }
  }

  lemma StartIsKey(nodes: Dict<Node>, start: Id)
    requires NodesKeyed(nodes) && StartId(Values(nodes)) == Some(start)
    ensures HasKey(nodes, start)
  {
    KeysAreIds(nodes);
    var n :| n in Values(nodes) && n.kind.Start? && n.id == start;
  }

  lemma StartsListed(nodes: Dict<Node>, starts: seq<Id>)
    requires NodesKeyed(nodes) && starts == StartIds(Values(nodes))
    ensures starts != [] ==> HasKey(nodes, starts[0])
    ensures forall i :: 0 < i < |starts| ==> starts[i] != starts[0]
  {
    var vs := Values(nodes);
    KeysAreIds(nodes);
    EndpointIdsDistinct(vs);
    if starts != [] {
      assert starts[0] in starts;
      var n :| n in vs && n.kind.Start? && n.id == starts[0];
      assert n.id in Ids(vs);
    }
  }

  /** The edges left when the entry between done and rest goes. */
  lemma TrimmedEdges(done: Dict<Edge>, x: Entry<Edge>, rest: Dict<Edge>)
    ensures var now := Strip(Values(done + [x] + rest));
      |now| > |done| && now[..|done|] + now[|done| + 1..] == Strip(Values(done + rest))
  {
  }

  lemma TrimStep(done: Dict<Edge>, x: Entry<Edge>, rest: Dict<Edge>, start: Id, ends: seq<Id>)
    requires DistinctKeys(done + [x] + rest)
    ensures var all := done + [x] + rest;
      var now, k := Strip(Values(all)), |done|;
      if Shortcut(x.value, start, ends) && Beside(all, x, start) then
        && Delete(all, x.key) == done + rest
        && DropShortcuts(now, start, ends, k) == DropShortcuts(Strip(Values(done + rest)), start, ends, k)
      else DropShortcuts(now, start, ends, k) == DropShortcuts(now, start, ends, k + 1)
  {
    var all := done + [x] + rest;
    var now, k := Strip(Values(all)), |done|;
    assert all[k] == x;
    OthersAgree(all, start, k);
    AtEntry(done, x, rest, x.value);
    TrimmedEdges(done, x, rest);
  }

  /** One entry of the rewriting loop. */
  lemma RewriteAt(items: Dict<Edge>, f: Edge -> Option<Edge>, i: nat)
    requires DistinctKeys(items) && i < |items|
    ensures var now, next, x :=
              Rewrite(items[..i], f) + items[i..], Rewrite(items[..i + 1], f) + items[i + 1..], items[i];
      match f(x.value)
      case None => Delete(now, x.key) == next
      case Some(v) => Put(now, x.key, v) == next && (v == x.value ==> now == next)
  {
    var x, done, rest := items[i], Rewrite(items[..i], f), items[i + 1..];
    assert items[i..] == [x] + rest;
    assert done + items[i..] == done + [x] + rest;
    MixDistinct(items, f, i);
    AtEntry(done, x, rest, if f(x.value).Some? then f(x.value).value else x.value);
    RewriteStep(items, f, i);
  }

  lemma PutNode(nodes: Dict<Node>, edges: Dict<Edge>, n: Node)
    requires Consistent(nodes, edges)
    ensures Consistent(Put(nodes, n.id, n), edges)
  {
    var put := Put(nodes, n.id, n);
    forall i | 0 <= i < |edges| ensures EndKnown(put, edges[i].value) {
      assert EndKnown(nodes, edges[i].value);
      PutKeeps(nodes, n, edges[i].value.source);
      PutKeeps(nodes, n, edges[i].value.target);
    }
  }

  lemma PutKeeps(nodes: Dict<Node>, n: Node, x: Id)
    requires HasKey(nodes, x)
    ensures HasKey(Put(nodes, n.id, n), x)
  {
    var i :| 0 <= i < |nodes| && nodes[i].key == x;
    assert Put(nodes, n.id, n)[i].key == x;
  }

  lemma PutEdge(nodes: Dict<Node>, edges: Dict<Edge>, e: Edge)
    requires Consistent(nodes, edges) && HasKey(nodes, e.source) && HasKey(nodes, e.target)
    ensures Consistent(nodes, Put(edges, e.id, e))
    ensures !HasKey(edges, e.id) ==> Values(Put(edges, e.id, e)) == Values(edges) + [e]
  {
    if !HasKey(edges, e.id) {
      PutNew(edges, e.id, e);
    }
  }

  lemma DetachConsistent(nodes: Dict<Node>, edges: Dict<Edge>, id: Id)
    requires Consistent(nodes, edges)
    ensures Consistent(Delete(nodes, id), Rewrite(edges, Detaching(id)))
    ensures Values(Delete(nodes, id)) == Without(Values(nodes), id)
  {
    DeleteNode(nodes, id);
    RewriteKeyed(edges, Detaching(id));
    DetachedEnds(nodes, edges, id);
  }

  lemma DetachedEnds(nodes: Dict<Node>, edges: Dict<Edge>, id: Id)
    requires Consistent(nodes, edges) && forall x :: HasKey(Delete(nodes, id), x) <==> HasKey(nodes, x) && x != id
    ensures EndsKnown(Delete(nodes, id), Rewrite(edges, Detaching(id)))
  {
    var r := Rewrite(edges, Detaching(id));
    forall j | 0 <= j < |r| ensures EndKnown(Delete(nodes, id), r[j].value) {
      var i := RewriteFrom(edges, Detaching(id), j);
      assert EndKnown(nodes, edges[i].value);
    }
  }

  lemma AbsorbConsistent(nodes: Dict<Node>, edges: Dict<Edge>, extra: Id, kept: Id)
    requires Consistent(nodes, edges) && HasKey(nodes, kept) && extra != kept
    ensures Consistent(Delete(nodes, extra), Rewrite(edges, Redirecting(extra, kept)))
    ensures HasKey(Delete(nodes, extra), kept)
  {
    AbsorbNodes(nodes, extra, kept);
    RedirectKeyed(edges, extra, kept);
    RedirectedEnds(nodes, edges, extra, kept);
  }

  lemma RedirectKeyed(edges: Dict<Edge>, extra: Id, kept: Id)
    requires EdgesKeyed(edges)
    ensures EdgesKeyed(Rewrite(edges, Redirecting(extra, kept)))
  {
    RewriteKeyed(edges, Redirecting(extra, kept));
  }

  lemma AbsorbShape(nodes: Dict<Node>, edges: Dict<Edge>, extra: Id, kept: Id)
    requires NodesKeyed(nodes) && HasKey(nodes, kept) && extra != kept
    ensures Workflow(Values(Delete(nodes, extra)), Strip(Values(Rewrite(edges, Redirecting(extra, kept)))))
         == Absorb(Workflow(Values(nodes), Strip(Values(edges))), kept, extra)
  {
    AbsorbNodes(nodes, extra, kept);
    RewriteRedirects(edges, extra, kept);
  }

  lemma AbsorbNodes(nodes: Dict<Node>, extra: Id, kept: Id)
    requires NodesKeyed(nodes) && HasKey(nodes, kept) && extra != kept
    ensures NodesKeyed(Delete(nodes, extra)) && HasKey(Delete(nodes, extra), kept)
    ensures Values(Delete(nodes, extra)) == Without(Values(nodes), extra)
  {
    DeleteNode(nodes, extra);
  }

  lemma RedirectedEnds(nodes: Dict<Node>, edges: Dict<Edge>, extra: Id, kept: Id)
    requires NodesKeyed(nodes) && EndsKnown(nodes, edges) && HasKey(nodes, kept) && extra != kept
    ensures EndsKnown(Delete(nodes, extra), Rewrite(edges, Redirecting(extra, kept)))
  {
    var r := Rewrite(edges, Redirecting(extra, kept));
    forall j | 0 <= j < |r| ensures EndKnown(Delete(nodes, extra), r[j].value) {
      var i := RewriteFrom(edges, Redirecting(extra, kept), j);
      assert EndKnown(nodes, edges[i].value);
      DeleteKeys(nodes, extra, r[j].value.source);
      DeleteKeys(nodes, extra, r[j].value.target);
    }
  }

  lemma NothingMerged(w: Workflow, kept: Id, extras: seq<Id>)
    ensures AbsorbAll(w, kept, extras[..0]) == w
              && MergedVariables(w.nodes, kept, extras[..0]) == VariablesOf(w.nodes, kept)
  {
  }

  lemma MergeStep(w: Workflow, kept: Id, extras: seq<Id>, i: nat)
    requires i < |extras|
    ensures AbsorbAll(w, kept, extras[..i + 1]) == Absorb(AbsorbAll(w, kept, extras[..i]), kept, extras[i])
  {
    assert extras[..i + 1][..i] == extras[..i];
  }

  /** The input variables collected so far, and those of Start i. */
  method CollectNext(nodes: seq<Node>, kept: Id, extras: seq<Id>, i: nat, variables: seq<Variable>)
    returns (more: seq<Variable>)
    requires i < |extras| && variables == MergedVariables(nodes, kept, extras[..i])
    ensures more == MergedVariables(nodes, kept, extras[..i + 1])
  {
    assert extras[..i + 1][..i] == extras[..i];
    more := AppendVariables(variables, VariablesOf(nodes, extras[i]));
  }

  function Given(variables: seq<Option<Variable>>): seq<Variable> {
    if variables == [] then []
    else
      var k := |variables| - 1;
      Given(variables[..k]) + (if variables[k].Some? then [variables[k].value] else [])
  }
}
