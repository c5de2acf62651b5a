/**
 * Exactly when repairing a valid draft leaves it valid. With one End the
 * repair only changes edges into it, so all depends on whether the End is
 * still reached and the nodes let into it are pairwise separable; with several
 * Ends it only drops Start-to-End edges, and every drop leaves an End without
 * an entry.
 */
module RepairValidity {
  import opened Wrappers
  import opened Digraph
  import opened Workflows
  import opened BranchMarkers
  import opened Exclusivity
  import opened Validation
  import opened Compile
  import opened Repair
  import opened RepairMerge
  import opened RepairWire
  import opened RepairTheorems
  import opened RepairNoOp

  ghost predicate Leaf(es: seq<Edge>, t: Id) {
    forall e :: e in es ==> e.source != t
  }

  /** A new edge into t that breaks no rule of its source. */
  ghost predicate NewEntry(ns: seq<Node>, t: Id, e: Edge) {
    && e == Link(e.source, t) && Executable(ns, e.source) && e.source != t
    && !Conditional(KindOf(ns, e.source)) && !KindOf(ns, e.source).Join?
  }

  /** Only edges into t differ, and what is new is a NewEntry. */
  ghost predicate Rewired(ns: seq<Node>, es: seq<Edge>, r: seq<Edge>, t: Id) {
    && (forall e: Edge :: e.target != t ==> (e in r <==> e in es))
    && (forall e :: e in r && e !in es ==> NewEntry(ns, t, e))
  }

  // ---- labels do not change --------------------------------------------------

  /** A path that ends elsewhere never visits a leaf after its first node. */
  lemma PathAvoidsLeaf(ns: seq<Node>, es: seq<Edge>, t: Id, p: seq<Id>, i: nat)
    requires Leaf(es, t) && Path(FlowArcs(ns, es), p) && p[|p| - 1] != t && i < |p|
    ensures p[i] != t
  {
    if i < |p| - 1 {
      assert (p[i], p[i + 1]) in FlowArcs(ns, es);
    }
  }

  lemma PathTransfers(ns: seq<Node>, es: seq<Edge>, r: seq<Edge>, t: Id, p: seq<Id>)
    requires Leaf(es, t) && Path(FlowArcs(ns, es), p) && p[|p| - 1] != t
    requires forall e: Edge :: e.target != t && e in es ==> e in r
    ensures Path(FlowArcs(ns, r), p)
  {
    forall i | 0 <= i < |p| - 1 ensures (p[i], p[i + 1]) in FlowArcs(ns, r) {
      assert (p[i], p[i + 1]) in FlowArcs(ns, es);
      PathAvoidsLeaf(ns, es, t, p, i + 1);
      var e :| e in es && IsKnown(ns, e.source) && StartId(ns) != Some(e.target)
          && (p[i], p[i + 1]) == (e.source, e.target);
      assert e in r;
    }
  }

  lemma MarkTransfers(ns: seq<Node>, es: seq<Edge>, r: seq<Edge>, t: Id, v: Id, m: Marker)
    requires Leaf(es, t) && v != t && Marked(ns, es, v, m)
    requires forall e: Edge :: e.target != t && e in es ==> e in r
    ensures Marked(ns, r, v, m)
  {
    var e, p :| MarkedVia(ns, es, v, m, e, p);
    PathAvoidsLeaf(ns, es, t, p, 0);
    PathTransfers(ns, es, r, t, p);
    assert MarkedVia(ns, r, v, m, e, p);
  }

  lemma SeparationKept(ns: seq<Node>, es: seq<Edge>, r: seq<Edge>, t: Id, a: Id, b: Id)
    requires Leaf(es, t) && Leaf(r, t) && Rewired(ns, es, r, t) && a != t && b != t
    ensures Separable(ns, r, a, b) <==> Separable(ns, es, a, b)
  {
    forall v, m | v == a || v == b ensures Marked(ns, es, v, m) <==> Marked(ns, r, v, m) {
      if Marked(ns, es, v, m) {
        MarkTransfers(ns, es, r, t, v, m);
      }
      if Marked(ns, r, v, m) {
        MarkTransfers(ns, r, es, t, v, m);
      }
    }
    forall c ensures Separates(ns, r, c, a, b) <==> Separates(ns, es, c, a, b) {
    }
  }

  lemma SeparableSymmetric(ns: seq<Node>, es: seq<Edge>, a: Id, b: Id)
    requires Separable(ns, es, a, b)
    ensures Separable(ns, es, b, a)
  {
    var c :| Separates(ns, es, c, a, b);
    assert Separates(ns, es, c, b, a);
  }

  // ---- the other rules keep holding -------------------------------------------

  lemma RewiredLeaf(ns: seq<Node>, es: seq<Edge>, r: seq<Edge>, t: Id)
    requires Leaf(es, t) && Rewired(ns, es, r, t)
    ensures Leaf(r, t)
  {
  }

  lemma ReachElsewhere(ns: seq<Node>, es: seq<Edge>, r: seq<Edge>, t: Id, s: Id, v: Id)
    requires Leaf(es, t) && v != t && Reaches(ExecArcs(ns, es), s, v)
    requires forall e: Edge :: e.target != t && e in es ==> e in r
    ensures Reaches(ExecArcs(ns, r), s, v)
  {
    var p :| Joins(ExecArcs(ns, es), s, v, p);
    forall i | 0 <= i < |p| - 1 ensures (p[i], p[i + 1]) in ExecArcs(ns, r) {
      assert (p[i], p[i + 1]) in ExecArcs(ns, es);
      if i + 1 < |p| - 1 {
        assert (p[i + 1], p[i + 1 + 1]) in ExecArcs(ns, es);
      }
      var e :| e in es && Executable(ns, e.source) && Executable(ns, e.target)
          && (p[i], p[i + 1]) == (e.source, e.target);
      assert e in r;
    }
    assert Joins(ExecArcs(ns, r), s, v, p);
  }

  lemma AllReached(w: Workflow, r: seq<Edge>, s: Id, t: Id, v: Id)
    requires Valid(w) && StartIds(w.nodes) == [s] && EndIds(w.nodes) == [t] && Leaf(w.edges, t)
    requires Rewired(w.nodes, w.edges, r, t) && HasExecIn(w.nodes, r, t) && Executable(w.nodes, v)
    ensures Reaches(ExecArcs(w.nodes, r), s, v)
  {
    ValidBasics(w);
    var ns := w.nodes;
    if v != t {
      ValidReaches(w, Lookup(ns, v).value);
      ReachElsewhere(ns, w.edges, r, t, s, v);
    } else {
      RewiredLeaf(ns, w.edges, r, t);
      var e :| e in r && e.target == t && Executable(ns, e.source);
      ValidReaches(w, Lookup(ns, e.source).value);
      ReachElsewhere(ns, w.edges, r, t, s, e.source);
      assert (e.source, t) in ExecArcs(ns, r);
      ReachesArc(ExecArcs(ns, r), e.source, t);
      ReachesTrans(ExecArcs(ns, r), s, e.source, t);
    }
  }

  /** Joins keep their outgoing edges. */
  ghost predicate JoinsKept(ns: seq<Node>, es: seq<Edge>, r: seq<Edge>) {
    forall v :: KindOf(ns, v).Join? ==> ExecOutgoing(ns, r, v) == ExecOutgoing(ns, es, v)
  }

  lemma JoinDefectKept(ns: seq<Node>, es: seq<Edge>, r: seq<Edge>, x: Violation)
    requires DistinctIds(ns) && JoinsKept(ns, es, r)
    ensures JoinDefect(ns, r, |ns|, x) ==> JoinDefect(ns, es, |ns|, x)
  {
    if JoinDefect(ns, r, |ns|, x) {
      var v :| v in ns[..|ns|] && v.id == x.id && v.kind.Join?;
      assert ns[..|ns|] == ns;
      LookupMember(ns, v);
    }
  }

  lemma BranchDefectKept(ns: seq<Node>, es: seq<Edge>, r: seq<Edge>, t: Id, x: Violation)
    requires Rewired(ns, es, r, t)
    ensures BranchDefect(ns, r, x) ==> BranchDefect(ns, es, x)
  {
    if BranchDefect(ns, r, x) {
      if x.MissingBranch? {
        var e :| e in r && e.id == x.edge && e.source == x.source && e.branch.None?;
        assert e in es;
      } else {
        var e :| e in r && e.id == x.edge && e.source == x.source && e.branch == Some(x.branch);
        assert e in es;
      }
    }
  }

  lemma RewiredKnown(w: Workflow, r: seq<Edge>, t: Id)
    requires Valid(w) && Rewired(w.nodes, w.edges, r, t) && t in Ids(w.nodes)
    ensures forall e :: e in r ==> e.source in Ids(w.nodes) && e.target in Ids(w.nodes)
    ensures CleanEdges(w.nodes, r) == r
  {
    ValidBasics(w);
    forall e | e in r ensures e.source in Ids(w.nodes) && e.target in Ids(w.nodes) {
      if e !in w.edges {
        assert NewEntry(w.nodes, t, e);
      }
    }
    FilterAll(r, (e: Edge) => e.source in Ids(w.nodes) && e.target in Ids(w.nodes));
  }

  lemma NoBasicDefect(w: Workflow, r: seq<Edge>, x: Violation)
    requires Valid(w) && forall e :: e in r ==> e.source in Ids(w.nodes) && e.target in Ids(w.nodes)
    ensures !IdDefect(w.nodes, x) && !CountDefect(w.nodes, x) && !EndpointDefect(w.nodes, r, x)
  {
    assert !Defect(w, x);
  }

  ghost predicate AllReachable(ns: seq<Node>, r: seq<Edge>, s: Id) {
    forall v :: Executable(ns, v) ==> Reaches(ExecArcs(ns, r), s, v)
  }

  /** After rewiring, a valid workflow is valid exactly when all is reached and the End may be entered. */
  lemma ValidIffEntered(w: Workflow, r: seq<Edge>, s: Id, t: Id)
    requires Valid(w) && StartIds(w.nodes) == [s] && EndIds(w.nodes) == [t]
    requires Rewired(w.nodes, w.edges, r, t) && JoinsKept(w.nodes, w.edges, r)
    ensures Valid(Workflow(w.nodes, r)) <==>
            AllReachable(w.nodes, r, s) && MayEnterEnd(w.nodes, r, ExecIncoming(w.nodes, r, t))
  {
    ValidBasics(w);
    EndpointsExecutable(w, s, t);
    RewiredKnown(w, r, t);
    forall x
      ensures Defect(Workflow(w.nodes, r), x) <==> EndDefect(w.nodes, r, [t], x) || ReachDefect(w.nodes, r, s, x)
    {
      assert !Defect(w, x);
      NoBasicDefect(w, r, x);
      JoinDefectKept(w.nodes, w.edges, r, x);
      BranchDefectKept(w.nodes, w.edges, r, t, x);
    }
    NoReachDefectIff(w.nodes, r, s);
    NoEndDefectIff(w.nodes, r, t);
  }

  lemma NoReachDefectIff(ns: seq<Node>, r: seq<Edge>, s: Id)
    ensures AllReachable(ns, r, s) <==> forall x :: !ReachDefect(ns, r, s, x)
  {
    if forall x :: !ReachDefect(ns, r, s, x) {
      forall v | Executable(ns, v) ensures Reaches(ExecArcs(ns, r), s, v) {
        assert !ReachDefect(ns, r, s, Unreachable(v));
      }
    }
  }

  lemma NoEndDefectIff(ns: seq<Node>, r: seq<Edge>, t: Id)
    ensures MayEnterEnd(ns, r, ExecIncoming(ns, r, t)) <==> forall x :: !EndDefect(ns, r, [t], x)
  {
    var x := EndIncoming(t, |ExecIncoming(ns, r, t)|);
    assert EndDefect(ns, r, [t], x) <==> !MayEnterEnd(ns, r, ExecIncoming(ns, r, t));
  }

  // ---- lists of edges --------------------------------------------------------

  lemma Assoc(a: seq<Edge>, b: seq<Edge>, c: seq<Edge>)
    ensures a + (b + c) == a + b + c
  {
  }

  lemma {:induction false} FilterAppend(a: seq<Edge>, b: seq<Edge>, keep: Edge -> bool)
    ensures Filter(a + b, keep) == Filter(a, keep) + Filter(b, keep)
  {
    if b == [] {
      assert a + b == a;
    } else {
      var most, x := b[..|b| - 1], b[|b| - 1];
      FilterAppend(a, most, keep);
      FilterSnoc(a + most, x, keep);
      FilterSnoc(most, x, keep);
      assert b == most + [x];
      Assoc(a, most, [x]);
      Assoc(Filter(a, keep), Filter(most, keep), if keep(x) then [x] else []);
    }
  }

  lemma {:induction false} FilterNone(a: seq<Edge>, keep: Edge -> bool)
    requires forall e :: e in a ==> !keep(e)
    ensures Filter(a, keep) == []
  {
    EmptyOrFirst(Filter(a, keep));
  }

  lemma FilterWithout(a: seq<Edge>, x: Edge, b: seq<Edge>, keep: Edge -> bool)
    requires !keep(x)
    ensures Filter(a + [x] + b, keep) == Filter(a + b, keep)
  {
    FilterSnoc(a, x, keep);
    FilterAppend(a, b, keep);
    FilterAppend(a + [x], b, keep);
  }

  lemma Reassembled(a: seq<Edge>, k: nat)
    requires k < |a|
    ensures a[..k] + [a[k]] + a[k + 1..] == a
  {
  }

  lemma FilterDropped(a: seq<Edge>, k: nat, keep: Edge -> bool)
    requires k < |a| && !keep(a[k])
    ensures Filter(a[..k] + a[k + 1..], keep) == Filter(a, keep)
  {
    FilterWithout(a[..k], a[k], a[k + 1..], keep);
    Reassembled(a, k);
  }

  lemma IncomingAppend(ns: seq<Node>, a: seq<Edge>, b: seq<Edge>, t: Id)
    requires forall e :: e in b ==> e.target == t && Executable(ns, e.source)
    ensures ExecIncoming(ns, a + b, t) == ExecIncoming(ns, a, t) + b
  {
    FilterAppend(a, b, (e: Edge) => e.target == t && Executable(ns, e.source));
    FilterAll(b, (e: Edge) => e.target == t && Executable(ns, e.source));
  }

  lemma OutgoingAppend(ns: seq<Node>, a: seq<Edge>, b: seq<Edge>, v: Id)
    requires forall e :: e in b ==> e.source != v
    ensures ExecOutgoing(ns, a + b, v) == ExecOutgoing(ns, a, v)
  {
    FilterAppend(a, b, (e: Edge) => e.source == v && Executable(ns, e.target));
    FilterNone(b, (e: Edge) => e.source == v && Executable(ns, e.target));
  }

  // ---- what the tails pass adds ------------------------------------------------

  /** An edge into t from every node from k on that needs one. */
  ghost function Tails(ns: seq<Node>, es: seq<Edge>, s: Id, t: Id, k: nat): seq<Edge>
    requires k <= |ns|
    decreases |ns| - k
  {
    if k == |ns| then []
    else (if NeedsOut(ns, es, s, t, ns[k]) then [Link(ns[k].id, t)] else []) + Tails(ns, es, s, t, k + 1)
  }

  ghost predicate SameOut(ns: seq<Node>, es: seq<Edge>, now: seq<Edge>, k: nat) {
    forall j :: k <= j < |ns| ==> (HasExecOut(ns, now, ns[j].id) <==> HasExecOut(ns, es, ns[j].id))
  }

  lemma SameOutNext(ns: seq<Node>, es: seq<Edge>, now: seq<Edge>, t: Id, k: nat)
    requires DistinctIds(ns) && k < |ns| && SameOut(ns, es, now, k)
    ensures SameOut(ns, es, now + [Link(ns[k].id, t)], k + 1)
  {
    var more := now + [Link(ns[k].id, t)];
    forall j | k < j < |ns| ensures HasExecOut(ns, more, ns[j].id) <==> HasExecOut(ns, now, ns[j].id) {
      forall e: Edge | e.source == ns[j].id ensures e in more <==> e in now {
      }
    }
  }

  /** The pass adds exactly the tails the draft had when it began. */
  lemma {:induction false} AddsTails(ns: seq<Node>, es: seq<Edge>, now: seq<Edge>, s: Id, t: Id, k: nat)
    requires DistinctIds(ns) && k <= |ns| && SameOut(ns, es, now, k)
    ensures AddTails(ns, now, s, t, k) == now + Tails(ns, es, s, t, k)
    decreases |ns| - k
  {
    if k < |ns| {
      if NeedsOut(ns, now, s, t, ns[k]) {
        SameOutNext(ns, es, now, t, k);
        AddsTails(ns, es, now + [Link(ns[k].id, t)], s, t, k + 1);
      } else {
        AddsTails(ns, es, now, s, t, k + 1);
      }
    }
  }

  ghost predicate NeedsTail(ns: seq<Node>, es: seq<Edge>, s: Id, t: Id, v: Id) {
    exists j :: 0 <= j < |ns| && ns[j].id == v && NeedsOut(ns, es, s, t, ns[j])
  }

  /** One tail per node in need, in the order of the nodes. */
  lemma {:induction false} TailsAreNeeded(ns: seq<Node>, es: seq<Edge>, s: Id, t: Id, k: nat)
    requires k <= |ns| && DistinctIds(ns)
    ensures forall e :: e in Tails(ns, es, s, t, k) ==>
              e == Link(e.source, t) && exists j ::
                  k <= j < |ns| && ns[j].id == e.source && NeedsOut(ns, es, s, t, ns[j])
    ensures forall j :: k <= j < |ns| && NeedsOut(ns, es, s, t, ns[j]) ==> Link(ns[j].id, t) in Tails(ns, es, s, t, k)
    decreases |ns| - k
  {
    if k < |ns| {
      TailsAreNeeded(ns, es, s, t, k + 1);
    }
  }

  ghost predicate DistinctSources(es: seq<Edge>) {
    forall i, j :: 0 <= i < j < |es| ==> es[i].source != es[j].source
  }

  lemma {:induction false} TailsDistinct(ns: seq<Node>, es: seq<Edge>, s: Id, t: Id, k: nat)
    requires k <= |ns| && DistinctIds(ns)
    ensures DistinctSources(Tails(ns, es, s, t, k))
    decreases |ns| - k
  {
    if k < |ns| {
      TailsDistinct(ns, es, s, t, k + 1);
      TailsAreNeeded(ns, es, s, t, k + 1);
      var rest := Tails(ns, es, s, t, k + 1);
      forall i | 0 <= i < |rest| ensures rest[i].source != ns[k].id {
        assert rest[i] in rest;
      }
    }
  }

  lemma TailIsNewEntry(w: Workflow, es: seq<Edge>, s: Id, t: Id, v: Id)
    requires Valid(w) && NeedsTail(w.nodes, es, s, t, v) && forall e :: e in w.edges && e.source == v ==> e in es
    ensures NewEntry(w.nodes, t, Link(v, t))
  {
    ValidBasics(w);
    var j :| 0 <= j < |w.nodes| && w.nodes[j].id == v && NeedsOut(w.nodes, es, s, t, w.nodes[j]);
    LookupMember(w.nodes, w.nodes[j]);
    if w.nodes[j].kind.Join? {
      JoinHasOut(w, w.nodes[j]);
    }
  }

  lemma JoinHasOut(w: Workflow, n: Node)
    requires Valid(w) && n in w.nodes && n.kind.Join?
    ensures HasExecOut(w.nodes, w.edges, n.id)
  {
    ValidBasics(w);
    var out := ExecOutgoing(w.nodes, w.edges, n.id);
    var x := JoinOutgoing(n.id, |out|);
    assert w.nodes[..|w.nodes|] == w.nodes;
    assert !Defect(w, x);
    assert !JoinDefect(w.nodes, w.edges, |w.nodes|, x);
    assert out[0] in out;
  }

  // ---- who feeds the End ---------------------------------------------------------

  /** Nodes other than Start that enter the End already, or will because they lead nowhere. */
  ghost predicate Feeder(w: Workflow, s: Id, t: Id, v: Id) {
    v != s && (Enters(w, t, v) || NeedsTail(w.nodes, w.edges, s, t, v))
  }

  ghost predicate Enters(w: Workflow, t: Id, v: Id) {
    Executable(w.nodes, v) && exists e :: e in w.edges && e.target == t && e.source == v
  }

  /** Every two feeders are separated by some conditional, in a graph with the given edges. */
  ghost predicate FeedersApart(w: Workflow, s: Id, t: Id, es: seq<Edge>) {
    forall a, b :: Feeder(w, s, t, a) && Feeder(w, s, t, b) && a != b ==> Separable(w.nodes, es, a, b)
  }

  /** The edges' sources are the feeders, each once. */
  ghost predicate FedBy(w: Workflow, s: Id, t: Id, into: seq<Edge>) {
    && DistinctSources(into)
    && (forall i :: 0 <= i < |into| ==> Feeder(w, s, t, into[i].source))
    && (forall v {:trigger Sourced(into, v)} :: Feeder(w, s, t, v) ==> Sourced(into, v))
  }

  ghost predicate Sourced(into: seq<Edge>, v: Id) {
    exists i :: 0 <= i < |into| && into[i].source == v
  }

  lemma EnteredMeansApart(w: Workflow, s: Id, t: Id, into: seq<Edge>, es: seq<Edge>)
    requires FedBy(w, s, t, into) && (|into| > 1 ==> PairwiseSeparated(w.nodes, es, into))
    ensures FeedersApart(w, s, t, es)
  {
    forall a, b | Feeder(w, s, t, a) && Feeder(w, s, t, b) && a != b ensures Separable(w.nodes, es, a, b) {
      assert Sourced(into, a) && Sourced(into, b);
      var i :| 0 <= i < |into| && into[i].source == a;
      var j :| 0 <= j < |into| && into[j].source == b;
      if j < i {
        SeparableSymmetric(w.nodes, es, b, a);
      }
    }
  }

  /** The End may be entered exactly when the feeders are apart. */
  lemma EnteredIffApart(w: Workflow, r: seq<Edge>, s: Id, t: Id, into: seq<Edge>)
    requires FedBy(w, s, t, into) && into != []
    ensures MayEnterEnd(w.nodes, r, into) <==> FeedersApart(w, s, t, r)
  {
    if MayEnterEnd(w.nodes, r, into) {
      EnteredMeansApart(w, s, t, into, r);
    }
    if FeedersApart(w, s, t, r) {
      assert PairwiseSeparated(w.nodes, r, into);
    }
  }

  // ---- one End -------------------------------------------------------------------

  /** base keeps what leads elsewhere, extra holds new entries. */
  lemma RewiredBy(ns: seq<Node>, es: seq<Edge>, base: seq<Edge>, extra: seq<Edge>, t: Id)
    requires forall e :: e in base ==> e in es
    requires forall e: Edge :: e.target != t && e in es ==> e in base
    requires forall e :: e in extra ==> NewEntry(ns, t, e)
    ensures Rewired(ns, es, base + extra, t)
  {
  }

  lemma JoinsKeptBy(ns: seq<Node>, es: seq<Edge>, base: seq<Edge>, extra: seq<Edge>, t: Id)
    requires JoinsKept(ns, es, base) && forall e :: e in extra ==> NewEntry(ns, t, e)
    ensures JoinsKept(ns, es, base + extra)
  {
    forall v | KindOf(ns, v).Join? ensures ExecOutgoing(ns, base + extra, v) == ExecOutgoing(ns, es, v) {
      OutgoingAppend(ns, base, extra, v);
    }
  }

  /** Tails added to base, which has every edge that leaves an ordinary node. */
  lemma TailsAreEntries(w: Workflow, base: seq<Edge>, s: Id, t: Id)
    requires Valid(w) && forall e :: e in w.edges && e.source != s ==> e in base
    ensures forall e :: e in Tails(w.nodes, base, s, t, 0) ==> NewEntry(w.nodes, t, e)
  {
    ValidBasics(w);
    TailsAreNeeded(w.nodes, base, s, t, 0);
    forall e | e in Tails(w.nodes, base, s, t, 0) ensures NewEntry(w.nodes, t, e) {
      assert NeedsTail(w.nodes, base, s, t, e.source);
      TailIsNewEntry(w, base, s, t, e.source);
    }
  }

  /** The sources of edges into the End of a valid workflow are distinct. */
  lemma EntriesDistinct(w: Workflow, t: Id)
    requires Valid(w) && EndIds(w.nodes) == [t]
    ensures DistinctSources(ExecIncoming(w.nodes, w.edges, t))
  {
    var into := ExecIncoming(w.nodes, w.edges, t);
    forall i, j | 0 <= i < j < |into| ensures into[i].source != into[j].source {
      ValidEndEntry(w, t, i, j);
      NotSeparableFromItself(w.nodes, w.edges, into[i].source);
    }
  }

  lemma DistinctAppend(a: seq<Edge>, b: seq<Edge>)
    requires DistinctSources(a) && DistinctSources(b)
    requires forall e, f :: e in a && f in b ==> e.source != f.source
    ensures DistinctSources(a + b)
  {
    var c := a + b;
    forall i, j | 0 <= i < j < |c| ensures c[i].source != c[j].source {
      if i < |a| <= j {
        assert c[i] in a && c[j] in b;
      }
    }
  }

  lemma SourcedMember(into: seq<Edge>, e: Edge)
    requires e in into
    ensures Sourced(into, e.source)
  {
  }

  lemma TailIff(ns: seq<Node>, es: seq<Edge>, s: Id, t: Id, e: Edge)
    requires DistinctIds(ns)
    ensures e in Tails(ns, es, s, t, 0) <==> e == Link(e.source, t) && NeedsTail(ns, es, s, t, e.source)
  {
    TailsAreNeeded(ns, es, s, t, 0);
  }

  lemma EntryIff(w: Workflow, t: Id, v: Id)
    ensures Enters(w, t, v) <==> Sourced(ExecIncoming(w.nodes, w.edges, t), v)
  {
    var into := ExecIncoming(w.nodes, w.edges, t);
    if Enters(w, t, v) {
      var e :| e in w.edges && e.target == t && e.source == v;
      assert e in into;
      SourcedMember(into, e);
    }
    if Sourced(into, v) {
      var i :| 0 <= i < |into| && into[i].source == v;
      assert into[i] in into;
    }
  }

  lemma EntriesAndTailsDistinct(w: Workflow, s: Id, t: Id)
    requires Valid(w) && EndIds(w.nodes) == [t] && Executable(w.nodes, t)
    ensures DistinctSources(ExecIncoming(w.nodes, w.edges, t) + Tails(w.nodes, w.edges, s, t, 0))
  {
    ValidBasics(w);
    var entering, tails := ExecIncoming(w.nodes, w.edges, t), Tails(w.nodes, w.edges, s, t, 0);
    EntriesDistinct(w, t);
    TailsDistinct(w.nodes, w.edges, s, t, 0);
    forall e, f | e in entering && f in tails ensures e.source != f.source {
      assert HasExecOut(w.nodes, w.edges, e.source);
      TailIff(w.nodes, w.edges, s, t, f);
    }
    DistinctAppend(entering, tails);
  }

  /** Without a shortcut the feeders are the old sources and the new tails. */
  lemma FedWithoutShortcut(w: Workflow, s: Id, t: Id)
    requires Valid(w) && EndIds(w.nodes) == [t] && Executable(w.nodes, t)
    requires forall e :: e in w.edges ==> !Shortcut(e, s, [t])
    ensures FedBy(w, s, t, ExecIncoming(w.nodes, w.edges, t) + Tails(w.nodes, w.edges, s, t, 0))
  {
    ValidBasics(w);
    EntriesAndTailsDistinct(w, s, t);
    var entering, tails := ExecIncoming(w.nodes, w.edges, t), Tails(w.nodes, w.edges, s, t, 0);
    forall v ensures Feeder(w, s, t, v) <==> Sourced(entering + tails, v) {
      FeederIff(w, s, t, v);
      SourcedAppend(entering, tails, v);
    }
    FedFrom(w, s, t, entering + tails);
  }

  lemma FedFrom(w: Workflow, s: Id, t: Id, into: seq<Edge>)
    requires DistinctSources(into) && forall v {:trigger Sourced(into, v)} :: Feeder(w, s, t, v) <==> Sourced(into, v)
    ensures FedBy(w, s, t, into)
  {
    forall i | 0 <= i < |into| ensures Feeder(w, s, t, into[i].source) {
      assert Sourced(into, into[i].source);
    }
  }

  lemma SourcedAppend(a: seq<Edge>, b: seq<Edge>, v: Id)
    ensures Sourced(a + b, v) <==> Sourced(a, v) || Sourced(b, v)
  {
    var c := a + b;
    assert forall i :: 0 <= i < |a| ==> c[i] == a[i];
    assert forall i :: 0 <= i < |b| ==> c[|a| + i] == b[i];
  }

  lemma FeederIff(w: Workflow, s: Id, t: Id, v: Id)
    requires DistinctIds(w.nodes) && forall e :: e in w.edges ==> !Shortcut(e, s, [t])
    ensures Feeder(w, s, t, v) <==>
            Sourced(ExecIncoming(w.nodes, w.edges, t), v) || Sourced(Tails(w.nodes, w.edges, s, t, 0), v)
  {
    EntryIff(w, t, v);
    TailSourcedIff(w.nodes, w.edges, s, t, v);
  }

  lemma TailSourcedIff(ns: seq<Node>, es: seq<Edge>, s: Id, t: Id, v: Id)
    requires DistinctIds(ns)
    ensures Sourced(Tails(ns, es, s, t, 0), v) <==> NeedsTail(ns, es, s, t, v)
  {
    var tails := Tails(ns, es, s, t, 0);
    TailIff(ns, es, s, t, Link(v, t));
    if Sourced(tails, v) {
      var i :| 0 <= i < |tails| && tails[i].source == v;
      assert tails[i] in tails;
      TailIff(ns, es, s, t, tails[i]);
    }
    if NeedsTail(ns, es, s, t, v) {
      SourcedMember(tails, Link(v, t));
    }
  }

  /** With the shortcut the only way in, the feeders are the new tails. */
  lemma FedByTails(w: Workflow, s: Id, t: Id, k: nat)
    requires Valid(w) && OnlyWayIn(w.nodes, w.edges, s, t, k)
    ensures FedBy(w, s, t, Tails(w.nodes, w.edges, s, t, 0))
  {
    ValidBasics(w);
    var tails := Tails(w.nodes, w.edges, s, t, 0);
    TailsDistinct(w.nodes, w.edges, s, t, 0);
    forall v ensures Feeder(w, s, t, v) <==> Sourced(tails, v) {
      OnlyStartEnters(w, s, t, k, v);
      TailSourcedIff(w.nodes, w.edges, s, t, v);
    }
    FedFrom(w, s, t, tails);
  }

  lemma OnlyStartEnters(w: Workflow, s: Id, t: Id, k: nat, v: Id)
    requires OnlyWayIn(w.nodes, w.edges, s, t, k)
    ensures Enters(w, t, v) ==> v == s
  {
    if Enters(w, t, v) {
      var e :| e in w.edges && e.target == t && e.source == v;
      var i :| 0 <= i < |w.edges| && w.edges[i] == e;
    }
  }

  lemma EntryIsIncoming(ns: seq<Node>, r: seq<Edge>, t: Id)
    requires HasExecIn(ns, r, t)
    ensures ExecIncoming(ns, r, t) != []
  {
    var e :| e in r && e.target == t && Executable(ns, e.source);
    assert e in ExecIncoming(ns, r, t);
  }

  /** Validity of base + extra, when its entries are the feeders. */
  lemma ValidIffApart(w: Workflow, base: seq<Edge>, extra: seq<Edge>, s: Id, t: Id)
    requires Valid(w) && StartIds(w.nodes) == [s] && EndIds(w.nodes) == [t]
    requires forall e :: e in base ==> e in w.edges
    requires forall e: Edge :: e.target != t && e in w.edges ==> e in base
    requires JoinsKept(w.nodes, w.edges, base) && forall e :: e in extra ==> NewEntry(w.nodes, t, e)
    requires HasExecIn(w.nodes, base + extra, t) && FedBy(w, s, t, ExecIncoming(w.nodes, base, t) + extra)
    ensures Valid(Workflow(w.nodes, base + extra)) <==>
            AllReachable(w.nodes, base + extra, s) && FeedersApart(w, s, t, base + extra)
  {
    var r := base + extra;
    RewiredBy(w.nodes, w.edges, base, extra, t);
    JoinsKeptBy(w.nodes, w.edges, base, extra, t);
    ValidIffEntered(w, r, s, t);
    IncomingAppend(w.nodes, base, extra, t);
    EntryIsIncoming(w.nodes, r, t);
    EnteredIffApart(w, r, s, t, ExecIncoming(w.nodes, r, t));
  }

  /** The draft with its dead ends led into the End and without a Start-to-End edge. */
  ghost function Fed(w: Workflow, s: Id, t: Id): seq<Edge> {
    Filter(w.edges, (e: Edge) => !Shortcut(e, s, [t])) + Tails(w.nodes, w.edges, s, t, 0)
  }

  lemma ValidIsReachable(w: Workflow, s: Id)
    requires Valid(w) && StartIds(w.nodes) == [s]
    ensures AllReachable(w.nodes, w.edges, s)
  {
    ValidBasics(w);
    forall v | Executable(w.nodes, v) ensures Reaches(ExecArcs(w.nodes, w.edges), s, v) {
      ValidReaches(w, Lookup(w.nodes, v).value);
    }
  }

  lemma MoreIsReachable(ns: seq<Node>, es: seq<Edge>, more: seq<Edge>, s: Id)
    requires AllReachable(ns, es, s) && forall e :: e in es ==> e in more
    ensures AllReachable(ns, more, s)
  {
    assert ExecArcs(ns, es) <= ExecArcs(ns, more);
    forall v | Executable(ns, v) ensures Reaches(ExecArcs(ns, more), s, v) {
      var p :| Joins(ExecArcs(ns, es), s, v, p);
      assert Joins(ExecArcs(ns, more), s, v, p);
    }
  }

  /** No shortcut: tails are added to what is there. */
  lemma PlainCase(w: Workflow, s: Id, t: Id)
    requires Valid(w) && StartIds(w.nodes) == [s] && EndIds(w.nodes) == [t]
    requires forall e :: e in w.edges ==> !Shortcut(e, s, [t])
    ensures WireEnd(w.nodes, w.edges, s, t) == Fed(w, s, t) == w.edges + Tails(w.nodes, w.edges, s, t, 0)
    ensures Valid(Workflow(w.nodes, Fed(w, s, t))) <==> FeedersApart(w, s, t, Fed(w, s, t))
    ensures Reaches(ExecArcs(w.nodes, Fed(w, s, t)), s, t)
  {
    ValidBasics(w);
    EndpointsExecutable(w, s, t);
    ValidEntered(w, t);
    FilterAll(w.edges, (e: Edge) => !Shortcut(e, s, [t]));
    var tails := Tails(w.nodes, w.edges, s, t, 0);
    AddsTails(w.nodes, w.edges, w.edges, s, t, 0);
    EntryKept(w.nodes, w.edges, w.edges + tails, t);
    TailsAreEntries(w, w.edges, s, t);
    FedWithoutShortcut(w, s, t);
    ValidIsReachable(w, s);
    MoreIsReachable(w.nodes, w.edges, w.edges + tails, s);
    ValidIffApart(w, w.edges, tails, s, t);
  }

  /** What dropping the shortcut at k leaves. */
  lemma Dropped(w: Workflow, s: Id, t: Id, k: nat)
    requires Valid(w) && StartIds(w.nodes) == [s] && EndIds(w.nodes) == [t] && OnlyWayIn(w.nodes, w.edges, s, t, k)
    ensures var rest := w.edges[..k] + w.edges[k + 1..];
      && (forall e :: e in rest ==> e in w.edges)
      && (forall e: Edge :: e != Link(s, t) && e in w.edges ==> e in rest)
      && JoinsKept(w.nodes, w.edges, rest) && ExecIncoming(w.nodes, rest, t) == []
      && (forall v :: v != s ==> (HasExecOut(w.nodes, rest, v) <==> HasExecOut(w.nodes, w.edges, v)))
  {
    ValidBasics(w);
    EndpointsExecutable(w, s, t);
    StartKind(w.nodes, s);
    var rest := w.edges[..k] + w.edges[k + 1..];
    RestOf(w.nodes, w.edges, s, t, k);
    Reassembled(w.edges, k);
    forall v | KindOf(w.nodes, v).Join? ensures ExecOutgoing(w.nodes, rest, v) == ExecOutgoing(w.nodes, w.edges, v) {
      FilterDropped(w.edges, k, (e: Edge) => e.source == v && Executable(w.nodes, e.target));
    }
    FilterNone(rest, (e: Edge) => e.target == t && Executable(w.nodes, e.source));
  }

  lemma {:induction false} TailsSame(ns: seq<Node>, es: seq<Edge>, rest: seq<Edge>, s: Id, t: Id, k: nat)
    requires k <= |ns| && forall v :: v != s ==> (HasExecOut(ns, rest, v) <==> HasExecOut(ns, es, v))
    ensures Tails(ns, rest, s, t, k) == Tails(ns, es, s, t, k)
    decreases |ns| - k
  {
    if k < |ns| {
      TailsSame(ns, es, rest, s, t, k + 1);
    }
  }

  lemma FedWithoutDropped(w: Workflow, s: Id, t: Id, k: nat)
    requires Valid(w) && StartIds(w.nodes) == [s] && EndIds(w.nodes) == [t] && OnlyWayIn(w.nodes, w.edges, s, t, k)
    ensures Fed(w, s, t) == w.edges[..k] + w.edges[k + 1..] + Tails(w.nodes, w.edges, s, t, 0)
  {
    var rest, keep := w.edges[..k] + w.edges[k + 1..], (e: Edge) => !Shortcut(e, s, [t]);
    OnlyOneShortcut(w, s, t, k);
    forall e | e in rest ensures keep(e) {
      var i :| 0 <= i < |rest| && rest[i] == e;
      assert e == w.edges[if i < k then i else i + 1];
    }
    FilterDropped(w.edges, k, keep);
    FilterAll(rest, keep);
  }

  /** Everything is reached once the End is: only the arc from Start into it can be missing. */
  lemma ReachedThroughEnd(ns: seq<Node>, es: seq<Edge>, r: seq<Edge>, s: Id, t: Id)
    requires AllReachable(ns, es, s) && Reaches(ExecArcs(ns, r), s, t)
    requires forall e: Edge :: e in es && e != Link(s, t) ==> e in r
    ensures AllReachable(ns, r, s)
  {
    var arcs := ExecArcs(ns, es);
    forall v | Executable(ns, v) ensures Reaches(ExecArcs(ns, r), s, v) {
      var p :| Joins(arcs, s, v, p);
      ReachedAlong(ns, es, r, s, t, p);
    }
  }

  lemma {:induction false} ReachedAlong(ns: seq<Node>, es: seq<Edge>, r: seq<Edge>, s: Id, t: Id, p: seq<Id>)
    requires Path(ExecArcs(ns, es), p) && p[0] == s && Reaches(ExecArcs(ns, r), s, t)
    requires forall e: Edge :: e in es && e != Link(s, t) ==> e in r
    ensures Reaches(ExecArcs(ns, r), s, p[|p| - 1])
    decreases |p|
  {
    var n := |p| - 1;
    if n == 0 {
      ReachesSelf(ExecArcs(ns, r), s);
    } else {
      PathSlice(ExecArcs(ns, es), p, 0, n);
      ReachedAlong(ns, es, r, s, t, p[0..n]);
      assert (p[n - 1], p[n - 1 + 1]) in ExecArcs(ns, es);
      ReachedNext(ns, es, r, s, t, p[n - 1], p[n]);
    }
  }

  lemma ReachedNext(ns: seq<Node>, es: seq<Edge>, r: seq<Edge>, s: Id, t: Id, u: Id, v: Id)
    requires (u, v) in ExecArcs(ns, es) && Reaches(ExecArcs(ns, r), s, u) && Reaches(ExecArcs(ns, r), s, t)
    requires forall e: Edge :: e in es && e != Link(s, t) ==> e in r
    ensures Reaches(ExecArcs(ns, r), s, v)
  {
    var e :| e in es && Executable(ns, e.source) && Executable(ns, e.target) && (u, v) == (e.source, e.target);
    if e != Link(s, t) {
      assert (u, v) in ExecArcs(ns, r);
      ReachesArc(ExecArcs(ns, r), u, v);
      ReachesTrans(ExecArcs(ns, r), s, u, v);
    }
  }

  /** A shortcut beside something goes; without dead ends it comes back, else a tail takes its place. */
  lemma DroppedCase(w: Workflow, s: Id, t: Id, k: nat)
    requires Valid(w) && StartIds(w.nodes) == [s] && EndIds(w.nodes) == [t] && OnlyWayIn(w.nodes, w.edges, s, t, k)
    ensures var r := WireEnd(w.nodes, w.edges[..k] + w.edges[k + 1..], s, t);
      if Tails(w.nodes, w.edges, s, t, 0) == [] then Valid(Workflow(w.nodes, r))
      else Valid(Workflow(w.nodes, r)) <==>
           Reaches(ExecArcs(w.nodes, Fed(w, s, t)), s, t) && FeedersApart(w, s, t, Fed(w, s, t))
  {
    ValidBasics(w);
    EndpointsExecutable(w, s, t);
    var rest, tails := w.edges[..k] + w.edges[k + 1..], Tails(w.nodes, w.edges, s, t, 0);
    Dropped(w, s, t, k);
    FedWithoutDropped(w, s, t, k);
    TailsSame(w.nodes, w.edges, rest, s, t, 0);
    AddsTails(w.nodes, rest, rest, s, t, 0);
    if tails == [] {
      assert rest + tails == rest;
      ShortcutBack(w, rest, s, t);
    } else {
      TailsInstead(w, rest, s, t, k);
    }
  }

  lemma TailsInstead(w: Workflow, rest: seq<Edge>, s: Id, t: Id, k: nat)
    requires Valid(w) && StartIds(w.nodes) == [s] && EndIds(w.nodes) == [t] && OnlyWayIn(w.nodes, w.edges, s, t, k)
    requires forall e :: e in rest ==> e in w.edges
    requires forall e: Edge :: e != Link(s, t) && e in w.edges ==> e in rest
    requires JoinsKept(w.nodes, w.edges, rest) && ExecIncoming(w.nodes, rest, t) == []
    requires Tails(w.nodes, rest, s, t, 0) == Tails(w.nodes, w.edges, s, t, 0) != []
    requires Fed(w, s, t) == rest + Tails(w.nodes, rest, s, t, 0)
    requires AddTails(w.nodes, rest, s, t, 0) == Fed(w, s, t)
    ensures WireEnd(w.nodes, rest, s, t) == Fed(w, s, t)
    ensures Valid(Workflow(w.nodes, Fed(w, s, t))) <==>
            Reaches(ExecArcs(w.nodes, Fed(w, s, t)), s, t) && FeedersApart(w, s, t, Fed(w, s, t))
  {
    var r, tails := Fed(w, s, t), Tails(w.nodes, rest, s, t, 0);
    ValidBasics(w);
    EndpointsExecutable(w, s, t);
    TailsAreEntries(w, rest, s, t);
    assert tails[0] in r && NewEntry(w.nodes, t, tails[0]);
    FedByTails(w, s, t, k);
    assert [] + tails == tails;
    ValidIffApart(w, rest, tails, s, t);
    ValidIsReachable(w, s);
    if Reaches(ExecArcs(w.nodes, r), s, t) {
      ReachedThroughEnd(w.nodes, w.edges, r, s, t);
    }
  }

  lemma ShortcutBack(w: Workflow, rest: seq<Edge>, s: Id, t: Id)
    requires Valid(w) && StartIds(w.nodes) == [s] && EndIds(w.nodes) == [t]
    requires forall e :: e in rest ==> e in w.edges
    requires forall e: Edge :: e != Link(s, t) && e in w.edges ==> e in rest
    requires JoinsKept(w.nodes, w.edges, rest) && ExecIncoming(w.nodes, rest, t) == []
    requires AddTails(w.nodes, rest, s, t, 0) == rest
    ensures Valid(Workflow(w.nodes, WireEnd(w.nodes, rest, s, t)))
  {
    ValidBasics(w);
    EndpointsExecutable(w, s, t);
    StartKind(w.nodes, s);
    if HasExecIn(w.nodes, rest, t) {
      EntryIsIncoming(w.nodes, rest, t);
    }
    assert NewEntry(w.nodes, t, Link(s, t));
    ValidWithStart(w, rest, [Link(s, t)], s, t);
  }

  lemma ValidWithStart(w: Workflow, rest: seq<Edge>, extra: seq<Edge>, s: Id, t: Id)
    requires Valid(w) && StartIds(w.nodes) == [s] && EndIds(w.nodes) == [t] && NewEntry(w.nodes, t, Link(s, t))
    requires forall e :: e in rest ==> e in w.edges
    requires forall e: Edge :: e != Link(s, t) && e in w.edges ==> e in rest
    requires JoinsKept(w.nodes, w.edges, rest) && ExecIncoming(w.nodes, rest, t) == [] && extra == [Link(s, t)]
    ensures Valid(Workflow(w.nodes, rest + extra))
  {
    RewiredBy(w.nodes, w.edges, rest, extra, t);
    JoinsKeptBy(w.nodes, w.edges, rest, extra, t);
    IncomingAppend(w.nodes, rest, extra, t);
    ValidIsReachable(w, s);
    MoreIsReachable(w.nodes, w.edges, rest + extra, s);
    ValidIffEntered(w, rest + extra, s, t);
  }

  /** A shortcut with nothing beside it stays, and no dead end may enter beside it. */
  lemma LoneCase(w: Workflow, s: Id, t: Id, k: nat)
    requires Valid(w) && StartIds(w.nodes) == [s] && EndIds(w.nodes) == [t] && OnlyWayIn(w.nodes, w.edges, s, t, k)
    ensures Valid(Workflow(w.nodes, WireEnd(w.nodes, w.edges, s, t))) <==> AllTailsFed(w.nodes, w.edges, s, t)
  {
    ValidBasics(w);
    EndpointsExecutable(w, s, t);
    ValidEntered(w, t);
    var tails := Tails(w.nodes, w.edges, s, t, 0);
    AddsTails(w.nodes, w.edges, w.edges, s, t, 0);
    EntryKept(w.nodes, w.edges, w.edges + tails, t);
    FedIff(w.nodes, w.edges, s, t);
    if tails == [] {
      assert w.edges + tails == w.edges;
    } else {
      StartBesideTail(w, tails, s, t, k);
    }
  }

  lemma FedIff(ns: seq<Node>, es: seq<Edge>, s: Id, t: Id)
    requires DistinctIds(ns)
    ensures Tails(ns, es, s, t, 0) == [] <==> AllTailsFed(ns, es, s, t)
  {
    var tails := Tails(ns, es, s, t, 0);
    TailsAreNeeded(ns, es, s, t, 0);
    if tails != [] {
      assert tails[0] in tails;
    }
  }

  lemma StartBesideTail(w: Workflow, tails: seq<Edge>, s: Id, t: Id, k: nat)
    requires Valid(w) && StartIds(w.nodes) == [s] && EndIds(w.nodes) == [t] && OnlyWayIn(w.nodes, w.edges, s, t, k)
    requires tails == Tails(w.nodes, w.edges, s, t, 0) != []
    ensures !Valid(Workflow(w.nodes, w.edges + tails))
  {
    ValidBasics(w);
    EndpointsExecutable(w, s, t);
    TailsAreEntries(w, w.edges, s, t);
    IncomingAppend(w.nodes, w.edges, tails, t);
    assert w.edges[k] in w.edges && w.edges[k] in ExecIncoming(w.nodes, w.edges, t);
    StartEntersAlone(w, w.edges[k], t);
    EntryBesideStart(Workflow(w.nodes, w.edges + tails), s, t);
  }

  /** An End entered from Start and once more is refused. */
  lemma EntryBesideStart(w: Workflow, s: Id, t: Id)
    requires StartId(w.nodes) == Some(s) && t in EndIds(w.nodes)
    requires |ExecIncoming(w.nodes, w.edges, t)| > 1 && ExecIncoming(w.nodes, w.edges, t)[0].source == s
    ensures !Valid(w)
  {
    if Valid(w) {
      ValidEndEntry(w, t, 0, 1);
      StartNotSeparable(w.nodes, w.edges, s, ExecIncoming(w.nodes, w.edges, t)[1].source);
    }
  }

  /** Every Start-to-End edge has something beside it, and so is dropped. */
  ghost predicate NoLoneShortcut(es: seq<Edge>, s: Id, t: Id) {
    forall k :: 0 <= k < |es| && Shortcut(es[k], s, [t]) ==> HasOther(es, s, k)
  }

  /** With one End: no dead end, or the End is reached and its feeders are apart once the dead ends lead into it. */
  ghost predicate OneEndStaysValid(w: Workflow, s: Id, t: Id) {
    || AllTailsFed(w.nodes, w.edges, s, t)
    || (&& NoLoneShortcut(w.edges, s, t)
        && Reaches(ExecArcs(w.nodes, Fed(w, s, t)), s, t) && FeedersApart(w, s, t, Fed(w, s, t)))
  }

  lemma OneEndValidIff(w: Workflow, s: Id, t: Id)
    requires Valid(w) && Stripped(w) && StartIds(w.nodes) == [s] && EndIds(w.nodes) == [t]
    ensures Valid(Workflow(w.nodes, WireEnd(w.nodes, DropShortcuts(w.edges, s, [t], 0), s, t))) <==>
            OneEndStaysValid(w, s, t)
  {
    if k :| 0 <= k < |w.edges| && Shortcut(w.edges[k], s, [t]) {
      WithShortcut(w, s, t, k);
    } else {
      NoShortcuts(w.edges, s, [t], 0);
      WithoutShortcut(w, s, t);
    }
  }

  lemma WithoutShortcut(w: Workflow, s: Id, t: Id)
    requires Valid(w) && StartIds(w.nodes) == [s] && EndIds(w.nodes) == [t]
    requires forall k :: 0 <= k < |w.edges| ==> !Shortcut(w.edges[k], s, [t])
    ensures Valid(Workflow(w.nodes, WireEnd(w.nodes, w.edges, s, t))) <==> OneEndStaysValid(w, s, t)
  {
    ValidBasics(w);
    FedIff(w.nodes, w.edges, s, t);
    PlainCase(w, s, t);
    assert Tails(w.nodes, w.edges, s, t, 0) == [] ==> Fed(w, s, t) == w.edges;
  }

  lemma WithShortcut(w: Workflow, s: Id, t: Id, k: nat)
    requires Valid(w) && Stripped(w) && StartIds(w.nodes) == [s] && EndIds(w.nodes) == [t]
    requires k < |w.edges| && Shortcut(w.edges[k], s, [t])
    ensures Valid(Workflow(w.nodes, WireEnd(w.nodes, DropShortcuts(w.edges, s, [t], 0), s, t))) <==>
            OneEndStaysValid(w, s, t)
  {
    ValidBasics(w);
    FedIff(w.nodes, w.edges, s, t);
    ShortcutIsOnlyWayIn(w, s, t, k);
    OnlyOneShortcut(w, s, t, k);
    if HasOther(w.edges, s, k) {
      DropOnly(w.edges, s, [t], k, 0);
      DroppedCase(w, s, t, k);
    } else {
      NoShortcuts(w.edges, s, [t], 0);
      LoneCase(w, s, t, k);
    }
  }

  lemma OnlyOneShortcut(w: Workflow, s: Id, t: Id, k: nat)
    requires Valid(w) && StartIds(w.nodes) == [s] && EndIds(w.nodes) == [t] && OnlyWayIn(w.nodes, w.edges, s, t, k)
    ensures forall i :: 0 <= i < |w.edges| && i != k ==> !Shortcut(w.edges[i], s, [t])
  {
    ValidBasics(w);
    EndpointsExecutable(w, s, t);
  }

  // ---- several Ends ----------------------------------------------------------------

  /** A dropped shortcut was the only way into its End. */
  lemma DropUnentersEnd(w: Workflow, s: Id, d: seq<Edge>, x: Edge)
    requires Valid(w) && StartIds(w.nodes) == [s] && x in w.edges && Shortcut(x, s, EndIds(w.nodes))
    requires x !in d && forall e :: e in d ==> e in w.edges
    ensures !Valid(Workflow(w.nodes, d))
  {
    ValidBasics(w);
    var ends := EndIds(w.nodes);
    EndpointsExecutable(w, s, x.target);
    assert x in ExecIncoming(w.nodes, w.edges, x.target);
    StartEntersAlone(w, x, x.target);
    forall e | e in w.edges && e.target == x.target && Executable(w.nodes, e.source) ensures e == x {
      assert e in ExecIncoming(w.nodes, w.edges, x.target);
    }
    FilterNone(d, (e: Edge) => e.target == x.target && Executable(w.nodes, e.source));
    FilterAll(d, (e: Edge) => e.source in Ids(w.nodes) && e.target in Ids(w.nodes));
    assert EndDefect(w.nodes, d, ends, EndIncoming(x.target, 0));
    assert Defect(Workflow(w.nodes, d), EndIncoming(x.target, 0));
  }

  /** Where a shortcut runs beside something, some shortcut is gone in the end. */
  lemma SomeDropped(w: Workflow, s: Id, d: seq<Edge>) returns (x: Edge)
    requires Valid(w) && StartIds(w.nodes) == [s] && d == DropShortcuts(w.edges, s, EndIds(w.nodes), 0)
    requires !ShortcutsAlone(w.edges, s, EndIds(w.nodes))
    ensures x in w.edges && Shortcut(x, s, EndIds(w.nodes)) && x !in d
  {
    var es, ends := w.edges, EndIds(w.nodes);
    ShortcutsDropped(es, s, ends, 0);
    var k :| 0 <= k < |es| && Shortcut(es[k], s, ends) && HasOther(es, s, k);
    var i :| 0 <= i < |es| && i != k && (es[i].source == s || es[i].target == es[k].target);
    ShortcutIsUnique(w, s, k, i);
    NotBothKept(d, s, ends, es[k], es[i]);
    assert es[k] in es && es[i] in es;
    x := if es[k] in d then es[i] else es[k];
  }

  lemma NotBothKept(d: seq<Edge>, s: Id, ends: seq<Id>, x: Edge, y: Edge)
    requires forall i :: 0 <= i < |d| && Shortcut(d[i], s, ends) ==> !HasOther(d, s, i)
    requires x != y && Shortcut(x, s, ends) && (y.source == s || y.target == x.target)
    ensures !(x in d && y in d)
  {
    if x in d && y in d {
      NoneBeside(d, s, ends, x, y);
    }
  }

  lemma NoneBeside(d: seq<Edge>, s: Id, ends: seq<Id>, x: Edge, y: Edge)
    requires x in d && y in d && x != y && Shortcut(x, s, ends) && (y.source == s || y.target == x.target)
    ensures exists i :: 0 <= i < |d| && Shortcut(d[i], s, ends) && HasOther(d, s, i)
  {
    var i :| 0 <= i < |d| && d[i] == x;
    var j :| 0 <= j < |d| && d[j] == y;
    assert HasOther(d, s, i);
  }

  lemma ShortcutIsUnique(w: Workflow, s: Id, k: nat, i: nat)
    requires Valid(w) && StartIds(w.nodes) == [s] && k < |w.edges| && i < |w.edges| && i != k
    requires Shortcut(w.edges[k], s, EndIds(w.nodes))
    ensures w.edges[i] != w.edges[k]
  {
    var x := w.edges[k];
    if w.edges[i] == x {
      ValidBasics(w);
      EndpointsExecutable(w, s, x.target);
      assert x in w.edges && x in ExecIncoming(w.nodes, w.edges, x.target);
      StartEntersAlone(w, x, x.target);
      IncomingOnce(w, x.target, k, i);
    }
  }

  lemma ManyEndsValidIff(w: Workflow, s: Id)
    requires Valid(w) && StartIds(w.nodes) == [s]
    ensures Valid(Workflow(w.nodes, DropShortcuts(w.edges, s, EndIds(w.nodes), 0))) <==>
              ShortcutsAlone(w.edges, s, EndIds(w.nodes))
  {
    var ends := EndIds(w.nodes);
    var d := DropShortcuts(w.edges, s, ends, 0);
    if ShortcutsAlone(w.edges, s, ends) {
      NoShortcuts(w.edges, s, ends, 0);
    } else {
      var x := SomeDropped(w, s, d);
      ShortcutsDropped(w.edges, s, ends, 0);
      assert w.edges[0..] == w.edges;
      forall e | e in d ensures e in w.edges {
        var i :| 0 <= i < |d| && d[i] == e;
      }
      DropUnentersEnd(w, s, d, x);
    }
  }

  // ---- the theorem -------------------------------------------------------------------

  /** What a caller can check before repairing a valid draft that is to stay valid. */
  ghost predicate StaysValid(w: Workflow) {
    var starts, ends := StartIds(w.nodes), EndIds(w.nodes);
    && |starts| == 1
    && if |ends| == 1 then OneEndStaysValid(w, starts[0], ends[0]) else ShortcutsAlone(w.edges, starts[0], ends)
  }

  /** A valid draft is valid after the repair if and only if StaysValid holds. */
  lemma RepairKeepsValidIff(w: Workflow, startId: Id, endId: Id)
    requires Valid(w) && Stripped(w)
    ensures Valid(Normalize(w, startId, endId)) <==> StaysValid(w)
  {
    ValidSkipsFirstStages(w, startId, endId);
    var s, ends := StartIds(w.nodes)[0], EndIds(w.nodes);
    assert StartIds(w.nodes) == [s];
    if |ends| == 1 {
      assert ends == [ends[0]];
      OneEndValidIff(w, s, ends[0]);
    } else {
      ManyEndsValidIff(w, s);
    }
  }

  // ---- an End that nothing leaves ------------------------------------------------------

  lemma FeederIsNotEnd(w: Workflow, s: Id, t: Id, v: Id)
    requires Leaf(w.edges, t) && Feeder(w, s, t, v)
    ensures v != t
  {
  }

  lemma FedRewires(w: Workflow, s: Id, t: Id)
    requires Valid(w) && StartIds(w.nodes) == [s]
    ensures Rewired(w.nodes, w.edges, Fed(w, s, t), t)
  {
    TailsAreEntries(w, w.edges, s, t);
    var base := Filter(w.edges, (e: Edge) => !Shortcut(e, s, [t]));
    RewiredBy(w.nodes, w.edges, base, Tails(w.nodes, w.edges, s, t, 0), t);
  }

  lemma ApartEitherWay(w: Workflow, s: Id, t: Id)
    requires Valid(w) && StartIds(w.nodes) == [s] && Leaf(w.edges, t)
    ensures FeedersApart(w, s, t, Fed(w, s, t)) <==> FeedersApart(w, s, t, w.edges)
  {
    FedRewires(w, s, t);
    RewiredLeaf(w.nodes, w.edges, Fed(w, s, t), t);
    forall a, b | Feeder(w, s, t, a) && Feeder(w, s, t, b)
      ensures Separable(w.nodes, Fed(w, s, t), a, b) <==> Separable(w.nodes, w.edges, a, b)
    {
      FeederIsNotEnd(w, s, t, a);
      FeederIsNotEnd(w, s, t, b);
      SeparationKept(w.nodes, w.edges, Fed(w, s, t), t, a, b);
    }
  }

  /** Without dead ends validity keeps the feeders apart. */
  lemma FedMeansApart(w: Workflow, s: Id, t: Id)
    requires Valid(w) && Stripped(w) && StartIds(w.nodes) == [s] && EndIds(w.nodes) == [t]
    requires AllTailsFed(w.nodes, w.edges, s, t)
    ensures FeedersApart(w, s, t, w.edges)
  {
    ValidBasics(w);
    EndpointsExecutable(w, s, t);
    FedIff(w.nodes, w.edges, s, t);
    if k :| 0 <= k < |w.edges| && Shortcut(w.edges[k], s, [t]) {
      ShortcutIsOnlyWayIn(w, s, t, k);
      FedByTails(w, s, t, k);
      EnteredMeansApart(w, s, t, [], w.edges);
    } else {
      FedWithoutShortcut(w, s, t);
      var into := ExecIncoming(w.nodes, w.edges, t);
      assert into + [] == into;
      forall i, j | 0 <= i < j < |into| ensures Separable(w.nodes, w.edges, into[i].source, into[j].source) {
        ValidEndEntry(w, t, i, j);
      }
      EnteredMeansApart(w, s, t, into, w.edges);
    }
  }

  /** A path that steps onto a leaf ends there. */
  lemma LeafEndsPath(arcs: Arcs, t: Id, p: seq<Id>)
    requires Path(arcs, p) && |p| > 1 && p[1] == t && forall a :: a in arcs ==> a.0 != t
    ensures p[|p| - 1] == t
  {
    PathSlice(arcs, p, 1, |p|);
    JoinsStaysInside(arcs, {t}, t, p[|p| - 1], p[1..]);
  }

  lemma OnlyStepFromStart(w: Workflow, s: Id, t: Id, k: nat, v: Id)
    requires OnlyWayIn(w.nodes, w.edges, s, t, k) && !HasOther(w.edges, s, k) && (s, v) in ExecArcs(w.nodes, w.edges)
    ensures v == t
  {
    var e :| e in w.edges && (s, v) == (e.source, e.target);
    var i :| 0 <= i < |w.edges| && w.edges[i] == e;
    assert i == k;
  }

  lemma NothingBesides(w: Workflow, s: Id, t: Id, k: nat, n: Node)
    requires Valid(w) && StartIds(w.nodes) == [s] && Leaf(w.edges, t) && n in w.nodes
    requires OnlyWayIn(w.nodes, w.edges, s, t, k) && !HasOther(w.edges, s, k)
    ensures n.id == s || n.id == t || VisualOnly(n.kind)
  {
    ValidBasics(w);
    if n.id != s && !VisualOnly(n.kind) {
      ValidReaches(w, n);
      var arcs := ExecArcs(w.nodes, w.edges);
      var p :| Joins(arcs, s, n.id, p);
      assert (p[0], p[0 + 1]) in arcs;
      OnlyStepFromStart(w, s, t, k, p[1]);
      LeafEndsPath(arcs, t, p);
    }
  }

  lemma DeadEndBesideShortcut(w: Workflow, s: Id, t: Id)
    requires Valid(w) && Stripped(w) && StartIds(w.nodes) == [s] && EndIds(w.nodes) == [t] && Leaf(w.edges, t)
    requires !AllTailsFed(w.nodes, w.edges, s, t)
    ensures NoLoneShortcut(w.edges, s, t)
  {
    var j :| 0 <= j < |w.nodes| && NeedsOut(w.nodes, w.edges, s, t, w.nodes[j]);
    forall k | 0 <= k < |w.edges| && Shortcut(w.edges[k], s, [t]) ensures HasOther(w.edges, s, k) {
      ShortcutIsOnlyWayIn(w, s, t, k);
      if !HasOther(w.edges, s, k) {
        NothingBesides(w, s, t, k, w.nodes[j]);
      }
    }
  }

  /** Where no edge leaves the one End, all depends on whether the draft keeps its feeders apart. */
  lemma LeafEndStaysValidIff(w: Workflow, s: Id, t: Id)
    requires Valid(w) && Stripped(w) && StartIds(w.nodes) == [s] && EndIds(w.nodes) == [t] && Leaf(w.edges, t)
    ensures StaysValid(w) <==> FeedersApart(w, s, t, w.edges)
  {
    ApartEitherWay(w, s, t);
    if AllTailsFed(w.nodes, w.edges, s, t) {
      FedMeansApart(w, s, t);
    } else {
      DeadEndBesideShortcut(w, s, t);
      FedIsReached(w, s, t);
    }
  }

  lemma FedIsReached(w: Workflow, s: Id, t: Id)
    requires Valid(w) && StartIds(w.nodes) == [s] && EndIds(w.nodes) == [t] && Leaf(w.edges, t)
    requires !AllTailsFed(w.nodes, w.edges, s, t)
    ensures Reaches(ExecArcs(w.nodes, Fed(w, s, t)), s, t)
  {
    ValidBasics(w);
    EndpointsExecutable(w, s, t);
    FedIff(w.nodes, w.edges, s, t);
    FedRewires(w, s, t);
    TailsAreEntries(w, w.edges, s, t);
    var tails := Tails(w.nodes, w.edges, s, t, 0);
    assert tails[0] in tails && tails[0] in Fed(w, s, t);
    AllReached(w, Fed(w, s, t), s, t, t);
  }

  /** A node that leads nowhere does no harm if a conditional keeps it from every other way into the End. */
  lemma DeadEndMayStay(w: Workflow, startId: Id, endId: Id, s: Id, t: Id)
    requires Valid(w) && Stripped(w) && StartIds(w.nodes) == [s] && EndIds(w.nodes) == [t] && Leaf(w.edges, t)
    requires FeedersApart(w, s, t, w.edges) && !AllTailsFed(w.nodes, w.edges, s, t)
    ensures Valid(Normalize(w, startId, endId)) && !SameDraft(Normalize(w, startId, endId), w)
  {
    LeafEndStaysValidIff(w, s, t);
    RepairKeepsValidIff(w, startId, endId);
    NoOpIffLeftAlone(w, startId, endId);
  }
}
