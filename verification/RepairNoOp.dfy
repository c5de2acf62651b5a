/**
 * The repair is documented as a no-op on valid graphs. It is not: this module
 * says exactly on which valid drafts it changes nothing. Drafts are compared
 * by node list and by multiset of (source, target, branch).
 */
module RepairNoOp {
  import opened Wrappers
  import opened Digraph
  import opened Workflows
  import opened BranchMarkers
  import opened Exclusivity
  import opened Validation
  import opened Compile
  import opened Repair
  import opened RepairMerge
  import opened RepairWire
  import opened RepairTheorems

  ghost predicate Stripped(w: Workflow) {
    forall e :: e in w.edges ==> e.id == ""
  }

  /** With one End: every ordinary non-conditional node has an executable successor. */
  ghost predicate AllTailsFed(ns: seq<Node>, es: seq<Edge>, s: Id, t: Id) {
    forall j :: 0 <= j < |ns| ==> !NeedsOut(ns, es, s, t, ns[j])
  }

  /** Every Start-to-End edge is the only edge out of Start and the only one into that End. */
  ghost predicate ShortcutsAlone(es: seq<Edge>, s: Id, ends: seq<Id>) {
    forall k :: 0 <= k < |es| && Shortcut(es[k], s, ends) ==> !HasOther(es, s, k)
  }

  /** What a caller can check before repairing a valid draft. */
  ghost predicate LeftAlone(w: Workflow) {
    var s, ends := StartIds(w.nodes), EndIds(w.nodes);
    && |s| == 1
    && if |ends| == 1 then AllTailsFed(w.nodes, w.edges, s[0], ends[0]) else ShortcutsAlone(w.edges, s[0], ends)
  }

  ghost predicate SameDraft(a: Workflow, b: Workflow) {
    a.nodes == b.nodes && multiset(a.edges) == multiset(b.edges)
  }

  // ---- what validity gives -------------------------------------------------

  lemma ValidEntered(w: Workflow, v: Id)
    requires Valid(w) && |StartIds(w.nodes)| == 1 && Executable(w.nodes, v) && v != StartIds(w.nodes)[0]
    ensures HasExecIn(w.nodes, w.edges, v)
  {
    var n := Lookup(w.nodes, v).value;
    ValidReaches(w, n);
    var arcs := ExecArcs(w.nodes, w.edges);
    var p :| Joins(arcs, StartIds(w.nodes)[0], v, p);
    assert (p[|p| - 2], p[|p| - 2 + 1]) in arcs;
  }

  lemma FlowAvoidsStart(nodes: seq<Node>, edges: seq<Edge>, s: Id, u: Id, v: Id, p: seq<Id>)
    requires StartId(nodes) == Some(s) && u != s && Joins(FlowArcs(nodes, edges), u, v, p)
    ensures v != s
  {
    if |p| >= 2 {
      assert (p[|p| - 2], p[|p| - 2 + 1]) in FlowArcs(nodes, edges);
    }
  }

  lemma StartUnmarked(nodes: seq<Node>, edges: seq<Edge>, s: Id, m: Marker)
    requires StartId(nodes) == Some(s)
    ensures !Marked(nodes, edges, s, m)
  {
    if Marked(nodes, edges, s, m) {
      var e, p :| MarkedVia(nodes, edges, s, m, e, p);
      FlowAvoidsStart(nodes, edges, s, e.target, s, p);
    }
  }

  lemma StartNotSeparable(nodes: seq<Node>, edges: seq<Edge>, s: Id, b: Id)
    requires StartId(nodes) == Some(s)
    ensures !Separable(nodes, edges, s, b) && !Separable(nodes, edges, b, s)
  {
    forall c, l ensures !Marked(nodes, edges, s, (c, l)) {
      StartUnmarked(nodes, edges, s, (c, l));
    }
  }

  /** In a valid workflow an End entered from Start is entered from nowhere else. */
  lemma StartEntersAlone(w: Workflow, x: Edge, end: Id)
    requires Valid(w) && end in EndIds(w.nodes) && x in ExecIncoming(w.nodes, w.edges, end)
    requires StartId(w.nodes) == Some(x.source)
    ensures ExecIncoming(w.nodes, w.edges, end) == [x]
  {
    var into := ExecIncoming(w.nodes, w.edges, end);
    var i :| 0 <= i < |into| && into[i] == x;
    if |into| > 1 {
      var j := if i == 0 then 1 else 0;
      ValidEndEntry(w, end, if i < j then i else j, if i < j then j else i);
      StartNotSeparable(w.nodes, w.edges, x.source, into[j].source);
      assert false;
    }
  }

  lemma {:induction false} FilterOnce(es: seq<Edge>, keep: Edge -> bool, k: nat, j: nat)
    requires k < |es| && j < |es| && keep(es[k]) && keep(es[j]) && |Filter(es, keep)| == 1
    ensures k == j
  {
    var n := |es| - 1;
    var most := es[..n];
    assert es == most + [es[n]];
    FilterSnoc(most, es[n], keep);
    if k < n {
      assert most[k] in Filter(most, keep);
    }
    if j < n {
      assert most[j] in Filter(most, keep);
    }
    if k < n && j < n {
      FilterOnce(most, keep, k, j);
    }
  }

  // ---- one End -------------------------------------------------------------

  /** Dropping the only shortcut, when something runs beside it. */
  lemma {:induction false} DropOnly(es: seq<Edge>, s: Id, ends: seq<Id>, k: nat, j: nat)
    requires j <= k < |es| && Shortcut(es[k], s, ends) && HasOther(es, s, k)
    requires forall i :: 0 <= i < |es| && i != k ==> !Shortcut(es[i], s, ends)
    ensures DropShortcuts(es, s, ends, j) == es[..k] + es[k + 1..]
    decreases k - j
  {
    if j < k {
      DropOnly(es, s, ends, k, j + 1);
    } else {
      var rest := es[..k] + es[k + 1..];
      forall i | 0 <= i < |rest| ensures !Shortcut(rest[i], s, ends) {
        assert rest[i] == es[if i < k then i else i + 1];
      }
      NoShortcuts(rest, s, ends, k);
    }
  }

  /** Tails are added exactly when some ordinary node lacks a successor. */
  lemma TailsIff(ns: seq<Node>, es: seq<Edge>, s: Id, t: Id)
    requires DistinctIds(ns) && Executable(ns, t)
    ensures AddTails(ns, es, s, t, 0) == es <==> AllTailsFed(ns, es, s, t)
    ensures es <= AddTails(ns, es, s, t, 0)
    ensures AddTails(ns, es, s, t, 0) != es ==>
              |AddTails(ns, es, s, t, 0)| > |es| && TailLink(ns, s, t, AddTails(ns, es, s, t, 0)[|es|])
  {
    TailsAdded(ns, es, s, t, 0);
    if AllTailsFed(ns, es, s, t) {
      NoTails(ns, es, s, t, 0);
    }
  }

  lemma LongerDiffers(a: seq<Edge>, b: seq<Edge>)
    requires |a| != |b|
    ensures multiset(a) != multiset(b)
  {
    assert |multiset(a)| == |a| && |multiset(b)| == |b|;
  }

  lemma MemberDiffers(a: seq<Edge>, b: seq<Edge>, e: Edge)
    requires e in a && e !in b
    ensures multiset(a) != multiset(b)
  {
    assert e in multiset(a) && e !in multiset(b);
  }

  /** One End, no shortcut to drop. */
  lemma OneEndPlain(ns: seq<Node>, es: seq<Edge>, s: Id, t: Id)
    requires DistinctIds(ns) && Executable(ns, t) && HasExecIn(ns, es, t)
    ensures multiset(WireEnd(ns, es, s, t)) == multiset(es) <==> AllTailsFed(ns, es, s, t)
    ensures AllTailsFed(ns, es, s, t) ==> WireEnd(ns, es, s, t) == es
  {
    var tailed := AddTails(ns, es, s, t, 0);
    TailsIff(ns, es, s, t);
    EntryKept(ns, es, tailed, t);
    if tailed != es {
      LongerDiffers(tailed, es);
    }
  }

  /** The only way into t is the edge at k, which leaves Start. */
  ghost predicate OnlyWayIn(ns: seq<Node>, es: seq<Edge>, s: Id, t: Id, k: nat) {
    && k < |es| && es[k] == Link(s, t)
    && forall i :: 0 <= i < |es| && es[i].target == t && Executable(ns, es[i].source) ==> i == k
  }

  lemma RestOf(ns: seq<Node>, es: seq<Edge>, s: Id, t: Id, k: nat)
    requires OnlyWayIn(ns, es, s, t, k) && Executable(ns, s)
    ensures var rest := es[..k] + es[k + 1..];
      && !HasExecIn(ns, rest, t)
      && multiset(rest + [Link(s, t)]) == multiset(es)
      && (forall v :: v != s ==> (HasExecOut(ns, rest, v) <==> HasExecOut(ns, es, v)))
  {
    var rest := es[..k] + es[k + 1..];
    assert es == es[..k] + [es[k]] + es[k + 1..];
    forall i | 0 <= i < |rest| ensures !(rest[i].target == t && Executable(ns, rest[i].source)) {
      assert rest[i] == es[if i < k then i else i + 1];
    }
    forall v | v != s ensures HasExecOut(ns, rest, v) <==> HasExecOut(ns, es, v) {
      forall e: Edge | e.source == v ensures e in rest <==> e in es {
      }
    }
  }

  /** One End, its shortcut dropped: it comes back unless a tail takes its place. */
  lemma OneEndDropped(ns: seq<Node>, es: seq<Edge>, s: Id, t: Id, k: nat)
    requires DistinctIds(ns) && Executable(ns, t) && Executable(ns, s) && OnlyWayIn(ns, es, s, t, k)
    ensures multiset(WireEnd(ns, es[..k] + es[k + 1..], s, t)) == multiset(es) <==> AllTailsFed(ns, es, s, t)
  {
    var rest := es[..k] + es[k + 1..];
    RestOf(ns, es, s, t, k);
    TailsIff(ns, rest, s, t);
    assert AllTailsFed(ns, es, s, t) <==> AllTailsFed(ns, rest, s, t);
    var tailed := AddTails(ns, rest, s, t, 0);
    if tailed != rest {
      var e := tailed[|rest|];
      assert e in tailed;
      forall i | 0 <= i < |es| ensures es[i] != e {
      }
      MemberDiffers(tailed, es, e);
    }
  }

  lemma OneEndNoOp(w: Workflow, s: Id, t: Id)
    requires Valid(w) && Stripped(w) && StartIds(w.nodes) == [s] && EndIds(w.nodes) == [t]
    ensures var d := DropShortcuts(w.edges, s, [t], 0);
      multiset(WireEnd(w.nodes, d, s, t)) == multiset(w.edges) <==> AllTailsFed(w.nodes, w.edges, s, t)
  {
    ValidBasics(w);
    EndpointsExecutable(w, s, t);
    ValidEntered(w, t);
    if k :| 0 <= k < |w.edges| && Shortcut(w.edges[k], s, [t]) && HasOther(w.edges, s, k) {
      ShortcutIsOnlyWayIn(w, s, t, k);
      forall i | 0 <= i < |w.edges| && i != k ensures !Shortcut(w.edges[i], s, [t]) {
      }
      DropOnly(w.edges, s, [t], k, 0);
      OneEndDropped(w.nodes, w.edges, s, t, k);
    } else {
      NoShortcuts(w.edges, s, [t], 0);
      OneEndPlain(w.nodes, w.edges, s, t);
    }
  }

  lemma EndpointsExecutable(w: Workflow, s: Id, t: Id)
    requires DistinctIds(w.nodes) && s in StartIds(w.nodes) && t in EndIds(w.nodes)
    ensures Executable(w.nodes, s) && Executable(w.nodes, t) && s != t
  {
    StartKind(w.nodes, s);
    StartKind(w.nodes, t);
  }

  lemma NoBranchFromStart(w: Workflow, s: Id, x: Edge)
    requires Valid(w) && s in StartIds(w.nodes) && x in w.edges && x.source == s
    ensures x.branch.None?
  {
    ValidBasics(w);
    StartKind(w.nodes, s);
    if x.branch.Some? {
      NotUnexpected(w, x);
    }
  }

  lemma ShortcutIsOnlyWayIn(w: Workflow, s: Id, t: Id, k: nat)
    requires Valid(w) && Stripped(w) && StartIds(w.nodes) == [s] && EndIds(w.nodes) == [t]
    requires k < |w.edges| && Shortcut(w.edges[k], s, [t])
    ensures OnlyWayIn(w.nodes, w.edges, s, t, k)
  {
    var x := w.edges[k];
    assert x in w.edges;
    ValidBasics(w);
    EndpointsExecutable(w, s, t);
    NoBranchFromStart(w, s, x);
    assert x in ExecIncoming(w.nodes, w.edges, t);
    StartEntersAlone(w, x, t);
    forall i | 0 <= i < |w.edges| && w.edges[i].target == t && Executable(w.nodes, w.edges[i].source) ensures i == k {
      IncomingOnce(w, t, k, i);
    }
  }

  lemma IncomingOnce(w: Workflow, t: Id, k: nat, i: nat)
    requires k < |w.edges| && i < |w.edges| && |ExecIncoming(w.nodes, w.edges, t)| == 1
    requires w.edges[k].target == t && Executable(w.nodes, w.edges[k].source)
    requires w.edges[i].target == t && Executable(w.nodes, w.edges[i].source)
    ensures i == k
  {
    FilterOnce(w.edges, (e: Edge) => e.target == t && Executable(w.nodes, e.source), k, i);
  }

  // ---- the theorem ---------------------------------------------------------

  lemma ValidSkipsFirstStages(w: Workflow, startId: Id, endId: Id)
    requires Valid(w)
    ensures |StartIds(w.nodes)| == 1 && EndIds(w.nodes) != []
    ensures Normalize(w, startId, endId)
         == w.(edges := Wire(w.nodes, w.edges, StartIds(w.nodes)[0], EndIds(w.nodes)))
    ensures AddHeads(w.nodes, w.edges, StartIds(w.nodes)[0], 0) == w.edges
  {
    ValidBasics(w);
    assert EndIds(w.nodes) != [] by {
      assert !Defect(w, NoEnd);
      assert !CountDefect(w.nodes, NoEnd);
    }
    var s := StartIds(w.nodes)[0];
    forall j | 0 <= j < |w.nodes| ensures !NeedsIn(w.nodes, w.edges, s, w.nodes[j]) {
      LookupMember(w.nodes, w.nodes[j]);
      if w.nodes[j].id != s && !VisualOnly(w.nodes[j].kind) {
        ValidEntered(w, w.nodes[j].id);
      }
    }
    NoHeads(w.nodes, w.edges, s, 0);
  }

  lemma ManyEndsNoOp(es: seq<Edge>, s: Id, ends: seq<Id>)
    ensures multiset(DropShortcuts(es, s, ends, 0)) == multiset(es) <==> ShortcutsAlone(es, s, ends)
  {
    var d := DropShortcuts(es, s, ends, 0);
    ShortcutsDropped(es, s, ends, 0);
    if ShortcutsAlone(es, s, ends) {
      NoShortcuts(es, s, ends, 0);
    } else if |d| != |es| {
      LongerDiffers(d, es);
    }
  }

  /** On a valid draft the repair is a no-op if and only if LeftAlone holds. */
  lemma NoOpIffLeftAlone(w: Workflow, startId: Id, endId: Id)
    requires Valid(w) && Stripped(w)
    ensures SameDraft(Normalize(w, startId, endId), w) <==> LeftAlone(w)
  {
    ValidSkipsFirstStages(w, startId, endId);
    var s, ends := StartIds(w.nodes)[0], EndIds(w.nodes);
    if |ends| == 1 {
      assert StartIds(w.nodes) == [s] && ends == [ends[0]];
      OneEndNoOp(w, s, ends[0]);
    } else {
      ManyEndsNoOp(w.edges, s, ends);
    }
  }

  /** No pass finds anything to do. */
  ghost predicate PassesIdle(ns: seq<Node>, es: seq<Edge>, s: Id, ends: seq<Id>) {
    && AddHeads(ns, es, s, 0) == es && DropShortcuts(es, s, ends, 0) == es
    && (|ends| == 1 ==> AddTails(ns, es, s, ends[0], 0) == es && HasExecIn(ns, es, ends[0]))
  }

  /** Where moreover every shortcut stands alone, no pass touches anything, not even the order of edges. */
  lemma NothingMoves(w: Workflow, startId: Id, endId: Id)
    requires Valid(w) && LeftAlone(w) && ShortcutsAlone(w.edges, StartIds(w.nodes)[0], EndIds(w.nodes))
    ensures StartId(w.nodes) == Some(StartIds(w.nodes)[0]) && EndIds(w.nodes) != []
    ensures PassesIdle(w.nodes, w.edges, StartIds(w.nodes)[0], EndIds(w.nodes))
    ensures Normalize(w, startId, endId) == w
  {
    ValidSkipsFirstStages(w, startId, endId);
    ValidBasics(w);
    var s, ends := StartIds(w.nodes)[0], EndIds(w.nodes);
    NoShortcuts(w.edges, s, ends, 0);
    if |ends| == 1 {
      assert ends[0] in ends && s in StartIds(w.nodes);
      EndpointsExecutable(w, s, ends[0]);
      ValidEntered(w, ends[0]);
      TailsIff(w.nodes, w.edges, s, ends[0]);
    }
  }
}
