/**
 * What the repair achieves: on every repairable draft the result has one Start,
 * one End, no cycle, all other nodes, and everything reachable; and repairing
 * it again changes nothing.
 */
module RepairTheorems {
  import opened Wrappers
  import opened Digraph
  import opened Workflows
  import opened Validation
  import opened Repair
  import opened RepairMerge
  import opened RepairWire

  // ---- each pass keeps the draft ready -------------------------------------

  /** An edge that every later pass may rely on: known ends, not out of End, not into Start. */
  ghost predicate FineEdge(ns: seq<Node>, e: Edge) {
    && e.source in Ids(ns) && e.target in Ids(ns) && !KindOf(ns, e.source).End?
    && (KindOf(ns, e.target).Start? ==> !Executable(ns, e.source))
  }

  lemma ReadyIf(ns: seq<Node>, es: seq<Edge>, r: seq<Edge>, s: Id, t: Id)
    requires Ready(ns, es, s, t) && Acyclic(ExecArcs(ns, r))
    requires forall e :: e in r ==> FineEdge(ns, e)
    ensures Ready(ns, r, s, t)
  {
  }

  lemma ReadyFine(ns: seq<Node>, es: seq<Edge>, s: Id, t: Id, e: Edge)
    requires Ready(ns, es, s, t) && e in es
    ensures FineEdge(ns, e)
  {
  }

  lemma ReadyEnds(ns: seq<Node>, es: seq<Edge>, s: Id, t: Id)
    requires Ready(ns, es, s, t)
    ensures DistinctIds(ns) && Executable(ns, s) && Executable(ns, t) && s != t
    ensures s in Ids(ns) && t in Ids(ns)
    ensures forall v :: KindOf(ns, v).Start? ==> v == s
    ensures forall v :: KindOf(ns, v).End? ==> v == t
  {
    forall v ensures (KindOf(ns, v).Start? ==> v == s) && (KindOf(ns, v).End? ==> v == t) {
      if IsKnown(ns, v) {
        assert Lookup(ns, v).value in ns;
      }
    }
  }

  lemma HeadsReady(ns: seq<Node>, es: seq<Edge>, s: Id, t: Id)
    requires Ready(ns, es, s, t)
    ensures Ready(ns, AddHeads(ns, es, s, 0), s, t)
  {
    ReadyEnds(ns, es, s, t);
    var r := AddHeads(ns, es, s, 0);
    HeadsAdded(ns, es, s, 0);
    forall e | e in r ensures FineEdge(ns, e) && (e in es || HeadLink(ns, s, e)) {
      HeadMember(ns, es, r, s, e);
      if e in es {
        ReadyFine(ns, es, s, t, e);
      }
    }
    var was, now := ExecArcs(ns, es), ExecArcs(ns, r);
    forall a | a in now ensures a.1 != s && (a.0 == s || a in was) {
      var e :| e in r && Executable(ns, e.source) && Executable(ns, e.target) && a == (e.source, e.target);
      assert FineEdge(ns, e);
    }
    AcyclicReroot(was, now, s);
    ReadyIf(ns, es, r, s, t);
  }

  lemma HeadMember(ns: seq<Node>, es: seq<Edge>, r: seq<Edge>, s: Id, e: Edge)
    requires es <= r && e in r && forall i :: |es| <= i < |r| ==> HeadLink(ns, s, r[i])
    ensures e in es || HeadLink(ns, s, e)
  {
    var i :| 0 <= i < |r| && r[i] == e;
    assert i < |es| ==> es[i] == e;
  }

  lemma DropReady(ns: seq<Node>, es: seq<Edge>, s: Id, t: Id)
    requires Ready(ns, es, s, t)
    ensures Ready(ns, DropShortcuts(es, s, [t], 0), s, t)
  {
    var r := DropShortcuts(es, s, [t], 0);
    ShortcutsDropped(es, s, [t], 0);
    forall e | e in r ensures e in es && FineEdge(ns, e) {
      var i :| 0 <= i < |r| && r[i] == e;
      assert r[i] in es[0..];
      ReadyFine(ns, es, s, t, e);
    }
    AcyclicSubset(ExecArcs(ns, r), ExecArcs(ns, es));
    ReadyIf(ns, es, r, s, t);
  }

  lemma TailMember(ns: seq<Node>, es: seq<Edge>, r: seq<Edge>, s: Id, t: Id, e: Edge)
    requires es <= r && e in r && forall i :: |es| <= i < |r| ==> TailLink(ns, s, t, r[i])
    ensures e in es || TailLink(ns, s, t, e)
  {
    var i :| 0 <= i < |r| && r[i] == e;
    assert i < |es| ==> es[i] == e;
  }

  /** Adding links into the End, from ordinary nodes or from Start, keeps the draft ready. */
  lemma IntoEndReady(ns: seq<Node>, es: seq<Edge>, r: seq<Edge>, s: Id, t: Id)
    requires Ready(ns, es, s, t)
    requires forall e :: e in r ==> e in es || TailLink(ns, s, t, e) || e == Link(s, t)
    ensures Ready(ns, r, s, t)
  {
    ReadyEnds(ns, es, s, t);
    forall e | e in r ensures FineEdge(ns, e) {
      if e in es {
        ReadyFine(ns, es, s, t, e);
      }
    }
    var was, now := ExecArcs(ns, es), ExecArcs(ns, r);
    forall a | a in now ensures a.0 != t && (a.1 == t || a in was) {
      var e :| e in r && Executable(ns, e.source) && Executable(ns, e.target) && a == (e.source, e.target);
      assert FineEdge(ns, e);
    }
    AcyclicResink(was, now, t);
    ReadyIf(ns, es, r, s, t);
  }

  lemma WireEndReady(ns: seq<Node>, es: seq<Edge>, s: Id, t: Id)
    requires Ready(ns, es, s, t)
    ensures Ready(ns, WireEnd(ns, es, s, t), s, t)
  {
    ReadyEnds(ns, es, s, t);
    var tailed := AddTails(ns, es, s, t, 0);
    var r := WireEnd(ns, es, s, t);
    TailsAdded(ns, es, s, t, 0);
    forall e | e in r ensures e in es || TailLink(ns, s, t, e) || e == Link(s, t) {
      if e in tailed {
        TailMember(ns, es, tailed, s, t, e);
      }
    }
    IntoEndReady(ns, es, r, s, t);
  }

  // ---- everything has a predecessor, so everything is reachable ------------

  /** Every executable node but Start has an executable node leading into it. */
  ghost predicate AllEntered(ns: seq<Node>, es: seq<Edge>, s: Id) {
    forall v :: Executable(ns, v) && v != s ==> HasExecIn(ns, es, v)
  }

  ghost function ExecIds(ns: seq<Node>): set<Id> {
    set v | v in Ids(ns) && Executable(ns, v)
  }

  lemma EnteredHasPredecessor(ns: seq<Node>, es: seq<Edge>, v: Id)
    requires Executable(ns, v) && HasExecIn(ns, es, v)
    ensures HasPredecessor(ExecArcs(ns, es), v)
  {
    var e :| e in es && e.target == v && Executable(ns, e.source);
    assert (e.source, v) in ExecArcs(ns, es);
  }

  lemma EnteredReached(ns: seq<Node>, es: seq<Edge>, s: Id, v: Id)
    requires Acyclic(ExecArcs(ns, es)) && AllEntered(ns, es, s) && Executable(ns, v)
    ensures Reaches(ExecArcs(ns, es), s, v)
  {
    var arcs := ExecArcs(ns, es);
    assert Within(arcs, ExecIds(ns));
    assert Path(arcs, [v]);
    var root := RootOf(arcs, ExecIds(ns), v, [v]);
    if root != s {
      EnteredHasPredecessor(ns, es, root);
    }
  }

  /** After the heads pass every ordinary node is entered. */
  lemma HeadsEntered(ns: seq<Node>, es: seq<Edge>, s: Id, t: Id, v: Id)
    requires Ready(ns, es, s, t) && Inner(ns, s, t, v)
    ensures HasExecIn(ns, AddHeads(ns, es, s, 0), v)
  {
    ReadyEnds(ns, es, s, t);
    HeadsAdded(ns, es, s, 0);
    var n := Lookup(ns, v).value;
    var j :| 0 <= j < |ns| && ns[j] == n;
    assert !NeedsIn(ns, AddHeads(ns, es, s, 0), s, ns[j]);
    assert KindOf(ns, v) == n.kind;
  }

  /** Dropping shortcuts takes no edge into an ordinary node. */
  lemma DropKeepsEntered(ns: seq<Node>, es: seq<Edge>, s: Id, t: Id, v: Id)
    requires v != t && HasExecIn(ns, es, v)
    ensures HasExecIn(ns, DropShortcuts(es, s, [t], 0), v)
  {
    ShortcutsDropped(es, s, [t], 0);
    var e :| e in es && e.target == v && Executable(ns, e.source);
    assert !Shortcut(e, s, [t]);
  }

  lemma EntryKept(ns: seq<Node>, es: seq<Edge>, r: seq<Edge>, v: Id)
    requires es <= r && HasExecIn(ns, es, v)
    ensures HasExecIn(ns, r, v)
  {
    var e :| e in es && e.target == v && Executable(ns, e.source);
    var i :| 0 <= i < |es| && es[i] == e;
    assert r[i] == e;
  }

  lemma WireEndEntered(ns: seq<Node>, es: seq<Edge>, s: Id, t: Id, v: Id)
    requires Ready(ns, es, s, t) && (v == t || HasExecIn(ns, es, v))
    ensures es <= WireEnd(ns, es, s, t) && HasExecIn(ns, WireEnd(ns, es, s, t), v)
  {
    ReadyEnds(ns, es, s, t);
    TailsAdded(ns, es, s, t, 0);
    var r := WireEnd(ns, es, s, t);
    if v == t {
      assert Link(s, t) in r || HasExecIn(ns, AddTails(ns, es, s, t, 0), t);
    } else {
      EntryKept(ns, es, r, v);
    }
  }

  /** The wired draft is ready and every executable node in it is reachable. */
  lemma Wired(ns: seq<Node>, es: seq<Edge>, s: Id, t: Id)
    requires Ready(ns, es, s, t)
    ensures Ready(ns, Wire(ns, es, s, [t]), s, t)
    ensures AllEntered(ns, Wire(ns, es, s, [t]), s)
  {
    var h := AddHeads(ns, es, s, 0);
    var d := DropShortcuts(h, s, [t], 0);
    HeadsReady(ns, es, s, t);
    DropReady(ns, h, s, t);
    WireEndReady(ns, d, s, t);
    forall v | Executable(ns, v) && v != s ensures HasExecIn(ns, Wire(ns, es, s, [t]), v) {
      if v != t {
        HeadsEntered(ns, es, s, t, v);
        DropKeepsEntered(ns, h, s, t, v);
      }
      WireEndEntered(ns, d, s, t, v);
    }
  }

  // ---- wiring twice --------------------------------------------------------

  /** After wiring no ordinary node wants a way in. */
  lemma EnteredNeedsNothing(ns: seq<Node>, es: seq<Edge>, s: Id, j: nat)
    requires DistinctIds(ns) && AllEntered(ns, es, s) && j < |ns|
    ensures !NeedsIn(ns, es, s, ns[j])
  {
    LookupMember(ns, ns[j]);
  }

  lemma NothingLeavesEnd(ns: seq<Node>, es: seq<Edge>, s: Id, t: Id, u: Id)
    requires Ready(ns, es, s, t)
    ensures (t, u) !in ExecArcs(ns, es)
  {
    forall e | e in es ensures e.source != t {
      ReadyFine(ns, es, s, t, e);
    }
  }

  /** With a shortcut that has nothing beside it, paths from Start end at once or at the End. */
  lemma LoneShortcutPath(ns: seq<Node>, es: seq<Edge>, s: Id, t: Id, i: nat, v: Id, p: seq<Id>)
    requires Ready(ns, es, s, t) && Joins(ExecArcs(ns, es), s, v, p)
    requires i < |es| && Shortcut(es[i], s, [t]) && !HasOther(es, s, i)
    ensures v == s || v == t
  {
    var arcs := ExecArcs(ns, es);
    if |p| >= 2 {
      assert (p[0], p[0 + 1]) in arcs;
      var e :| e in es && e.source == s && e.target == p[1];
      var k :| 0 <= k < |es| && es[k] == e;
      assert k == i;
      NothingLeavesEnd(ns, es, s, t, p[if |p| > 2 then 2 else 1]);
    }
  }

  /** A shortcut with nothing beside it leaves room for no ordinary node at all. */
  lemma LoneShortcut(ns: seq<Node>, es: seq<Edge>, s: Id, t: Id, i: nat, v: Id)
    requires Ready(ns, es, s, t) && AllEntered(ns, es, s)
    requires i < |es| && Shortcut(es[i], s, [t]) && !HasOther(es, s, i)
    ensures !Inner(ns, s, t, v)
  {
    if Executable(ns, v) {
      EnteredReached(ns, es, s, v);
      var p :| Joins(ExecArcs(ns, es), s, v, p);
      LoneShortcutPath(ns, es, s, t, i, v, p);
    }
  }

  lemma InnerOnlyNeedsOut(ns: seq<Node>, es: seq<Edge>, s: Id, t: Id, j: nat)
    requires DistinctIds(ns) && j < |ns| && NeedsOut(ns, es, s, t, ns[j])
    ensures Inner(ns, s, t, ns[j].id)
  {
    LookupMember(ns, ns[j]);
  }

  /** Wiring a draft whose shortcut stands alone changes nothing. */
  lemma LoneShortcutStays(ns: seq<Node>, d: seq<Edge>, s: Id, t: Id, i: nat)
    requires Ready(ns, d, s, t) && AllEntered(ns, d, s)
    requires i < |d| && Shortcut(d[i], s, [t])
    requires forall k :: 0 <= k < |d| && Shortcut(d[k], s, [t]) ==> !HasOther(d, s, k)
    ensures WireEnd(ns, d, s, t) == d && DropShortcuts(d, s, [t], 0) == d
  {
    ReadyEnds(ns, d, s, t);
    NoShortcuts(d, s, [t], 0);
    forall j | 0 <= j < |ns| ensures !NeedsOut(ns, d, s, t, ns[j]) {
      if NeedsOut(ns, d, s, t, ns[j]) {
        InnerOnlyNeedsOut(ns, d, s, t, j);
        LoneShortcut(ns, d, s, t, i, ns[j].id);
      }
    }
    NoTails(ns, d, s, t, 0);
    assert d[i] in d;
  }

  /** Wiring the End a second time: nothing to add, or the shortcut goes and comes back. */
  lemma WireEndTwice(ns: seq<Node>, d: seq<Edge>, s: Id, t: Id)
    requires Ready(ns, d, s, t) && forall e :: e in d ==> !Shortcut(e, s, [t])
    ensures var r := WireEnd(ns, d, s, t); WireEnd(ns, DropShortcuts(r, s, [t], 0), s, t) == r
  {
    ReadyEnds(ns, d, s, t);
    var tailed := AddTails(ns, d, s, t, 0);
    TailsAdded(ns, d, s, t, 0);
    forall e | e in tailed ensures !Shortcut(e, s, [t]) {
      TailMember(ns, d, tailed, s, t, e);
    }
    NoTails(ns, tailed, s, t, 0);
    if HasExecIn(ns, tailed, t) {
      NoShortcuts(tailed, s, [t], 0);
    } else {
      TailsEnter(ns, d, s, t);
      ShortcutComesBack(ns, d, s, t);
    }
  }

  lemma TailsEnter(ns: seq<Node>, d: seq<Edge>, s: Id, t: Id)
    requires Ready(ns, d, s, t)
    ensures AddTails(ns, d, s, t, 0) == d || HasExecIn(ns, AddTails(ns, d, s, t, 0), t)
  {
    ReadyEnds(ns, d, s, t);
    TailsAdded(ns, d, s, t, 0);
    var tailed := AddTails(ns, d, s, t, 0);
    if |tailed| > |d| {
      assert TailLink(ns, s, t, tailed[|d|]);
      assert tailed[|d|] in tailed;
    }
  }

  lemma ShortcutComesBack(ns: seq<Node>, d: seq<Edge>, s: Id, t: Id)
    requires Ready(ns, d, s, t) && forall e :: e in d ==> !Shortcut(e, s, [t])
    requires AddTails(ns, d, s, t, 0) == d && !HasExecIn(ns, d, t)
    ensures var r := d + [Link(s, t)]; WireEnd(ns, DropShortcuts(r, s, [t], 0), s, t) == r
  {
    ReadyEnds(ns, d, s, t);
    var r := d + [Link(s, t)];
    LastShortcut(d, Link(s, t), s, [t], 0);
    if !HasOther(r, s, |d|) {
      TailsAdded(ns, d, s, t, 0);
      forall j | 0 <= j < |ns| ensures !NeedsOut(ns, r, s, t, ns[j]) {
        assert !NeedsOut(ns, d, s, t, ns[j]);
      }
      NoTails(ns, r, s, t, 0);
      assert r[|d|] in r;
    }
  }

  lemma DroppedEntered(ns: seq<Node>, h: seq<Edge>, s: Id, t: Id, i: nat)
    requires Ready(ns, h, s, t) && forall v :: Inner(ns, s, t, v) ==> HasExecIn(ns, h, v)
    requires var d := DropShortcuts(h, s, [t], 0); i < |d| && Shortcut(d[i], s, [t])
    ensures AllEntered(ns, DropShortcuts(h, s, [t], 0), s)
  {
    ReadyEnds(ns, h, s, t);
    var d := DropShortcuts(h, s, [t], 0);
    forall v | Executable(ns, v) && v != s ensures HasExecIn(ns, d, v) {
      if v == t {
        assert d[i] in d;
      } else {
        DropKeepsEntered(ns, h, s, t, v);
      }
    }
  }

  /** Wiring is idempotent. */
  lemma WireTwice(ns: seq<Node>, es: seq<Edge>, s: Id, t: Id)
    requires Ready(ns, es, s, t)
    ensures Wire(ns, Wire(ns, es, s, [t]), s, [t]) == Wire(ns, es, s, [t])
  {
    ReadyEnds(ns, es, s, t);
    var h := AddHeads(ns, es, s, 0);
    var d := DropShortcuts(h, s, [t], 0);
    var r := Wire(ns, es, s, [t]);
    HeadsReady(ns, es, s, t);
    DropReady(ns, h, s, t);
    Wired(ns, es, s, t);
    forall j | 0 <= j < |ns| ensures !NeedsIn(ns, r, s, ns[j]) {
      EnteredNeedsNothing(ns, r, s, j);
    }
    NoHeads(ns, r, s, 0);
    ShortcutsDropped(h, s, [t], 0);
    if i :| 0 <= i < |d| && Shortcut(d[i], s, [t]) {
      forall v | Inner(ns, s, t, v) ensures HasExecIn(ns, h, v) {
        HeadsEntered(ns, es, s, t, v);
      }
      DroppedEntered(ns, h, s, t, i);
      LoneShortcutStays(ns, d, s, t, i);
    } else {
      WireEndTwice(ns, d, s, t);
    }
  }

  // ---- the whole repair ----------------------------------------------------

  lemma PreparedReady(w: Workflow, startId: Id, endId: Id)
    requires Repairable(w) && FreshNames(w, startId, endId)
    ensures var m := EnsureEnd(EnsureStart(MergeStarts(w), startId), endId);
      && StartId(m.nodes).Some? && |EndIds(m.nodes)| == 1
      && Ready(m.nodes, m.edges, StartId(m.nodes).value, EndIds(m.nodes)[0])
  {
    EndpointsReady(w, startId, endId);
    ReadyFrom(EnsureEnd(EnsureStart(MergeStarts(w), startId), endId));
  }

  lemma ReadyFrom(m: Workflow)
    requires Sane(m) && |StartIds(m.nodes)| == 1 && |EndIds(m.nodes)| == 1
    ensures StartId(m.nodes).Some? && Ready(m.nodes, m.edges, StartId(m.nodes).value, EndIds(m.nodes)[0])
  {
    var s, t := StartIds(m.nodes)[0], EndIds(m.nodes)[0];
    OneStart(m.nodes);
    StartKind(m.nodes, s);
    StartKind(m.nodes, t);
    OnlyEndpoints(m.nodes);
    assert m == Workflow(m.nodes, m.edges);
  }

  lemma OnlyEndpoints(nodes: seq<Node>)
    requires |StartIds(nodes)| == 1 && |EndIds(nodes)| == 1
    ensures forall n :: n in nodes && n.kind.Start? ==> n.id == StartIds(nodes)[0]
    ensures forall n :: n in nodes && n.kind.End? ==> n.id == EndIds(nodes)[0]
  {
    forall n | n in nodes && n.kind.Start? ensures n.id == StartIds(nodes)[0] {
      assert n.id in StartIds(nodes);
    }
    forall n | n in nodes && n.kind.End? ensures n.id == EndIds(nodes)[0] {
      assert n.id in EndIds(nodes);
    }
  }

  lemma OneStart(nodes: seq<Node>)
    requires |StartIds(nodes)| == 1
    ensures StartId(nodes) == Some(StartIds(nodes)[0])
  {
    assert StartIds(nodes)[0] in StartIds(nodes);
    var n :| n in nodes && n.kind.Start? && n.id == StartId(nodes).value;
    assert n.id in StartIds(nodes);
  }

  /**
   * The repaired draft has exactly one Start and one End, known ends on all
   * edges, no cycle, every node that was not a Start, and passes the
   * validator's reachability check.
   */
  lemma RepairGivesReachability(w: Workflow, startId: Id, endId: Id)
    requires Repairable(w) && FreshNames(w, startId, endId)
    ensures var r := Normalize(w, startId, endId);
      && Repairable(r) && |StartIds(r.nodes)| == 1 && |EndIds(r.nodes)| == 1
      && (forall n :: n in w.nodes && !n.kind.Start? ==> n in r.nodes)
      && (forall n :: n in r.nodes && !n.kind.Start? && !n.kind.End? ==> n in w.nodes)
      && (forall x :: !ReachDefect(r.nodes, r.edges, StartIds(r.nodes)[0], x))
  {
    EndpointsReady(w, startId, endId);
    PreparedReady(w, startId, endId);
    var m := EnsureEnd(EnsureStart(MergeStarts(w), startId), endId);
    var s, t := StartId(m.nodes).value, EndIds(m.nodes)[0];
    OneStart(m.nodes);
    assert EndIds(m.nodes) == [t];
    Wired(m.nodes, m.edges, s, t);
    var r := Normalize(w, startId, endId);
    assert r == Workflow(m.nodes, Wire(m.nodes, m.edges, s, [t]));
    EnteredHasNoDefect(r.nodes, r.edges, s, t);
  }

  lemma EnteredHasNoDefect(ns: seq<Node>, es: seq<Edge>, s: Id, t: Id)
    requires Ready(ns, es, s, t) && AllEntered(ns, es, s)
    ensures forall x :: !ReachDefect(ns, es, s, x)
  {
    forall x ensures !ReachDefect(ns, es, s, x) {
      if x.Unreachable? && Executable(ns, x.id) {
        EnteredReached(ns, es, s, x.id);
      }
    }
  }

  /** With one Start and one End only the wiring passes have work to do. */
  lemma OnlyWires(w: Workflow, startId: Id, endId: Id, s: Id, t: Id)
    requires StartIds(w.nodes) == [s] && EndIds(w.nodes) == [t]
    ensures Normalize(w, startId, endId) == w.(edges := Wire(w.nodes, w.edges, s, [t]))
  {
    OneStart(w.nodes);
  }

  /** The repair is wiring applied to a ready draft. */
  lemma RepairSplit(w: Workflow, startId: Id, endId: Id) returns (m: Workflow, s: Id, t: Id)
    requires Repairable(w) && FreshNames(w, startId, endId)
    ensures Ready(m.nodes, m.edges, s, t) && StartIds(m.nodes) == [s] && EndIds(m.nodes) == [t]
    ensures Normalize(w, startId, endId) == m.(edges := Wire(m.nodes, m.edges, s, [t]))
  {
    m := EnsureEnd(EnsureStart(MergeStarts(w), startId), endId);
    EndpointsReady(w, startId, endId);
    PreparedReady(w, startId, endId);
    OneStart(m.nodes);
    s, t := StartIds(m.nodes)[0], EndIds(m.nodes)[0];
    assert EndIds(m.nodes) == [t];
  }

  /** Repairing a repaired draft changes nothing, whatever names are on offer. */
  lemma RepairIsIdempotent(w: Workflow, startId: Id, endId: Id, startId2: Id, endId2: Id)
    requires Repairable(w) && FreshNames(w, startId, endId)
    ensures var r := Normalize(w, startId, endId); Normalize(r, startId2, endId2) == r
  {
    var m, s, t := RepairSplit(w, startId, endId);
    WireTwice(m.nodes, m.edges, s, t);
    OnlyWires(Normalize(w, startId, endId), startId2, endId2, s, t);
  }
}
