/** Edge ids carry no meaning: two drafts that differ in them alone are valid together. */
module EdgeIds {
  import opened Digraph
  import opened Workflows
  import opened BranchMarkers
  import opened Exclusivity
  import opened Validation
  import opened Compile
  import opened Repair

  ghost predicate Alike(e: Edge, f: Edge) {
    e.source == f.source && e.target == f.target && e.branch == f.branch
  }

  /** Position by position, the edges differ at most in their ids. */
  ghost predicate SameButIds(es: seq<Edge>, fs: seq<Edge>) {
    |es| == |fs| && forall i :: 0 <= i < |es| ==> Alike(es[i], fs[i])
  }

  lemma Counterpart(es: seq<Edge>, fs: seq<Edge>, e: Edge) returns (f: Edge)
    requires SameButIds(es, fs) && e in es
    ensures f in fs && Alike(e, f)
  {
    var i :| 0 <= i < |es| && es[i] == e;
    f := fs[i];
  }

  lemma {:induction false} FilterAlike(es: seq<Edge>, fs: seq<Edge>, keep: Edge -> bool)
    requires SameButIds(es, fs) && forall i :: 0 <= i < |es| ==> keep(es[i]) == keep(fs[i])
    ensures SameButIds(Filter(es, keep), Filter(fs, keep))
  {
    if es != [] {
      var n := |es| - 1;
      var most, now := es[..n], fs[..n];
      FilterAlike(most, now, keep);
      FilterNext(most, now, es[n], fs[n], keep);
      assert most + [es[n]] == es && now + [fs[n]] == fs;
    }
  }

  lemma FilterNext(es: seq<Edge>, fs: seq<Edge>, e: Edge, f: Edge, keep: Edge -> bool)
    requires SameButIds(Filter(es, keep), Filter(fs, keep)) && Alike(e, f) && keep(e) == keep(f)
    ensures SameButIds(Filter(es + [e], keep), Filter(fs + [f], keep))
  {
    FilterSnoc(es, e, keep);
    FilterSnoc(fs, f, keep);
    SameAppend(Filter(es, keep), Filter(fs, keep), e, f);
  }

  lemma SameAppend(a: seq<Edge>, b: seq<Edge>, e: Edge, f: Edge)
    requires SameButIds(a, b) && Alike(e, f)
    ensures SameButIds(a + [e], b + [f]) && SameButIds(a + [], b + [])
  {
  }

  lemma IncomingAlike(ns: seq<Node>, es: seq<Edge>, fs: seq<Edge>, id: Id)
    requires SameButIds(es, fs)
    ensures SameButIds(ExecIncoming(ns, es, id), ExecIncoming(ns, fs, id))
  {
    FilterAlike(es, fs, (e: Edge) => e.target == id && Executable(ns, e.source));
  }

  lemma OutgoingAlike(ns: seq<Node>, es: seq<Edge>, fs: seq<Edge>, id: Id)
    requires SameButIds(es, fs)
    ensures SameButIds(ExecOutgoing(ns, es, id), ExecOutgoing(ns, fs, id))
  {
    FilterAlike(es, fs, (e: Edge) => e.source == id && Executable(ns, e.target));
  }

  lemma ArcsAlike(ns: seq<Node>, es: seq<Edge>, fs: seq<Edge>)
    requires SameButIds(es, fs)
    ensures ExecArcs(ns, es) <= ExecArcs(ns, fs) && FlowArcs(ns, es) <= FlowArcs(ns, fs)
  {
    forall e | e in es ensures exists f :: f in fs && Alike(e, f) {
      var f := Counterpart(es, fs, e);
    }
  }

  lemma Mirrored(es: seq<Edge>, fs: seq<Edge>)
    requires SameButIds(es, fs)
    ensures SameButIds(fs, es)
  {
  }

  lemma MarkAlike(ns: seq<Node>, es: seq<Edge>, fs: seq<Edge>, v: Id, m: Marker)
    requires SameButIds(es, fs) && Marked(ns, es, v, m)
    ensures Marked(ns, fs, v, m)
  {
    var e, p :| MarkedVia(ns, es, v, m, e, p);
    var f := Counterpart(es, fs, e);
    ArcsAlike(ns, es, fs);
    assert MarkedVia(ns, fs, v, m, f, p);
  }

  lemma SeparableAlike(ns: seq<Node>, es: seq<Edge>, fs: seq<Edge>, a: Id, b: Id)
    requires SameButIds(es, fs) && Separable(ns, es, a, b)
    ensures Separable(ns, fs, a, b)
  {
    Mirrored(es, fs);
    forall v, m ensures Marked(ns, es, v, m) <==> Marked(ns, fs, v, m) {
      if Marked(ns, es, v, m) {
        MarkAlike(ns, es, fs, v, m);
      }
      if Marked(ns, fs, v, m) {
        MarkAlike(ns, fs, es, v, m);
      }
    }
    var c :| Separates(ns, es, c, a, b);
    assert Separates(ns, fs, c, a, b);
  }

  lemma EntryAlike(ns: seq<Node>, es: seq<Edge>, fs: seq<Edge>, id: Id)
    requires SameButIds(es, fs) && MayEnterEnd(ns, es, ExecIncoming(ns, es, id))
    ensures MayEnterEnd(ns, fs, ExecIncoming(ns, fs, id))
  {
    IncomingAlike(ns, es, fs, id);
    var into, now := ExecIncoming(ns, es, id), ExecIncoming(ns, fs, id);
    if |into| > 1 {
      forall i, j | 0 <= i < j < |now| ensures Separable(ns, fs, now[i].source, now[j].source) {
        assert Alike(into[i], now[i]) && Alike(into[j], now[j]);
        SeparableAlike(ns, es, fs, into[i].source, into[j].source);
      }
    }
  }

  lemma NoEndDefect(w: Workflow, fs: seq<Edge>, x: Violation)
    requires Valid(w) && SameButIds(w.edges, fs)
    ensures !EndDefect(w.nodes, fs, EndIds(w.nodes), x)
  {
    ValidBasics(w);
    if x.EndIncoming? && x.id in EndIds(w.nodes) {
      assert !Defect(w, EndIncoming(x.id, |ExecIncoming(w.nodes, w.edges, x.id)|));
      EntryAlike(w.nodes, w.edges, fs, x.id);
    }
  }

  lemma NoJoinDefect(w: Workflow, fs: seq<Edge>, x: Violation)
    requires Valid(w) && SameButIds(w.edges, fs)
    ensures !JoinDefect(w.nodes, fs, |w.nodes|, x)
  {
    ValidBasics(w);
    if x.JoinOutgoing? {
      OutgoingAlike(w.nodes, w.edges, fs, x.id);
      assert !Defect(w, x);
    }
  }

  lemma NoBranchDefect(w: Workflow, fs: seq<Edge>, x: Violation)
    requires Valid(w) && SameButIds(w.edges, fs)
    ensures !BranchDefect(w.nodes, fs, x)
  {
    ValidBasics(w);
    forall f | f in fs ensures Conditional(KindOf(w.nodes, f.source)) <==> f.branch.Some? {
      Mirrored(w.edges, fs);
      var e := Counterpart(fs, w.edges, f);
      LabelledRight(w, e);
    }
  }

  lemma NoReachDefect(w: Workflow, fs: seq<Edge>, s: Id, x: Violation)
    requires Valid(w) && SameButIds(w.edges, fs) && StartIds(w.nodes) == [s]
    ensures !ReachDefect(w.nodes, fs, s, x)
  {
    ValidBasics(w);
    if x.Unreachable? && Executable(w.nodes, x.id) {
      ValidReaches(w, Lookup(w.nodes, x.id).value);
      ArcsAlike(w.nodes, w.edges, fs);
      var p :| Joins(ExecArcs(w.nodes, w.edges), s, x.id, p);
      assert Joins(ExecArcs(w.nodes, fs), s, x.id, p);
    }
  }

  lemma ValidAlike(w: Workflow, fs: seq<Edge>)
    requires Valid(w) && SameButIds(w.edges, fs)
    ensures Valid(Workflow(w.nodes, fs))
  {
    ValidBasics(w);
    var s := StartIds(w.nodes)[0];
    assert !Defect(w, NoEnd);
    assert !CountDefect(w.nodes, NoEnd);
    Mirrored(w.edges, fs);
    forall f | f in fs ensures f.source in Ids(w.nodes) && f.target in Ids(w.nodes) {
      var e := Counterpart(fs, w.edges, f);
    }
    forall x ensures !EndDefect(w.nodes, fs, EndIds(w.nodes), x) && !JoinDefect(w.nodes, fs, |w.nodes|, x)
                     && !BranchDefect(w.nodes, fs, x) && !ReachDefect(w.nodes, fs, s, x)
    {
      NoEndDefect(w, fs, x);
      NoJoinDefect(w, fs, x);
      NoBranchDefect(w, fs, x);
      NoReachDefect(w, fs, s, x);
    }
    ValidByParts(w.nodes, fs, s);
  }

  /** A draft is valid exactly when it is without its edge ids. */
  lemma ValidStripped(ns: seq<Node>, es: seq<Edge>)
    ensures Valid(Workflow(ns, Strip(es))) <==> Valid(Workflow(ns, es))
  {
    assert SameButIds(es, Strip(es)) && SameButIds(Strip(es), es);
    if Valid(Workflow(ns, es)) {
      ValidAlike(Workflow(ns, es), Strip(es));
    }
    if Valid(Workflow(ns, Strip(es))) {
      ValidAlike(Workflow(ns, Strip(es)), es);
    }
  }
}
