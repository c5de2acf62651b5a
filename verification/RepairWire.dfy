/** The three wiring passes on a draft with one Start s and one End t. */
module RepairWire {
  import opened Digraph
  import opened Workflows
  import opened Validation
  import opened Repair
  import opened RepairMerge

  ghost predicate Ready(ns: seq<Node>, es: seq<Edge>, s: Id, t: Id) {
    && Sane(Workflow(ns, es))
    && KindOf(ns, s).Start? && KindOf(ns, t).End?
    && (forall n :: n in ns && n.kind.Start? ==> n.id == s)
    && (forall n :: n in ns && n.kind.End? ==> n.id == t)
  }

  /** An ordinary node: executable, neither Start nor End. */
  ghost predicate Inner(ns: seq<Node>, s: Id, t: Id, v: Id) {
    Executable(ns, v) && v != s && v != t
  }

  // ---- heads ---------------------------------------------------------------

  ghost predicate HeadLink(ns: seq<Node>, s: Id, e: Edge) {
    e == Link(s, e.target) && e.target != s && Executable(ns, e.target) && !KindOf(ns, e.target).End?
  }

  /** r is es followed by links from s to heads. */
  ghost predicate HeadLinksAfter(ns: seq<Node>, es: seq<Edge>, s: Id, r: seq<Edge>) {
    es <= r && forall i :: |es| <= i < |r| ==> HeadLink(ns, s, r[i])
  }

  lemma HeadLinksOneMore(ns: seq<Node>, es: seq<Edge>, s: Id, n: Node, r: seq<Edge>)
    requires HeadLinksAfter(ns, es + [Link(s, n.id)], s, r) && HeadLink(ns, s, Link(s, n.id))
    ensures HeadLinksAfter(ns, es, s, r) && Link(s, n.id) in r
  {
    assert r[|es|] == (es + [Link(s, n.id)])[|es|];
    assert es <= r;
  }

  lemma PrefixMember(es: seq<Edge>, r: seq<Edge>, e: Edge)
    requires es <= r && e in es
    ensures e in r
  {
    var i :| 0 <= i < |es| && es[i] == e;
    assert r[i] == e;
  }

  lemma LinkedNeedsNothing(ns: seq<Node>, es: seq<Edge>, s: Id, n: Node)
    requires Executable(ns, s) && Link(s, n.id) in es
    ensures !NeedsIn(ns, es, s, n)
  {
  }

  lemma NeedsNothingLater(ns: seq<Node>, es: seq<Edge>, s: Id, n: Node, r: seq<Edge>)
    requires !NeedsIn(ns, es, s, n) && es <= r
    ensures !NeedsIn(ns, r, s, n)
  {
    forall e | e in es ensures e in r {
      PrefixMember(es, r, e);
    }
  }

  lemma {:induction false} HeadsAdded(ns: seq<Node>, es: seq<Edge>, s: Id, k: nat)
    requires DistinctIds(ns) && k <= |ns| && Executable(ns, s)
    ensures HeadLinksAfter(ns, es, s, AddHeads(ns, es, s, k))
    ensures forall j :: k <= j < |ns| ==> !NeedsIn(ns, AddHeads(ns, es, s, k), s, ns[j])
    decreases |ns| - k
  {
    if k < |ns| {
      LookupMember(ns, ns[k]);
      var r := AddHeads(ns, es, s, k);
      if NeedsIn(ns, es, s, ns[k]) {
        var more := es + [Link(s, ns[k].id)];
        HeadsAdded(ns, more, s, k + 1);
        HeadLinksOneMore(ns, es, s, ns[k], r);
        LinkedNeedsNothing(ns, r, s, ns[k]);
      } else {
        HeadsAdded(ns, es, s, k + 1);
        NeedsNothingLater(ns, es, s, ns[k], r);
      }
    }
  }

  lemma {:induction false} NoHeads(ns: seq<Node>, es: seq<Edge>, s: Id, k: nat)
    requires k <= |ns| && forall j :: k <= j < |ns| ==> !NeedsIn(ns, es, s, ns[j])
    ensures AddHeads(ns, es, s, k) == es
    decreases |ns| - k
  {
    if k < |ns| {
      NoHeads(ns, es, s, k + 1);
    }
  }

  // ---- shortcuts -----------------------------------------------------------

  /** r is es with shortcuts dropped from position k on, none of them left beside another edge. */
  ghost predicate Dropped(es: seq<Edge>, r: seq<Edge>, s: Id, ends: seq<Id>, k: nat)
    requires k <= |es|
  {
    && k <= |r| <= |es| && r[..k] == es[..k]
    && (forall i :: k <= i < |r| ==> r[i] in es[k..])
    && (forall e :: e in es && !Shortcut(e, s, ends) ==> e in r)
    && (forall i :: k <= i < |r| && Shortcut(r[i], s, ends) ==> !HasOther(r, s, i))
    && (|r| == |es| ==> r == es)
  }

  lemma DroppedOne(es: seq<Edge>, r: seq<Edge>, s: Id, ends: seq<Id>, k: nat)
    requires k < |es| && Shortcut(es[k], s, ends) && Dropped(es[..k] + es[k + 1..], r, s, ends, k)
    ensures Dropped(es, r, s, ends, k)
  {
    var fewer := es[..k] + es[k + 1..];
    assert fewer[k..] == es[k + 1..] && fewer[..k] == es[..k];
    forall e | e in es && !Shortcut(e, s, ends) ensures e in r {
      assert es == es[..k] + [es[k]] + es[k + 1..];
      assert e in fewer;
    }
    forall i | k <= i < |r| ensures r[i] in es[k..] {
      assert r[i] in fewer[k..];
      assert es[k..] == [es[k]] + es[k + 1..];
    }
  }

  lemma DroppedNone(es: seq<Edge>, r: seq<Edge>, s: Id, ends: seq<Id>, k: nat)
    requires k < |es| && !(Shortcut(es[k], s, ends) && HasOther(es, s, k)) && Dropped(es, r, s, ends, k + 1)
    ensures Dropped(es, r, s, ends, k)
  {
    assert r[..k + 1][k] == r[k] && es[..k + 1][k] == es[k];
    assert r[..k] == r[..k + 1][..k] && es[..k] == es[..k + 1][..k];
    assert es[k..] == [es[k]] + es[k + 1..];
    if Shortcut(r[k], s, ends) {
      KeptHasNoOther(es, r, s, k);
    }
  }

  lemma {:induction false} ShortcutsDropped(es: seq<Edge>, s: Id, ends: seq<Id>, k: nat)
    requires k <= |es|
    ensures Dropped(es, DropShortcuts(es, s, ends, k), s, ends, k)
    decreases |es| - k
  {
    if k < |es| {
      if Shortcut(es[k], s, ends) && HasOther(es, s, k) {
        var fewer := es[..k] + es[k + 1..];
        ShortcutsDropped(fewer, s, ends, k);
        DroppedOne(es, DropShortcuts(fewer, s, ends, k), s, ends, k);
      } else {
        ShortcutsDropped(es, s, ends, k + 1);
        DroppedNone(es, DropShortcuts(es, s, ends, k + 1), s, ends, k);
      }
    }
  }

  lemma KeptHasNoOther(es: seq<Edge>, r: seq<Edge>, s: Id, k: nat)
    requires k < |r| <= |es| && r[..k + 1] == es[..k + 1] && !HasOther(es, s, k)
    requires forall i :: k + 1 <= i < |r| ==> r[i] in es[k + 1..]
    ensures !HasOther(r, s, k)
  {
    forall i | 0 <= i < |r| && i != k ensures !(r[i].source == s || r[i].target == r[k].target) {
      assert r[k] == r[..k + 1][k] == es[k];
      if i < k {
        assert r[i] == r[..k + 1][i] == es[i];
      } else {
        var j :| 0 <= j < |es[k + 1..]| && es[k + 1..][j] == r[i];
        assert es[k + 1 + j] == r[i];
      }
    }
  }

  lemma {:induction false} NoShortcuts(es: seq<Edge>, s: Id, ends: seq<Id>, k: nat)
    requires k <= |es| && forall i :: k <= i < |es| && Shortcut(es[i], s, ends) ==> !HasOther(es, s, i)
    ensures DropShortcuts(es, s, ends, k) == es
    decreases |es| - k
  {
    if k < |es| {
      NoShortcuts(es, s, ends, k + 1);
    }
  }

  /** A lone shortcut at the very end goes exactly if something runs beside it. */
  lemma {:induction false} LastShortcut(es: seq<Edge>, x: Edge, s: Id, ends: seq<Id>, k: nat)
    requires k <= |es| && forall e :: e in es ==> !Shortcut(e, s, ends)
    requires Shortcut(x, s, ends)
    ensures DropShortcuts(es + [x], s, ends, k) == if HasOther(es + [x], s, |es|) then es else es + [x]
    decreases |es| - k
  {
    var all := es + [x];
    if k < |es| {
      assert all[k] == es[k];
      LastShortcut(es, x, s, ends, k + 1);
    } else {
      assert all[..k] + all[k + 1..] == es;
    }
  }

  // ---- tails ---------------------------------------------------------------

  ghost predicate TailLink(ns: seq<Node>, s: Id, t: Id, e: Edge) {
    e == Link(e.source, t) && Inner(ns, s, t, e.source) && !KindOf(ns, e.source).End?
  }

  lemma {:induction false} TailsAdded(ns: seq<Node>, es: seq<Edge>, s: Id, t: Id, k: nat)
    requires DistinctIds(ns) && k <= |ns| && Executable(ns, t)
    ensures es <= AddTails(ns, es, s, t, k)
    ensures forall i :: |es| <= i < |AddTails(ns, es, s, t, k)| ==> TailLink(ns, s, t, AddTails(ns, es, s, t, k)[i])
    ensures forall j :: k <= j < |ns| ==> !NeedsOut(ns, AddTails(ns, es, s, t, k), s, t, ns[j])
    decreases |ns| - k
  {
    if k < |ns| {
      LookupMember(ns, ns[k]);
      var more := if NeedsOut(ns, es, s, t, ns[k]) then es + [Link(ns[k].id, t)] else es;
      TailsAdded(ns, more, s, t, k + 1);
      var r := AddTails(ns, es, s, t, k);
      assert r == AddTails(ns, more, s, t, k + 1);
      if NeedsOut(ns, es, s, t, ns[k]) {
        assert more[|es|] == r[|es|];
      }
      forall e | e in more ensures e in r {
        var i :| 0 <= i < |more| && more[i] == e;
        assert r[i] == e;
      }
    }
  }

  lemma {:induction false} NoTails(ns: seq<Node>, es: seq<Edge>, s: Id, t: Id, k: nat)
    requires k <= |ns| && forall j :: k <= j < |ns| ==> !NeedsOut(ns, es, s, t, ns[j])
    ensures AddTails(ns, es, s, t, k) == es
    decreases |ns| - k
  {
    if k < |ns| {
      NoTails(ns, es, s, t, k + 1);
    }
  }
}
