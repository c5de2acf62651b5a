/**
 * The builder's mutable draft: the tools that edit it and the repair that
 * rewires it in place.
 */
module Drafts {
  import opened Wrappers
  import opened Digraph
  import opened Workflows
  import opened Dictionary
  import opened Repair

  // ---- values --------------------------------------------------------------

  function KeySet<V>(d: Dict<V>): set<Id> {
    set i | 0 <= i < |d| :: d[i].key
  }

  ghost predicate NodesKeyed(nodes: Dict<Node>) {
    DistinctKeys(nodes) && forall i :: 0 <= i < |nodes| ==> nodes[i].key == nodes[i].value.id
  }

  ghost predicate EdgesKeyed(edges: Dict<Edge>) {
    DistinctKeys(edges) && forall i :: 0 <= i < |edges| ==> edges[i].key == edges[i].value.id
  }

  ghost predicate EndsKnown(nodes: Dict<Node>, edges: Dict<Edge>) {
    forall i {:trigger EndKnown(nodes, edges[i].value)} :: 0 <= i < |edges| ==> EndKnown(nodes, edges[i].value)
  }

  ghost predicate EndKnown(nodes: Dict<Node>, e: Edge) {
    HasKey(nodes, e.source) && HasKey(nodes, e.target)
  }

  ghost predicate Consistent(nodes: Dict<Node>, edges: Dict<Edge>) {
    NodesKeyed(nodes) && EdgesKeyed(edges) && EndsKnown(nodes, edges)
  }

  lemma KeysAreIds(nodes: Dict<Node>)
    requires NodesKeyed(nodes)
    ensures DistinctIds(Values(nodes))
    ensures forall k :: HasKey(nodes, k) <==> k in Ids(Values(nodes))
  {
    var vs := Values(nodes);
    forall k ensures HasKey(nodes, k) <==> k in Ids(vs) {
      if HasKey(nodes, k) {
        var i :| 0 <= i < |nodes| && nodes[i].key == k;
        assert vs[i] in vs;
      }
      if k in Ids(vs) {
        var n :| n in vs && n.id == k;
        var i :| 0 <= i < |vs| && vs[i] == n;
        assert nodes[i].key == k;
      }
    }
  }

  /** Entries mapped in place; those mapped to nothing are dropped. */
  function Rewrite(d: Dict<Edge>, f: Edge -> Option<Edge>): Dict<Edge> {
    if d == [] then []
    else
      var n := |d| - 1;
      var r := Rewrite(d[..n], f);
      match f(d[n].value)
      case None => r
      case Some(e) => r + [Entry(d[n].key, e)]
  }

  lemma {:induction false} RewriteFrom(d: Dict<Edge>, f: Edge -> Option<Edge>, j: nat) returns (i: nat)
    requires j < |Rewrite(d, f)|
    ensures i < |d| && d[i].key == Rewrite(d, f)[j].key && f(d[i].value) == Some(Rewrite(d, f)[j].value)
  {
    var n := |d| - 1;
    if j < |Rewrite(d[..n], f)| {
      i := RewriteFrom(d[..n], f, j);
    } else {
      i := n;
    }
  }

  lemma {:induction false} RewriteDistinct(d: Dict<Edge>, f: Edge -> Option<Edge>)
    requires DistinctKeys(d)
    ensures DistinctKeys(Rewrite(d, f))
    ensures forall j :: 0 <= j < |Rewrite(d, f)| ==> HasKey(d, Rewrite(d, f)[j].key)
  {
    if d != [] {
      var n := |d| - 1;
      RewriteDistinct(d[..n], f);
      var r := Rewrite(d[..n], f);
      forall j | 0 <= j < |r| ensures HasKey(d, r[j].key) && r[j].key != d[n].key {
        var i := RewriteFrom(d[..n], f, j);
        assert d[i].key == r[j].key;
      }
    }
  }

  function Redirecting(extra: Id, kept: Id): Edge -> Option<Edge> {
    (e: Edge) => if e.target == extra then None else if e.source == extra then Some(e.(source := kept)) else Some(e)
  }

  function Detaching(id: Id): Edge -> Option<Edge> {
    (e: Edge) => if e.source == id || e.target == id then None else Some(e)
  }

  /** Detaching a node drops exactly the edges that touch it. */
  lemma {:induction false} DetachedAreUntouched(d: Dict<Edge>, id: Id, x: Entry<Edge>)
    ensures x in Rewrite(d, Detaching(id)) <==> x in d && x.value.source != id && x.value.target != id
  {
    if d != [] {
      var n := |d| - 1;
      DetachedAreUntouched(d[..n], id, x);
      assert d == d[..n] + [d[n]];
      assert d[n] == Entry(d[n].key, d[n].value);
    }
  }

  lemma StripSnoc(d: Dict<Edge>, x: Entry<Edge>)
    ensures Strip(Values(d + [x])) == Strip(Values(d)) + [x.value.(id := "")]
  {
  }

  lemma RedirectSnoc(es: seq<Edge>, e: Edge, extra: Id, kept: Id)
    ensures Redirect(es + [e], extra, kept) == Redirect(es, extra, kept)
      + (if e.target == extra then [] else if e.source == extra then [e.(source := kept)] else [e])
  {
    assert (es + [e])[..|es|] == es;
  }

  lemma {:induction false} RewriteRedirects(d: Dict<Edge>, extra: Id, kept: Id)
    ensures Strip(Values(Rewrite(d, Redirecting(extra, kept)))) == Redirect(Strip(Values(d)), extra, kept)
  {
    if d == [] {
      assert Strip(Values(d)) == [];
    } else {
      var n := |d| - 1;
      var x, r := d[n], Rewrite(d[..n], Redirecting(extra, kept));
      RewriteRedirects(d[..n], extra, kept);
      StripSnoc(d[..n], x);
      assert d == d[..n] + [x];
      RedirectSnoc(Strip(Values(d[..n])), x.value.(id := ""), extra, kept);
      StripSnoc(r, Entry(x.key, if x.value.source == extra then x.value.(source := kept) else x.value));
    }
  }

  /** One step of the loop that rewrites entries one by one. */
  lemma RewriteStep(d: Dict<Edge>, f: Edge -> Option<Edge>, i: nat)
    requires i < |d|
    ensures Rewrite(d[..i + 1], f)
         == Rewrite(d[..i], f) + (if f(d[i].value).Some? then [Entry(d[i].key, f(d[i].value).value)] else [])
  {
    assert d[..i + 1][..i] == d[..i];
  }

  /** The dictionary halfway through rewriting still has distinct keys. */
  lemma MixDistinct(d: Dict<Edge>, f: Edge -> Option<Edge>, i: nat)
    requires DistinctKeys(d) && i < |d|
    ensures DistinctKeys(Rewrite(d[..i], f) + [d[i]] + d[i + 1..])
  {
    RewriteDistinct(d[..i], f);
    var r := Rewrite(d[..i], f);
    var mix := r + [d[i]] + d[i + 1..];
    forall a, b | 0 <= a < b < |mix| ensures mix[a].key != mix[b].key {
      if a < |r| <= b {
        var j :| 0 <= j < i && d[..i][j].key == r[a].key;
        assert d[j].key == mix[a].key && mix[b] == d[i + (b - |r|)];
      } else if |r| <= a {
        assert mix[a] == d[i + (a - |r|)] && mix[b] == d[i + (b - |r|)];
      }
    }
  }

  lemma {:induction false} WithoutAbsent(ns: seq<Node>, id: Id)
    requires forall i :: 0 <= i < |ns| ==> ns[i].id != id
    ensures Without(ns, id) == ns
  {
    if ns != [] {
      var k := |ns| - 1;
      assert ns == ns[..k] + [ns[k]];
      WithoutAbsent(ns[..k], id);
    }
  }

  /** Removing the node at position i. */
  lemma {:induction false} WithoutAt(ns: seq<Node>, i: nat)
    requires DistinctIds(ns) && i < |ns|
    ensures Without(ns, ns[i].id) == ns[..i] + ns[i + 1..]
  {
    var k := |ns| - 1;
    assert ns == ns[..k] + [ns[k]];
    if i == k {
      WithoutAbsent(ns[..k], ns[k].id);
    } else {
      WithoutAt(ns[..k], i);
      assert ns[..k][..i] == ns[..i];
      assert ns[..k][i + 1..] + [ns[k]] == ns[i + 1..];
    }
  }

  lemma KeysAround<V>(a: Dict<V>, x: Entry<V>, b: Dict<V>, k: Id)
    ensures HasKey(a + [x] + b, k) <==> x.key == k || HasKey(a + b, k)
  {
    var all, rest := a + [x] + b, a + b;
    assert all[|a|] == x;
    assert forall i :: 0 <= i < |a| ==> all[i] == rest[i];
    assert forall i :: |a| <= i < |rest| ==> all[i + 1] == rest[i];
    if HasKey(all, k) && x.key != k {
      var j :| 0 <= j < |all| && all[j].key == k;
      assert rest[if j < |a| then j else j - 1].key == k;
    }
  }

  lemma DeleteKeys<V>(d: Dict<V>, k: Id, x: Id)
    requires DistinctKeys(d)
    ensures HasKey(Delete(d, k), x) <==> HasKey(d, x) && x != k
  {
    var i := IndexFrom(d, k, 0);
    if i < |d| {
      var rest := d[..i] + d[i + 1..];
      KeysAround(d[..i], d[i], d[i + 1..], x);
      assert d == d[..i] + [d[i]] + d[i + 1..];
      forall j | 0 <= j < |rest| ensures rest[j].key != k {
        assert rest[j] == d[if j < i then j else j + 1];
      }
    }
  }

  lemma DeleteValues(d: Dict<Node>, k: Id)
    requires NodesKeyed(d)
    ensures NodesKeyed(Delete(d, k)) && Values(Delete(d, k)) == Without(Values(d), k)
  {
    var vs := Values(d);
    var i := IndexFrom(d, k, 0);
    if i == |d| {
      WithoutAbsent(vs, k);
    } else {
      assert DistinctIds(vs);
      WithoutAt(vs, i);
      ValuesAround(d, i);
    }
  }

  lemma ValuesAround(d: Dict<Node>, i: nat)
    requires i < |d|
    ensures Values(d[..i] + d[i + 1..]) == Values(d)[..i] + Values(d)[i + 1..]
    ensures NodesKeyed(d) ==> NodesKeyed(d[..i] + d[i + 1..])
  {
    var r := d[..i] + d[i + 1..];
    assert forall j :: 0 <= j < |r| ==> r[j] == d[if j < i then j else j + 1];
  }

  lemma DeleteNode(d: Dict<Node>, k: Id)
    requires NodesKeyed(d)
    ensures NodesKeyed(Delete(d, k)) && Values(Delete(d, k)) == Without(Values(d), k)
    ensures forall x :: HasKey(Delete(d, k), x) <==> HasKey(d, x) && x != k
  {
    DeleteValues(d, k);
    forall x ensures HasKey(Delete(d, k), x) <==> HasKey(d, x) && x != k {
      DeleteKeys(d, k, x);
    }
  }

  lemma PutSame(d: Dict<Node>, n: Node)
    requires NodesKeyed(d) && HasKey(d, n.id)
    ensures NodesKeyed(Put(d, n.id, n))
    ensures forall x :: HasKey(Put(d, n.id, n), x) <==> HasKey(d, x)
    ensures n.kind.Start? ==> Values(Put(d, n.id, n)) == SetVariables(Values(d), n.id, n.kind.inputVariables)
  {
    var r := Put(d, n.id, n);
    forall x ensures HasKey(r, x) <==> HasKey(d, x) {
      if HasKey(d, x) {
        var i :| 0 <= i < |d| && d[i].key == x;
        assert r[i].key == x;
      }
      if HasKey(r, x) {
        var i :| 0 <= i < |r| && r[i].key == x;
        assert d[i].key == x;
      }
    }
  }

  lemma PutNew<V>(d: Dict<V>, k: Id, v: V)
    requires !HasKey(d, k)
    ensures Values(Put(d, k, v)) == Values(d) + [v]
    ensures forall x :: HasKey(Put(d, k, v), x) <==> HasKey(d, x) || x == k
  {
    var r := Put(d, k, v);
    forall x ensures HasKey(r, x) <==> HasKey(d, x) || x == k {
      if HasKey(d, x) {
        var i :| 0 <= i < |d| && d[i].key == x;
        assert r[i].key == x;
      }
      assert r[|d|].key == k;
    }
  }
}
