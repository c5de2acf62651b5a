/**
 * The compiled graph runs in supersteps: all nodes triggered by one step fire
 * together in the next. This gives an exact account of when two nodes can both
 * fire, against which the validator's label test is measured.
 */
module Supersteps {
  import opened Digraph
  import opened Workflows
  import opened Compile

  /** What a conditional's router reads when its node fires in a given step. */
  type Moments = (nat, Id) -> Moment

  /** A conditional's edges are usable if its router can answer their branch. */
  predicate Usable(nodes: seq<Node>, e: Edge) {
    && Executable(nodes, e.source) && Executable(nodes, e.target)
    && (Conditional(Lookup(nodes, e.source).value.kind) ==>
          e.branch.Some? && Feasible(Lookup(nodes, e.source).value.kind, e.branch.value))
  }

  /** Edge e is taken when its source fires in step k. */
  ghost predicate Taken(nodes: seq<Node>, e: Edge, ms: Moments, k: nat) {
    && Usable(nodes, e)
    && (Conditional(Lookup(nodes, e.source).value.kind) ==>
          e.branch == Answer(Lookup(nodes, e.source).value, ms(k, e.source)))
  }

  /** Nodes firing in step k. */
  ghost function Active(nodes: seq<Node>, edges: seq<Edge>, start: Id, ms: Moments, k: nat): set<Id> {
    if k == 0 then {start}
    else set e | e in edges && e.source in Active(nodes, edges, start, ms, k - 1) && Taken(nodes, e, ms, k - 1)
      :: e.target
  }

  ghost function Tip(start: Id, w: seq<Edge>): Id {
    if w == [] then start else w[|w| - 1].target
  }

  /** A walk of usable edges from Start. */
  ghost predicate EdgeWalk(nodes: seq<Node>, edges: seq<Edge>, start: Id, w: seq<Edge>) {
    w == [] || (
      var k := |w| - 1;
      && EdgeWalk(nodes, edges, start, w[..k])
      && w[k] in edges && Usable(nodes, w[k])
      && w[k].source == Tip(start, w[..k]))
  }

  ghost predicate Follows(nodes: seq<Node>, w: seq<Edge>, ms: Moments) {
    forall k :: 0 <= k < |w| ==> Taken(nodes, w[k], ms, k)
  }

  /** Both walks visit the same conditional in the same step but leave by different branches. */
  ghost predicate Clash(nodes: seq<Node>, p: seq<Edge>, q: seq<Edge>) {
    exists k :: && 0 <= k < |p| && k < |q| && p[k].source == q[k].source
                && IsKnown(nodes, p[k].source)
                && Conditional(Lookup(nodes, p[k].source).value.kind)
                && p[k].branch != q[k].branch
  }

  /** A firing in step k is the end of a walk of k edges the routers followed. */
  lemma {:induction false} ActiveHasWalk(nodes: seq<Node>, edges: seq<Edge>, start: Id, ms: Moments, k: nat, v: Id)
    returns (w: seq<Edge>)
    requires v in Active(nodes, edges, start, ms, k)
    ensures EdgeWalk(nodes, edges, start, w) && |w| == k && Tip(start, w) == v && Follows(nodes, w, ms)
  {
    if k == 0 {
      w := [];
    } else {
      var e :| e in edges && e.source in Active(nodes, edges, start, ms, k - 1) && Taken(nodes, e, ms, k - 1)
        && e.target == v;
      var u := ActiveHasWalk(nodes, edges, start, ms, k - 1, e.source);
      w := u + [e];
      assert w[..|w| - 1] == u;
    }
  }

  lemma {:induction false} WalkActive(nodes: seq<Node>, edges: seq<Edge>, start: Id, ms: Moments, w: seq<Edge>)
    requires EdgeWalk(nodes, edges, start, w) && Follows(nodes, w, ms)
    ensures Tip(start, w) in Active(nodes, edges, start, ms, |w|)
  {
    if w != [] {
      var k := |w| - 1;
      WalkActive(nodes, edges, start, ms, w[..k]);
      assert Taken(nodes, w[k], ms, k);
    }
  }

  function NodeAt(nodes: seq<Node>, id: Id): Node {
    if IsKnown(nodes, id) then Lookup(nodes, id).value else Node(id, Note)
  }

  /** Moments that steer routers along p, and along q wherever p has nothing to say. */
  ghost function Steer(nodes: seq<Node>, p: seq<Edge>, q: seq<Edge>): Moments {
    (k: nat, s: Id) =>
      if k < |p| && p[k].source == s && p[k].branch.Some? then MomentFor(NodeAt(nodes, s), p[k].branch.value)
      else if k < |q| && q[k].source == s && q[k].branch.Some? then MomentFor(NodeAt(nodes, s), q[k].branch.value)
      else MomentFor(NodeAt(nodes, s), "")
  }

  lemma {:induction false} WalkUsable(nodes: seq<Node>, edges: seq<Edge>, start: Id, w: seq<Edge>, k: nat)
    requires EdgeWalk(nodes, edges, start, w) && k < |w|
    ensures Usable(nodes, w[k])
  {
    if k < |w| - 1 {
      WalkUsable(nodes, edges, start, w[..|w| - 1], k);
    }
  }

  lemma SteeredTo(nodes: seq<Node>, e: Edge)
    requires Usable(nodes, e)
    ensures var n := NodeAt(nodes, e.source);
      Conditional(n.kind) ==> Answer(n, MomentFor(n, e.branch.value)) == e.branch
  {
    var n := NodeAt(nodes, e.source);
    if Conditional(n.kind) {
      AnswersFeasible(n, e.branch.value);
    }
  }

  lemma SteerFollowed(nodes: seq<Node>, edges: seq<Edge>, start: Id, p: seq<Edge>, q: seq<Edge>)
    requires EdgeWalk(nodes, edges, start, p) && EdgeWalk(nodes, edges, start, q) && !Clash(nodes, p, q)
    ensures Follows(nodes, p, Steer(nodes, p, q)) && Follows(nodes, q, Steer(nodes, p, q))
  {
    forall k | 0 <= k < |p| ensures Taken(nodes, p[k], Steer(nodes, p, q), k) {
      WalkUsable(nodes, edges, start, p, k);
      SteeredTo(nodes, p[k]);
    }
    forall k | 0 <= k < |q| ensures Taken(nodes, q[k], Steer(nodes, p, q), k) {
      WalkUsable(nodes, edges, start, q, k);
      SteeredTo(nodes, q[k]);
    }
  }

  /** Some routing makes a and b fire in one run. */
  ghost predicate CanBothFire(nodes: seq<Node>, edges: seq<Edge>, start: Id, a: Id, b: Id) {
    exists ms, i, j :: BothFire(nodes, edges, start, ms, a, b, i, j)
  }

  ghost predicate BothFire(nodes: seq<Node>, edges: seq<Edge>, start: Id, ms: Moments, a: Id, b: Id, i: nat, j: nat) {
    a in Active(nodes, edges, start, ms, i) && b in Active(nodes, edges, start, ms, j)
  }

  ghost predicate ClashFree(nodes: seq<Node>, edges: seq<Edge>, start: Id, a: Id, b: Id, p: seq<Edge>, q: seq<Edge>) {
    && EdgeWalk(nodes, edges, start, p) && Tip(start, p) == a
    && EdgeWalk(nodes, edges, start, q) && Tip(start, q) == b
    && !Clash(nodes, p, q)
  }

  /**
   * Exact account: two nodes can fire in one run if and only if walks from
   * Start lead to them that never make one conditional choose two branches in
   * the same step.
   */
  lemma BothFireIffClashFree(nodes: seq<Node>, edges: seq<Edge>, start: Id, a: Id, b: Id)
    ensures CanBothFire(nodes, edges, start, a, b) <==> exists p, q :: ClashFree(nodes, edges, start, a, b, p, q)
  {
    if CanBothFire(nodes, edges, start, a, b) {
      var ms, i, j :| BothFire(nodes, edges, start, ms, a, b, i, j);
      var p := ActiveHasWalk(nodes, edges, start, ms, i, a);
      var q := ActiveHasWalk(nodes, edges, start, ms, j, b);
      assert ClashFree(nodes, edges, start, a, b, p, q);
    }
    if exists p, q :: ClashFree(nodes, edges, start, a, b, p, q) {
      var p, q :| ClashFree(nodes, edges, start, a, b, p, q);
      SteerFollowed(nodes, edges, start, p, q);
      WalkActive(nodes, edges, start, Steer(nodes, p, q), p);
      WalkActive(nodes, edges, start, Steer(nodes, p, q), q);
      assert BothFire(nodes, edges, start, Steer(nodes, p, q), a, b, |p|, |q|);
    }
  }
}
