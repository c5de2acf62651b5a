/**
 * Paths, reachability and acyclicity over a finite set of arcs between node
 * ids. Every graph argument of the project is stated in these terms.
 */
module Digraph {
  type Id = string
  type Arcs = set<(Id, Id)>

  /** A path is a nonempty sequence of ids, each joined to the next by an arc. */
  ghost predicate Path(arcs: Arcs, p: seq<Id>) {
    |p| > 0 && forall i :: 0 <= i < |p| - 1 ==> (p[i], p[i + 1]) in arcs
  }

  ghost predicate Joins(arcs: Arcs, u: Id, v: Id, p: seq<Id>) {
    Path(arcs, p) && p[0] == u && p[|p| - 1] == v
  }

  ghost predicate Reaches(arcs: Arcs, u: Id, v: Id) {
    exists p :: Joins(arcs, u, v, p)
  }

  /** No path with at least one arc returns to where it began. */
  ghost predicate Acyclic(arcs: Arcs) {
    forall p :: Path(arcs, p) && |p| >= 2 ==> p[0] != p[|p| - 1]
  }

  ghost predicate Within(arcs: Arcs, vs: set<Id>) {
    forall a :: a in arcs ==> a.0 in vs && a.1 in vs
  }

  ghost predicate Distinct(p: seq<Id>) {
    forall i, j :: 0 <= i < j < |p| ==> p[i] != p[j]
  }

  lemma PathSlice(arcs: Arcs, p: seq<Id>, i: nat, j: nat)
    requires Path(arcs, p) && i < j <= |p|
    ensures Path(arcs, p[i..j])
  {
    var r := p[i..j];
    forall k | 0 <= k < |r| - 1 ensures (r[k], r[k + 1]) in arcs {
      assert (p[i + k], p[i + k + 1]) in arcs;
    }
  }

  lemma ReachesSelf(arcs: Arcs, u: Id)
    ensures Reaches(arcs, u, u)
  {
    assert Joins(arcs, u, u, [u]);
  }

  lemma ReachesArc(arcs: Arcs, u: Id, v: Id)
    requires (u, v) in arcs
    ensures Reaches(arcs, u, v)
  {
    assert Joins(arcs, u, v, [u, v]);
  }

  /** Paths that meet end to start concatenate. */
  lemma JoinsAppend(arcs: Arcs, u: Id, v: Id, w: Id, p: seq<Id>, q: seq<Id>)
    requires Joins(arcs, u, v, p) && Joins(arcs, v, w, q)
    ensures Joins(arcs, u, w, p + q[1..])
  {
    var r := p + q[1..];
    forall i | 0 <= i < |r| - 1 ensures (r[i], r[i + 1]) in arcs {
      if i < |p| - 1 {
        assert (p[i], p[i + 1]) in arcs;
      } else {
        var j := i - (|p| - 1);
        assert (q[j], q[j + 1]) in arcs;
        assert r[i] == q[j] && r[i + 1] == q[j + 1];
      }
    }
  }

  lemma ReachesTrans(arcs: Arcs, u: Id, v: Id, w: Id)
    requires Reaches(arcs, u, v) && Reaches(arcs, v, w)
    ensures Reaches(arcs, u, w)
  {
    var p :| Joins(arcs, u, v, p);
    var q :| Joins(arcs, v, w, q);
    JoinsAppend(arcs, u, v, w, p, q);
  }

  /** A set closed under arcs holds everything its members reach. */
  lemma {:induction false} JoinsStaysInside(arcs: Arcs, s: set<Id>, u: Id, v: Id, p: seq<Id>)
    requires u in s && Joins(arcs, u, v, p)
    requires forall a :: a in arcs && a.0 in s ==> a.1 in s
    ensures v in s
    decreases |p|
  {
    if |p| > 1 {
      assert (p[0], p[1]) in arcs;
      PathSlice(arcs, p, 1, |p|);
      JoinsStaysInside(arcs, s, p[1], v, p[1..]);
    }
  }

  lemma ReachesStaysInside(arcs: Arcs, s: set<Id>, u: Id, v: Id)
    requires u in s && Reaches(arcs, u, v)
    requires forall a :: a in arcs && a.0 in s ==> a.1 in s
    ensures v in s
  {
    var p :| Joins(arcs, u, v, p);
    JoinsStaysInside(arcs, s, u, v, p);
  }

  /** Every vertex of a path other than a lone one lies among the arcs' ends. */
  lemma PathWithin(arcs: Arcs, vs: set<Id>, p: seq<Id>)
    requires Within(arcs, vs) && Path(arcs, p) && p[0] in vs
    ensures forall i :: 0 <= i < |p| ==> p[i] in vs
  {
    forall i | 0 <= i < |p| ensures p[i] in vs {
      if i > 0 {
        assert (p[i - 1], p[i - 1 + 1]) in arcs;
      }
    }
  }

  /** A repetition-free sequence drawn from a finite set is no longer than it. */
  lemma {:induction false} DistinctBound(p: seq<Id>, vs: set<Id>)
    requires Distinct(p) && forall i :: 0 <= i < |p| ==> p[i] in vs
    ensures |p| <= |vs|
    decreases |p|
  {
    if p != [] {
      var last := p[|p| - 1];
      DistinctBound(p[..|p| - 1], vs - {last});
    }
  }

  /** Cutting out a detour: a joined pair is joined by a repetition-free path. */
  lemma {:induction false} Shorten(arcs: Arcs, u: Id, v: Id, p: seq<Id>) returns (q: seq<Id>)
    requires Joins(arcs, u, v, p)
    ensures Joins(arcs, u, v, q) && Distinct(q)
    decreases |p|
  {
    if Distinct(p) {
      q := p;
    } else {
      var i, j :| 0 <= i < j < |p| && p[i] == p[j];
      var r := p[..i] + p[j..];
      forall k | 0 <= k < |r| - 1 ensures (r[k], r[k + 1]) in arcs {
        if k < i {
          assert (p[k], p[k + 1]) in arcs;
        } else {
          var m := k - i + j;
          assert (p[m], p[m + 1]) in arcs;
        }
      }
      q := Shorten(arcs, u, v, r);
    }
  }

  /** Two vertices joined at all are joined by a path of at most |vs| vertices. */
  lemma ShortPath(arcs: Arcs, vs: set<Id>, u: Id, v: Id, p: seq<Id>) returns (q: seq<Id>)
    requires Within(arcs, vs) && u in vs && Joins(arcs, u, v, p)
    ensures Joins(arcs, u, v, q) && |q| <= |vs|
  {
    q := Shorten(arcs, u, v, p);
    PathWithin(arcs, vs, q);
    DistinctBound(q, vs);
  }

  ghost predicate HasPredecessor(arcs: Arcs, v: Id) {
    exists u :: (u, v) in arcs
  }

  lemma AcyclicDistinct(arcs: Arcs, p: seq<Id>)
    requires Acyclic(arcs) && Path(arcs, p)
    ensures Distinct(p)
  {
    forall i, j | 0 <= i < j < |p| ensures p[i] != p[j] {
      var r := p[i..j + 1];
      PathSlice(arcs, p, i, j + 1);
      assert |r| >= 2;
    }
  }

  /** Walking backwards through an acyclic finite graph ends at a vertex without predecessors. */
  lemma {:induction false} RootOf(arcs: Arcs, vs: set<Id>, v: Id, p: seq<Id>) returns (r: Id)
    requires Acyclic(arcs) && Within(arcs, vs)
    requires Path(arcs, p) && p[0] in vs && p[|p| - 1] == v
    ensures r in vs && !HasPredecessor(arcs, r) && Reaches(arcs, r, v)
    decreases |vs| - |p|
  {
    if HasPredecessor(arcs, p[0]) {
      var u :| (u, p[0]) in arcs;
      var q := [u] + p;
      forall i | 0 <= i < |q| - 1 ensures (q[i], q[i + 1]) in arcs {
        if i > 0 {
          assert (p[i - 1], p[i - 1 + 1]) in arcs;
        }
      }
      AcyclicDistinct(arcs, q);
      PathWithin(arcs, vs, q);
      DistinctBound(q, vs);
      r := RootOf(arcs, vs, v, q);
    } else {
      r := p[0];
      assert Joins(arcs, r, v, p);
    }
  }

  /** Fewer arcs, fewer cycles. */
  lemma AcyclicSubset(arcs: Arcs, more: Arcs)
    requires arcs <= more && Acyclic(more)
    ensures Acyclic(arcs)
  {
    forall p | Path(arcs, p) && |p| >= 2 ensures p[0] != p[|p| - 1] {
      assert Path(more, p);
    }
  }

  /** Changing only arcs out of a vertex nothing enters closes no cycle. */
  lemma AcyclicReroot(was: Arcs, now: Arcs, r: Id)
    requires Acyclic(was)
    requires forall a :: a in now ==> a.1 != r && (a.0 == r || a in was)
    ensures Acyclic(now)
  {
    forall p | Path(now, p) && |p| >= 2 ensures p[0] != p[|p| - 1] {
      forall i | 1 <= i < |p| ensures p[i] != r {
        assert (p[i - 1], p[i - 1 + 1]) in now;
      }
      if p[0] != r {
        forall i | 0 <= i < |p| - 1 ensures (p[i], p[i + 1]) in was {
          assert (p[i], p[i + 1]) in now;
        }
        assert Path(was, p);
      }
    }
  }

  /** Changing only arcs into a vertex nothing leaves closes no cycle. */
  lemma AcyclicResink(was: Arcs, now: Arcs, t: Id)
    requires Acyclic(was)
    requires forall a :: a in now ==> a.0 != t && (a.1 == t || a in was)
    ensures Acyclic(now)
  {
    forall p | Path(now, p) && |p| >= 2 ensures p[0] != p[|p| - 1] {
      forall i | 0 <= i < |p| - 1 ensures p[i] != t {
        assert (p[i], p[i + 1]) in now;
      }
      if p[|p| - 1] != t {
        forall i | 0 <= i < |p| - 1 ensures (p[i], p[i + 1]) in was {
          assert (p[i], p[i + 1]) in now;
          assert i + 1 < |p| - 1 ==> p[i + 1] != t;
        }
        assert Path(was, p);
      }
    }
  }
}
