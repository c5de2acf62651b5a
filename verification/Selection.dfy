/** Lists picked out of another list, in its order. */
module Selection {
  import opened Wrappers

  function Present<T>(o: Option<T>): seq<T> {
    if o.Some? then [o.value] else []
  }

  /** The values from holds, in order. */
  function Collect<T>(from: seq<Option<T>>): seq<T> {
    if from == [] then [] else Collect(from[..|from| - 1]) + Present(from[|from| - 1])
  }

  /** xs are the values at the positions at, which are all positions that hold one, in order. */
  ghost predicate Picks<T(!new)>(from: seq<Option<T>>, xs: seq<T>, at: seq<nat>) {
    && |at| == |xs|
    && (forall k :: 0 <= k < |at| ==> at[k] < |from| && from[at[k]] == Some(xs[k]))
    && (forall j, k :: 0 <= j < k < |at| ==> at[j] < at[k])
    && (forall i :: 0 <= i < |from| && from[i].Some? ==> i in at)
  }

  /** xs are the values from holds, in order. */
  ghost predicate Selected<T(!new)>(from: seq<Option<T>>, xs: seq<T>) {
    exists at :: Picks(from, xs, at)
  }

  lemma SelectedNone<T(!new)>()
    ensures Selected<T>([], [])
  {
    assert Picks<T>([], [], []);
  }

  lemma PicksSkip<T(!new)>(from: seq<Option<T>>, xs: seq<T>, at: seq<nat>)
    requires Picks(from, xs, at)
    ensures Picks(from + [None], xs, at)
  {
    var more := from + [None];
    forall i | 0 <= i < |more| && more[i].Some? ensures i in at {
      assert from[i].Some?;
    }
  }

  lemma PicksNext<T(!new)>(from: seq<Option<T>>, xs: seq<T>, at: seq<nat>, x: T)
    requires Picks(from, xs, at)
    ensures Picks(from + [Some(x)], xs + [x], at + [|from|])
  {
    var more, now: seq<nat> := from + [Some(x)], at + [|from|];
    forall i | 0 <= i < |more| && more[i].Some? ensures i in now {
      if i < |from| {
        assert from[i].Some? && i in at;
      } else {
        assert now[|at|] == i;
      }
    }
  }

  lemma SelectedNext<T(!new)>(from: seq<Option<T>>, xs: seq<T>, o: Option<T>)
    requires Selected(from, xs)
    ensures Selected(from + [o], xs + Present(o))
  {
    var at :| Picks(from, xs, at);
    if o.Some? {
      PicksNext(from, xs, at, o.value);
    } else {
      PicksSkip(from, xs, at);
      assert xs + [] == xs;
    }
  }

  lemma {:induction false} CollectSelects<T(!new)>(from: seq<Option<T>>)
    ensures Selected(from, Collect(from))
  {
    if from == [] {
      SelectedNone<T>();
    } else {
      var k := |from| - 1;
      CollectSelects(from[..k]);
      SelectedNext(from[..k], Collect(from[..k]), from[k]);
      assert from == from[..k] + [from[k]];
    }
  }

  lemma CollectSnoc<T>(from: seq<Option<T>>, o: Option<T>)
    ensures Collect(from + [o]) == Collect(from) + Present(o)
  {
    assert (from + [o])[..|from|] == from;
  }

  /** A list that grows by what is present at each position. */
  lemma {:induction false} Accumulated<T>(lists: seq<seq<T>>, from: seq<Option<T>>)
    requires |lists| == |from| + 1
    requires forall k :: 0 <= k < |from| ==> lists[k + 1] == lists[k] + Present(from[k])
    ensures lists[|from|] == lists[0] + Collect(from)
  {
    if from == [] {
      assert lists[0] + [] == lists[0];
    } else {
      var k := |from| - 1;
      Accumulated(lists[..k + 1], from[..k]);
      assert lists[k + 1] == lists[k] + Present(from[k]);
    }
  }

  lemma Listed<T(!new)>(lists: seq<seq<T>>, from: seq<Option<T>>)
    requires |lists| == |from| + 1 && lists[0] == []
    requires forall k :: 0 <= k < |from| ==> lists[k + 1] == lists[k] + Present(from[k])
    ensures Selected(from, lists[|from|])
  {
    Accumulated(lists, from);
    assert [] + Collect(from) == Collect(from);
    CollectSelects(from);
  }

  function Chosen<T, U>(xs: seq<T>, g: T -> Option<U>): (r: seq<Option<U>>)
    ensures |r| == |xs| && forall i :: 0 <= i < |xs| ==> r[i] == g(xs[i])
  {
    seq(|xs|, i requires 0 <= i < |xs| => g(xs[i]))
  }

  lemma ChosenSnoc<T, U>(xs: seq<T>, x: T, g: T -> Option<U>)
    ensures Chosen(xs + [x], g) == Chosen(xs, g) + [g(x)]
  {
  }

  function Both<T, U, V>(g: T -> Option<U>, h: U -> Option<V>): T -> Option<V> {
    (x: T) => if g(x).Some? then h(g(x).value) else None
  }

  /** Choosing among what was chosen is choosing once. */
  lemma {:induction false} ChosenTwice<T, U, V>(xs: seq<T>, g: T -> Option<U>, h: U -> Option<V>)
    ensures Collect(Chosen(Collect(Chosen(xs, g)), h)) == Collect(Chosen(xs, Both(g, h)))
  {
    if xs != [] {
      var x, before := xs[|xs| - 1], xs[..|xs| - 1];
      ChosenTwice(before, g, h);
      assert xs == before + [x];
      ChosenSnoc(before, x, g);
      ChosenSnoc(before, x, Both(g, h));
      CollectSnoc(Chosen(before, g), g(x));
      CollectSnoc(Chosen(before, Both(g, h)), Both(g, h)(x));
      var left := Collect(Chosen(before, g));
      if g(x).Some? {
        ChosenSnoc(left, g(x).value, h);
        CollectSnoc(Chosen(left, h), h(g(x).value));
      } else {
        assert left + [] == left && Collect(Chosen(left, h)) + [] == Collect(Chosen(left, h));
      }
    }
  }
}
