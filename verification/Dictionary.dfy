/** Insertion-ordered dictionaries: rebinding a key keeps its place. */
module Dictionary {
  import opened Digraph

  datatype Entry<V> = Entry(key: Id, value: V)

  type Dict<V> = seq<Entry<V>>

  predicate HasKey<V>(d: Dict<V>, k: Id) {
    exists i :: 0 <= i < |d| && d[i].key == k
  }

  ghost predicate DistinctKeys<V>(d: Dict<V>) {
    forall i, j :: 0 <= i < j < |d| ==> d[i].key != d[j].key
  }

  function Values<V>(d: Dict<V>): (r: seq<V>)
    ensures |r| == |d| && forall i :: 0 <= i < |d| ==> r[i] == d[i].value
  {
    seq(|d|, i requires 0 <= i < |d| => d[i].value)
  }

  function Put<V>(d: Dict<V>, k: Id, v: V): (r: Dict<V>)
    ensures HasKey(d, k) ==> (
              && |r| == |d|
              && forall i :: 0 <= i < |d| ==> r[i] == if d[i].key == k then Entry(k, v) else d[i])
    ensures !HasKey(d, k) ==> r == d + [Entry(k, v)]
    ensures DistinctKeys(d) ==> DistinctKeys(r)
  {
    if HasKey(d, k) then seq(|d|, i requires 0 <= i < |d| => if d[i].key == k then Entry(k, v) else d[i])
    else d + [Entry(k, v)]
  }

  function IndexFrom<V>(d: Dict<V>, k: Id, i: nat): (r: nat)
    requires i <= |d|
    ensures i <= r <= |d| && (r < |d| ==> d[r].key == k)
    ensures forall j :: i <= j < r ==> d[j].key != k
    decreases |d| - i
  {
    if i == |d| || d[i].key == k then i else IndexFrom(d, k, i + 1)
  }

  function Delete<V>(d: Dict<V>, k: Id): (r: Dict<V>)
    ensures DistinctKeys(d) ==> DistinctKeys(r)
    ensures !HasKey(d, k) ==> r == d
    ensures forall j :: 0 <= j < |r| ==> r[j] in d
  {
    var i := IndexFrom(d, k, 0);
    if i == |d| then d else d[..i] + d[i + 1..]
  }

  /** Deleting or rebinding the entry between a and b. */
  lemma AtEntry<V>(a: Dict<V>, x: Entry<V>, b: Dict<V>, v: V)
    requires DistinctKeys(a + [x] + b)
    ensures Delete(a + [x] + b, x.key) == a + b
    ensures Put(a + [x] + b, x.key, v) == a + [Entry(x.key, v)] + b
  {
    var d := a + [x] + b;
    assert d[|a|] == x;
    assert IndexFrom(d, x.key, 0) == |a|;
    assert d[..|a|] == a && d[|a| + 1..] == b;
  }

  /** An id no key has. */
  method FreshKey(keys: set<Id>, base: Id) returns (k: Id)
    ensures k !in keys
    ensures base !in keys ==> k == base
  {
    k := base;
    ghost var longer := set x | x in keys && |x| >= |k|;
    while k in keys
      invariant longer == set x | x in keys && |x| >= |k|
      invariant base !in keys ==> k == base
      decreases |longer|
    {
      ghost var before := longer;
      assert k in before;
      k := k + "-";
      longer := set x | x in keys && |x| >= |k|;
      assert longer < before;
      SmallerSet(longer, before);
    }
  }

  lemma SmallerSet(a: set<Id>, b: set<Id>)
    requires a < b
    ensures |a| < |b|
  {
    assert b == a + (b - a) && b - a != {};
    assert |b| == |a| + |b - a|;
  }
}
