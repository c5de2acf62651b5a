/** Values, dotted paths and walking a path through nested dictionaries. */
module Paths {
  import opened Dictionary

  /** What a variable can hold; a scalar stands for a number or a boolean. */
  datatype Value =
    | Null
    | Text(text: string)
    | Scalar(n: int)
    | List(items: seq<Value>)
    | Record(entries: Dict<Value>)

  datatype State = State(variables: Dict<Value>, nodeResults: Dict<Value>)

  /** The characters strip removes. */
  predicate IsSpace(c: char) {
    || '\U{09}' <= c <= '\U{0D}' || '\U{1C}' <= c <= '\U{20}' || c == '\U{85}' || c == '\U{A0}' || c == '\U{1680}'
    || '\U{2000}' <= c <= '\U{200A}' || c == '\U{2028}' || c == '\U{2029}' || c == '\U{202F}' || c == '\U{205F}'
    || c == '\U{3000}'
  }

  function Strip(s: string): string {
    if s != "" && IsSpace(s[0]) then Strip(s[1..])
    else if s != "" && IsSpace(s[|s| - 1]) then Strip(s[..|s| - 1])
    else s
  }

  ghost predicate AllSpace(s: string) {
    forall c :: c in s ==> IsSpace(c)
  }

  ghost predicate Bare(s: string) {
    s != "" && !IsSpace(s[0]) && !IsSpace(s[|s| - 1])
  }

  lemma {:induction false} StripRight(s: string, right: string)
    requires AllSpace(right) && Bare(s)
    ensures Strip(s + right) == s
  {
    var t := s + right;
    if right == "" {
      assert t == s;
    } else {
      var shorter := right[..|right| - 1];
      StripRight(s, shorter);
      assert t[0] == s[0] && t[|t| - 1] == right[|right| - 1];
      assert t[..|t| - 1] == s + shorter;
    }
  }

  lemma {:induction false} StripPadding(left: string, s: string, right: string)
    requires AllSpace(left) && AllSpace(right) && Bare(s)
    ensures Strip(left + s + right) == s
    decreases |left| + |right|
  {
    if left != "" {
      StripPadding(left[1..], s, right);
      var t := left + s + right;
      assert t[0] == left[0] && t[1..] == left[1..] + s + right;
    } else {
      StripRight(s, right);
      assert left + s + right == s + right;
    }
  }

  /** The code points strip removes. */
  lemma SpacesAre(c: char)
    ensures IsSpace(c) <==>
            c as int in {
              0x09, 0x0A, 0x0B, 0x0C, 0x0D, 0x1C, 0x1D, 0x1E, 0x1F, 0x20, 0x85, 0xA0, 0x1680,
              0x2000, 0x2001, 0x2002, 0x2003, 0x2004, 0x2005, 0x2006, 0x2007, 0x2008, 0x2009, 0x200A,
              0x2028, 0x2029, 0x202F, 0x205F, 0x3000}
  {
  }

  /** Strip takes white space off both ends until neither end has any. */
  lemma {:induction false} StripTakesSpace(s: string) returns (left: string, right: string)
    ensures s == left + Strip(s) + right && AllSpace(left) && AllSpace(right)
    ensures Strip(s) == "" || Bare(Strip(s))
  {
    left, right := "", "";
    if s != "" && IsSpace(s[0]) {
      left, right := StripTakesSpace(s[1..]);
      assert s == [s[0]] + s[1..];
      Shifted([s[0]], left, Strip(s), right);
      left := [s[0]] + left;
    } else if s != "" && IsSpace(s[|s| - 1]) {
      var most, last := s[..|s| - 1], [s[|s| - 1]];
      left, right := StripTakesSpace(most);
      assert s == most + last;
      Appended(left, Strip(s), right, last);
      right := right + last;
    }
  }

  lemma Shifted(x: string, a: string, b: string, c: string)
    ensures x + (a + b + c) == (x + a) + b + c
  {
  }

  lemma Appended(a: string, b: string, c: string, x: string)
    ensures a + b + c + x == a + b + (c + x)
  {
  }

  /** split(".") */
  function Split(s: string): (r: seq<string>)
    ensures |r| >= 1
  {
    if s == "" then [""]
    else
      var rest := Split(s[1..]);
      if s[0] == '.' then [""] + rest else [[s[0]] + rest[0]] + rest[1..]
  }

  function Join(segments: seq<string>): string
    requires segments != []
  {
    if |segments| == 1 then segments[0] else segments[0] + "." + Join(segments[1..])
  }

  ghost predicate Undotted(s: string) {
    '.' !in s
  }

  lemma {:induction false} SplitPrefix(a: string, s: string)
    requires Undotted(a)
    ensures Split(a + s) == [a + Split(s)[0]] + Split(s)[1..]
  {
    if a == "" {
      assert a + s == s && a + Split(s)[0] == Split(s)[0];
    } else {
      var t := a + s;
      SplitPrefix(a[1..], s);
      assert t[0] == a[0] && t[1..] == a[1..] + s;
      assert [a[0]] + (a[1..] + Split(s)[0]) == a + Split(s)[0];
    }
  }

  lemma {:induction false} SplitJoin(segments: seq<string>)
    requires segments != [] && forall i :: 0 <= i < |segments| ==> Undotted(segments[i])
    ensures Split(Join(segments)) == segments
  {
    var head := segments[0];
    if |segments| == 1 {
      SplitPrefix(head, "");
      assert head + "" == head;
    } else {
      var rest := "." + Join(segments[1..]);
      SplitJoin(segments[1..]);
      assert rest[1..] == Join(segments[1..]);
      assert Split(rest) == [""] + segments[1..];
      SplitPrefix(head, rest);
      assert Join(segments) == head + rest;
      assert head + "" == head;
    }
  }

  lemma {:induction false} JoinSplit(s: string)
    ensures Join(Split(s)) == s
    ensures forall i :: 0 <= i < |Split(s)| ==> Undotted(Split(s)[i])
  {
    if s != "" {
      var rest := Split(s[1..]);
      JoinSplit(s[1..]);
      if s[0] == '.' {
        assert Split(s)[1..] == rest;
        assert Join(Split(s)) == "." + s[1..];
      } else {
        var r := Split(s);
        assert r[1..] == rest[1..];
        assert Join(r) == [s[0]] + Join(rest);
      }
    }
  }

  /** The segments of a path are the one way to write it as segments joined by dots. */
  lemma SplitIff(path: string, segments: seq<string>)
    requires segments != []
    ensures Split(path) == segments <==>
            Join(segments) == path && forall i :: 0 <= i < |segments| ==> Undotted(segments[i])
  {
    JoinSplit(path);
    if forall i :: 0 <= i < |segments| ==> Undotted(segments[i]) {
      SplitJoin(segments);
    }
  }

  const UNSAFE: set<string> := {
    "__proto__", "constructor", "prototype", "__class__", "__dict__", "__globals__", "__builtins__", "__subclasses__"
  }

  predicate Safe(segment: string) {
    segment !in UNSAFE
  }

  /** Dictionary get: Null when the key is missing. */
  function Get(d: Dict<Value>, k: string): Value {
    var i := IndexFrom(d, k, 0);
    if i == |d| then Null else d[i].value
  }

  function Walk(root: Value, segments: seq<string>): Value {
    if segments == [] then root
    else if !Safe(segments[0]) || !root.Record? || Get(root.entries, segments[0]).Null? then Null
    else Walk(Get(root.entries, segments[0]), segments[1..])
  }

  lemma {:induction false} WalkPrefix(root: Value, a: seq<string>, b: seq<string>)
    ensures Walk(root, a + b) == if Walk(root, a).Null? && a != [] then Null else Walk(Walk(root, a), b)
  {
    if a == [] {
      assert a + b == b;
    } else {
      assert (a + b)[0] == a[0] && (a + b)[1..] == a[1..] + b;
      if Safe(a[0]) && root.Record? && !Get(root.entries, a[0]).Null? {
        WalkPrefix(Get(root.entries, a[0]), a[1..], b);
      }
    }
  }

  method WalkPath(root: Value, segments: seq<string>) returns (current: Value)
    ensures current == Walk(root, segments)
  {
    current := root;
    for i := 0 to |segments|
      invariant current == Walk(root, segments[..i])
      invariant i > 0 ==> !current.Null?
    {
      WalkPrefix(root, segments[..i], segments[i..]);
      assert segments == segments[..i] + segments[i..];
      WalkPrefix(root, segments[..i], [segments[i]]);
      assert segments[..i + 1] == segments[..i] + [segments[i]];
      if !Safe(segments[i]) {
        return Null;
      }
      if !current.Record? {
        return Null;
      }
      current := Get(current.entries, segments[i]);
      if current.Null? {
        return Null;
      }
    }
    assert segments[..|segments|] == segments;
  }

  /** The values met on the way: each a dictionary that binds its safe segment to the next, which is not Null. */
  ghost predicate Chain(c: seq<Value>, segments: seq<string>) {
    && |c| == |segments| + 1
    && forall i :: 0 <= i < |segments| ==> Link(c[i], segments[i], c[i + 1])
  }

  ghost predicate Link(a: Value, segment: string, b: Value) {
    Safe(segment) && a.Record? && b == Get(a.entries, segment) && !b.Null?
  }

  /** A walk ends in a value exactly when a chain of dictionaries leads there. */
  lemma {:induction false} WalkIsChain(root: Value, segments: seq<string>, v: Value)
    requires !root.Null? && !v.Null?
    ensures Walk(root, segments) == v <==> exists c :: Chain(c, segments) && c[0] == root && c[|segments|] == v
  {
    forall c | Chain(c, segments) && segments != [] ensures Link(c[0], segments[0], c[1]) {
    }
    if segments == [] {
      assert Chain([root], segments);
    } else if root.Record? && Link(root, segments[0], Get(root.entries, segments[0])) {
      var next := Get(root.entries, segments[0]);
      WalkIsChain(next, segments[1..], v);
      if Walk(next, segments[1..]) == v {
        var c :| Chain(c, segments[1..]) && c[0] == next && c[|segments| - 1] == v;
        ChainCons(root, c, segments);
        assert Chain([root] + c, segments);
      }
      if c :| Chain(c, segments) && c[0] == root && c[|segments|] == v {
        ChainTail(c, segments);
        assert Chain(c[1..], segments[1..]);
      }
    }
  }

  lemma ChainCons(a: Value, c: seq<Value>, segments: seq<string>)
    requires segments != [] && Chain(c, segments[1..]) && Link(a, segments[0], c[0])
    ensures Chain([a] + c, segments)
  {
    forall i | 0 <= i < |segments| ensures Link(([a] + c)[i], segments[i], ([a] + c)[i + 1]) {
      if i > 0 {
        assert Link(c[i - 1], segments[1..][i - 1], c[i]);
      }
    }
  }

  lemma ChainTail(c: seq<Value>, segments: seq<string>)
    requires segments != [] && Chain(c, segments)
    ensures Chain(c[1..], segments[1..])
  {
    forall i | 0 <= i < |segments| - 1 ensures Link(c[1..][i], segments[1..][i], c[1..][i + 1]) {
      assert Link(c[i + 1], segments[i + 1], c[i + 2]);
    }
  }

  /** The value _resolve looks up: Null on every miss. */
  function ValueOf(segments: seq<string>, st: State): Value
    requires segments != []
  {
    if segments[0] == "state" then
      if |segments| < 3 then Null
      else if segments[1] == "variables" then Walk(Record(st.variables), segments[2..])
      else if segments[1] == "nodeResults" then Walk(Record(st.nodeResults), segments[2..])
      else Null
    else Walk(Record(st.variables), segments)
  }

  // What a path means, by chains alone.

  /** A dictionary gives the value its first entry of that key holds. */
  lemma GetReads(d: Dict<Value>, i: nat)
    requires i < |d| && forall j :: 0 <= j < i ==> d[j].key != d[i].key
    ensures Get(d, d[i].key) == d[i].value
  {
  }

  lemma GetMisses(d: Dict<Value>, k: string)
    ensures !HasKey(d, k) ==> Get(d, k).Null?
  {
  }

  /** A chain of dictionaries leads from the root over the segments to v. */
  ghost predicate Leads(root: Dict<Value>, segments: seq<string>, v: Value) {
    exists c :: Chain(c, segments) && c[0] == Record(root) && c[|segments|] == v
  }

  /**
   * state.variables and state.nodeResults lead on from the variables and the node results; no other
   * path under state leads anywhere; every other path leads from the variables.
   */
  ghost predicate LedTo(segments: seq<string>, st: State, v: Value)
    requires segments != []
  {
    || (segments[0] != "state" && Leads(st.variables, segments, v))
    || (|segments| >= 3 && segments[..2] == ["state", "variables"] && Leads(st.variables, segments[2..], v))
    || (|segments| >= 3 && segments[..2] == ["state", "nodeResults"] && Leads(st.nodeResults, segments[2..], v))
  }

  lemma LeadsIff(root: Dict<Value>, segments: seq<string>, v: Value)
    requires segments != []
    ensures Leads(root, segments, v) <==> !v.Null? && Walk(Record(root), segments) == v
  {
    if v.Null? {
      forall c: seq<Value> | Chain(c, segments) ensures !c[|segments|].Null? {
        assert Link(c[|segments| - 1], segments[|segments| - 1], c[|segments| - 1 + 1]);
      }
    } else {
      WalkIsChain(Record(root), segments, v);
    }
  }

  /** The looked-up value is the one the path leads to; Null if it leads nowhere. */
  lemma ValueIsLedTo(segments: seq<string>, st: State, v: Value)
    requires segments != []
    ensures LedTo(segments, st, v) <==> !v.Null? && ValueOf(segments, st) == v
  {
    LeadsIff(st.variables, segments, v);
    if |segments| >= 3 {
      LeadsIff(st.variables, segments[2..], v);
      LeadsIff(st.nodeResults, segments[2..], v);
      assert segments[..2] == [segments[0], segments[1]];
    }
  }

  /** The segments no walk passes. */
  lemma SafeIff(segment: string)
    ensures Safe(segment) <==>
            && segment != "__proto__" && segment != "constructor" && segment != "prototype"
            && segment != "__class__" && segment != "__dict__" && segment != "__globals__"
            && segment != "__builtins__" && segment != "__subclasses__"
  {
  }
}
