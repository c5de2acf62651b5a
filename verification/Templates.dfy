/** Template substitution over value trees, against the listing of their references. */
module Templates {
  import opened Dictionary
  import opened Placeholders
  import opened Paths

  /** How a looked-up value is written: the placeholder itself if there is none. */
  function Written(path: string, v: Value, dumps: Value -> string): string {
    if v.Null? then Braced(path) else if v.Text? then v.text else dumps(v)
  }

  /** The text a path renders to. */
  function Resolve(path: string, st: State, dumps: Value -> string): string {
    Written(path, ValueOf(Split(path), st), dumps)
  }

  /** The segments that splitting the path gives. */
  ghost predicate Spells(segments: seq<string>, path: string) {
    segments != [] && Join(segments) == path && forall i :: 0 <= i < |segments| ==> Undotted(segments[i])
  }

  /** A path resolves to what the segments that spell it lead to. */
  lemma ResolveReads(path: string, segments: seq<string>, st: State, dumps: Value -> string)
    requires Spells(segments, path)
    ensures Resolve(path, st, dumps) == Written(path, ValueOf(segments, st), dumps)
  {
    SplitIff(path, segments);
  }

  /** A path that leads to a text is replaced by it, one that leads to another value by what dumps makes of it. */
  lemma ResolvesTo(path: string, segments: seq<string>, st: State, dumps: Value -> string, v: Value)
    requires Spells(segments, path) && LedTo(segments, st, v)
    ensures Resolve(path, st, dumps) == if v.Text? then v.text else dumps(v)
  {
    ValueIsLedTo(segments, st, v);
    ResolveReads(path, segments, st, dumps);
  }

  /** A path that leads nowhere is replaced by its own placeholder. */
  lemma ResolvesToItself(path: string, segments: seq<string>, st: State, dumps: Value -> string)
    requires Spells(segments, path) && forall v :: !LedTo(segments, st, v)
    ensures Resolve(path, st, dumps) == "{{" + path + "}}"
  {
    ValueIsLedTo(segments, st, ValueOf(segments, st));
    ResolveReads(path, segments, st, dumps);
  }

  function Substitute(s: string, resolve: string -> string): string {
    Replace(false, s, body => resolve(Strip(body)))
  }

  /** Strings are substituted, keys kept, lists and dictionaries entered, anything else returned unchanged. */
  function SubstituteInValue(v: Value, resolve: string -> string): Value {
    match v
    case Text(s) => Text(Substitute(s, resolve))
    case Record(es) =>
      Record(seq(|es|, i requires 0 <= i < |es| => Entry(es[i].key, SubstituteInValue(es[i].value, resolve))))
    case List(xs) => List(seq(|xs|, i requires 0 <= i < |xs| => SubstituteInValue(xs[i], resolve)))
    case _ => v
  }

  /** The parts both traversals enter, in order. */
  function Children(v: Value): seq<Value> {
    match v
    case List(xs) => xs
    case Record(es) => Values(es)
    case _ => []
  }

  lemma ChildIsSmaller(v: Value, i: nat)
    requires i < |Children(v)|
    ensures Children(v)[i] < v
  {
    if v.Record? {
      assert v.entries[i] < v;
    }
  }

  function Stripped(bodies: seq<string>): (r: seq<string>)
    ensures |r| == |bodies|
  {
    Apply(body => Strip(body), bodies)
  }

  /** The references of a tree: for a text the stripped bodies, else those of the children one after another. */
  ghost function References(v: Value): seq<string>
    decreases v, 0
  {
    if v.Text? then Stripped(Bodies(false, v.text)) else ReferencesUpTo(v, |Children(v)|)
  }

  ghost function ReferencesUpTo(v: Value, n: nat): seq<string>
    requires n <= |Children(v)| && !v.Text?
    decreases v, 0, n
  {
    if n == 0 then []
    else
      ChildIsSmaller(v, n - 1);
      ReferencesUpTo(v, n - 1) + References(Children(v)[n - 1])
  }

  /** The references of a text are the stripped bodies of its leftmost placeholders. */
  lemma ReferencesOfText(s: string, ms: seq<Span>)
    requires Leftmost(false, s, ms)
    ensures |References(Text(s))| == |ms|
    ensures forall k :: 0 <= k < |ms| ==>
              ms[k].open + 2 <= ms[k].close <= |s| && References(Text(s))[k] == Strip(Body(s, ms[k]))
  {
    BodiesAreLeftmost(false, s, ms);
  }

  method ExtractReferences(v: Value) returns (refs: seq<string>)
    ensures refs == References(v)
    decreases v
  {
    refs := [];
    match v {
      case Text(s) =>
        refs := refs + Stripped(Bodies(false, s));
      case Record(es) =>
        for i := 0 to |es|
          invariant refs == ReferencesUpTo(v, i)
        {
          ChildIsSmaller(v, i);
          assert Children(v)[i] == es[i].value;
          var more := ExtractReferences(es[i].value);
          refs := refs + more;
        }
      case List(xs) =>
        for i := 0 to |xs|
          invariant refs == ReferencesUpTo(v, i)
        {
          var more := ExtractReferences(xs[i]);
          refs := refs + more;
        }
      case _ =>
    }
  }

  /** A value tree whose texts have holes for the references. */
  datatype Shape =
    | Fixed(value: Value)
    | Holes(literals: seq<string>)
    | ListOf(items: seq<Shape>)
    | RecordOf(keys: seq<string>, items: seq<Shape>)

  function Skeleton(v: Value): Shape {
    match v
    case Text(s) => Holes(Literals(false, s))
    case Record(es) =>
      RecordOf(
        seq(|es|, i requires 0 <= i < |es| => es[i].key),
        seq(|es|, i requires 0 <= i < |es| => Skeleton(es[i].value)))
    case List(xs) => ListOf(seq(|xs|, i requires 0 <= i < |xs| => Skeleton(xs[i])))
    case _ => Fixed(v)
  }

  function Parts(shape: Shape): seq<Shape> {
    match shape
    case ListOf(items) => items
    case RecordOf(_, items) => items
    case _ => []
  }

  /** How many texts fill a shape. */
  ghost function Needs(shape: Shape): nat
    decreases shape, 1, 0
  {
    if shape.Fixed? then 0
    else if shape.Holes? then if shape.literals == [] then 0 else |shape.literals| - 1
    else NeedsUpTo(shape, |Parts(shape)|)
  }

  ghost function NeedsUpTo(shape: Shape, n: nat): nat
    requires n <= |Parts(shape)|
    decreases shape, 0, n
  {
    if n == 0 then 0 else NeedsUpTo(shape, n - 1) + Needs(Parts(shape)[n - 1])
  }

  lemma {:induction false} NeedsGrow(shape: Shape, m: nat, n: nat)
    requires m <= n <= |Parts(shape)|
    ensures NeedsUpTo(shape, m) <= NeedsUpTo(shape, n)
  {
    if m < n {
      NeedsGrow(shape, m, n - 1);
    }
  }

  /** The fillings of part i. */
  ghost function Portion(shape: Shape, i: nat, fillings: seq<string>): (r: seq<string>)
    requires i < |Parts(shape)| && |fillings| == Needs(shape)
    ensures |r| == Needs(Parts(shape)[i])
    decreases shape, 2, 0
  {
    NeedsGrow(shape, i + 1, |Parts(shape)|);
    fillings[NeedsUpTo(shape, i)..NeedsUpTo(shape, i + 1)]
  }

  /** The value a shape becomes when its holes take these texts in order; no filling is looked at. */
  ghost function Fill(shape: Shape, fillings: seq<string>): Value
    requires |fillings| == Needs(shape)
    decreases shape, 3, 0
  {
    match shape
    case Fixed(w) => w
    case Holes(literals) => if literals == [] then Text("") else Text(Interleave(literals, fillings))
    case ListOf(items) =>
      List(seq(|items|, i requires 0 <= i < |items| => Fill(items[i], Portion(shape, i, fillings))))
    case RecordOf(keys, items) =>
      Record(seq(|items|, i requires 0 <= i < |items| =>
          Entry(if i < |keys| then keys[i] else "", Fill(items[i], Portion(shape, i, fillings)))))
  }

  /** Part by part, shape is the skeleton of v's children. */
  ghost predicate Outlines(shape: Shape, v: Value) {
    && !shape.Fixed? && !shape.Holes? && !v.Text? && |Parts(shape)| == |Children(v)|
    && forall i :: 0 <= i < |Children(v)| ==> Parts(shape)[i] == Skeleton(Children(v)[i])
  }

  lemma SkeletonOutlines(v: Value)
    requires v.List? || v.Record?
    ensures Outlines(Skeleton(v), v)
  {
  }

  /** A skeleton has a hole for every reference, part by part. */
  lemma {:induction false} HolesAreReferences(v: Value)
    ensures Needs(Skeleton(v)) == |References(v)|
    decreases v, 1, 0
  {
    if v.List? || v.Record? {
      SkeletonOutlines(v);
      HolesUpTo(Skeleton(v), v, |Children(v)|);
    }
  }

  lemma {:induction false} HolesUpTo(shape: Shape, v: Value, n: nat)
    requires Outlines(shape, v) && n <= |Children(v)|
    ensures NeedsUpTo(shape, n) == |ReferencesUpTo(v, n)|
    decreases v, 0, n
  {
    if n > 0 {
      HolesUpTo(shape, v, n - 1);
      ChildIsSmaller(v, n - 1);
      HolesAreReferences(Children(v)[n - 1]);
    }
  }

  lemma ApplySlice(f: string -> string, xs: seq<string>, i: nat, j: nat)
    requires i <= j <= |xs|
    ensures Apply(f, xs)[i..j] == Apply(f, xs[i..j])
  {
  }

  lemma ReferencesNext(v: Value, n: nat)
    requires !v.Text? && n < |Children(v)|
    ensures ReferencesUpTo(v, n + 1) == ReferencesUpTo(v, n) + References(Children(v)[n])
  {
  }

  lemma {:induction false} ReferencesGrow(v: Value, i: nat, n: nat)
    requires !v.Text? && i <= n <= |Children(v)|
    ensures ReferencesUpTo(v, i) <= ReferencesUpTo(v, n)
  {
    if i < n {
      ReferencesGrow(v, i, n - 1);
      ReferencesNext(v, n - 1);
      PrefixOfMore(ReferencesUpTo(v, i), ReferencesUpTo(v, n - 1), References(Children(v)[n - 1]));
    }
  }

  lemma PrefixOfMore(a: seq<string>, b: seq<string>, c: seq<string>)
    requires a <= b
    ensures a <= b + c
  {
  }

  lemma SliceAfter(all: seq<string>, a: seq<string>, b: seq<string>)
    requires a + b <= all
    ensures all[|a|..|a + b|] == b
  {
    assert all[..|a + b|] == a + b;
  }

  /** The references of child i are where its portion of the fillings is. */
  lemma ReferencesOfChild(v: Value, i: nat, n: nat)
    requires !v.Text? && i < n <= |Children(v)|
    ensures |ReferencesUpTo(v, i)| <= |ReferencesUpTo(v, i + 1)| <= |ReferencesUpTo(v, n)|
    ensures ReferencesUpTo(v, n)[|ReferencesUpTo(v, i)|..|ReferencesUpTo(v, i + 1)|] == References(Children(v)[i])
  {
    ReferencesNext(v, i);
    ReferencesGrow(v, i + 1, n);
    SliceAfter(ReferencesUpTo(v, n), ReferencesUpTo(v, i), References(Children(v)[i]));
  }

  lemma PortionOf(shape: Shape, i: nat, refs: seq<string>, child: seq<string>, resolve: string -> string)
    requires i < |Parts(shape)| && |refs| == Needs(shape) && NeedsUpTo(shape, i) <= NeedsUpTo(shape, i + 1) <= |refs|
    requires refs[NeedsUpTo(shape, i)..NeedsUpTo(shape, i + 1)] == child
    ensures Portion(shape, i, Apply(resolve, refs)) == Apply(resolve, child)
  {
    ApplySlice(resolve, refs, NeedsUpTo(shape, i), NeedsUpTo(shape, i + 1));
  }

  lemma PortionOfChild(shape: Shape, v: Value, i: nat, resolve: string -> string)
    requires !v.Text? && i < |Children(v)| == |Parts(shape)| && Needs(shape) == |References(v)|
    requires NeedsUpTo(shape, i) == |ReferencesUpTo(v, i)| && NeedsUpTo(shape, i + 1) == |ReferencesUpTo(v, i + 1)|
    ensures Portion(shape, i, Apply(resolve, References(v))) == Apply(resolve, References(Children(v)[i]))
  {
    ReferencesOfChild(v, i, |Children(v)|);
    PortionOf(shape, i, References(v), References(Children(v)[i]), resolve);
  }

  lemma SubstituteInterleaves(s: string, resolve: string -> string)
    ensures Substitute(s, resolve) == Interleave(Literals(false, s), Apply(resolve, Stripped(Bodies(false, s))))
  {
    var f := body => resolve(Strip(body));
    ReplaceInterleaves(false, s, f);
    assert Apply(f, Bodies(false, s)) == Apply(resolve, Stripped(Bodies(false, s)));
  }

  /** Substitution fills the holes of a tree with its resolved references, in the order extraction lists them. */
  lemma {:induction false} SubstitutionFillsReferences(v: Value, resolve: string -> string)
    ensures Needs(Skeleton(v)) == |References(v)|
    ensures SubstituteInValue(v, resolve) == Fill(Skeleton(v), Apply(resolve, References(v)))
    decreases v, 1
  {
    HolesAreReferences(v);
    match v {
      case Text(s) =>
        SubstituteInterleaves(s, resolve);
      case Record(es) =>
        SkeletonOutlines(v);
        ChildrenFilled(Skeleton(v), v, resolve);
        FilledRecord(Skeleton(v), es, Apply(resolve, References(v)), resolve);
      case List(xs) =>
        SkeletonOutlines(v);
        ChildrenFilled(Skeleton(v), v, resolve);
        FilledList(Skeleton(v), xs, Apply(resolve, References(v)), resolve);
      case _ =>
    }
  }

  /** Each part, filled with its portion, is the substituted child. */
  ghost predicate PartsFilled(shape: Shape, fillings: seq<string>, v: Value, resolve: string -> string)
    requires |fillings| == Needs(shape) && |Parts(shape)| == |Children(v)|
  {
    forall i :: 0 <= i < |Children(v)| ==>
      Fill(Parts(shape)[i], Portion(shape, i, fillings)) == SubstituteInValue(Children(v)[i], resolve)
  }

  lemma {:induction false} ChildrenFilled(shape: Shape, v: Value, resolve: string -> string)
    requires Outlines(shape, v) && Needs(shape) == |References(v)|
    ensures PartsFilled(shape, Apply(resolve, References(v)), v, resolve)
    decreases v, 0
  {
    forall i | 0 <= i < |Children(v)|
      ensures Fill(Parts(shape)[i], Portion(shape, i, Apply(resolve, References(v))))
           == SubstituteInValue(Children(v)[i], resolve)
    {
      ChildIsSmaller(v, i);
      SubstitutionFillsReferences(Children(v)[i], resolve);
      HolesUpTo(shape, v, i);
      HolesUpTo(shape, v, i + 1);
      PortionOfChild(shape, v, i, resolve);
    }
  }

  lemma FilledList(shape: Shape, xs: seq<Value>, fillings: seq<string>, resolve: string -> string)
    requires shape.ListOf? && |shape.items| == |xs| && |fillings| == Needs(shape)
    requires PartsFilled(shape, fillings, List(xs), resolve)
    ensures Fill(shape, fillings) == SubstituteInValue(List(xs), resolve)
  {
    var filled, substituted := Fill(shape, fillings).items, SubstituteInValue(List(xs), resolve).items;
    forall i | 0 <= i < |xs| ensures filled[i] == substituted[i] {
      assert Children(List(xs))[i] == xs[i];
    }
    assert filled == substituted;
  }

  lemma FilledRecord(shape: Shape, es: Dict<Value>, fillings: seq<string>, resolve: string -> string)
    requires shape.RecordOf? && |shape.keys| == |shape.items| == |es| && |fillings| == Needs(shape)
    requires forall i :: 0 <= i < |es| ==> shape.keys[i] == es[i].key
    requires PartsFilled(shape, fillings, Record(es), resolve)
    ensures Fill(shape, fillings) == SubstituteInValue(Record(es), resolve)
  {
    var filled, substituted := Fill(shape, fillings).entries, SubstituteInValue(Record(es), resolve).entries;
    forall i | 0 <= i < |es| ensures filled[i] == substituted[i] {
      assert Children(Record(es))[i] == es[i].value;
      assert filled[i].key == es[i].key;
    }
    assert filled == substituted;
  }

  /** Two states that resolve the listed references alike render a tree alike. */
  lemma OnlyReferencesMatter(v: Value, a: string -> string, b: string -> string)
    requires forall i :: 0 <= i < |References(v)| ==> a(References(v)[i]) == b(References(v)[i])
    ensures SubstituteInValue(v, a) == SubstituteInValue(v, b)
  {
    SubstitutionFillsReferences(v, a);
    SubstitutionFillsReferences(v, b);
    assert Apply(a, References(v)) == Apply(b, References(v));
  }

  lemma {:induction false} StripShortens(s: string)
    ensures |Strip(s)| <= |s| && (Strip(s) != s ==> |Strip(s)| < |s|)
  {
    if s != "" && IsSpace(s[0]) {
      StripShortens(s[1..]);
    } else if s != "" && IsSpace(s[|s| - 1]) {
      StripShortens(s[..|s| - 1]);
    }
  }

  /** A template none of whose references resolves keeps its text exactly when no placeholder is padded. */
  lemma UnresolvedTextIsKept(s: string, st: State, dumps: Value -> string)
    requires forall b :: b in Bodies(false, s) ==> ValueOf(Split(Strip(b)), st).Null?
    ensures Substitute(s, path => Resolve(path, st, dumps)) == s <==>
              forall b :: b in Bodies(false, s) ==> Strip(b) == b
  {
    var resolve := path => Resolve(path, st, dumps);
    var g := body => resolve(Strip(body));
    assert Substitute(s, resolve) == Replace(false, s, g);
    if forall b :: b in Bodies(false, s) ==> Strip(b) == b {
      ReplaceBySelf(false, s, g);
    } else {
      forall b | b in Bodies(false, s) ensures |g(b)| == |Strip(b)| + 4 && |Strip(b)| <= |b| {
        StripShortens(b);
      }
      var b :| b in Bodies(false, s) && Strip(b) != b;
      StripShortens(b);
      ReplaceFromShrinks(Closings(false, s), s, 0, g);
    }
  }
}
