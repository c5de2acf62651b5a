/** Finding {{...}} placeholders in a text, and replacing them. */
module Placeholders {
  import opened Wrappers

  /** Of the two patterns, the strict one also keeps `{` out of a placeholder's body. */
  predicate BodyChar(strict: bool, c: char) {
    c != '}' && !(strict && c == '{')
  }

  /** The pattern matches s from i; s[i + 2..j] is the body and the match ends at j + 2. */
  ghost predicate MatchAt(strict: bool, s: string, i: nat, j: nat) {
    && i + 3 <= j && j + 2 <= |s|
    && s[i] == '{' && s[i + 1] == '{' && s[j] == '}' && s[j + 1] == '}'
    && forall k :: i + 2 <= k < j ==> s[k] != '}' && (strict ==> s[k] != '{')
  }

  function BodyEnd(strict: bool, s: string, k: nat): (r: nat)
    requires k <= |s|
    ensures k <= r <= |s| && (r < |s| ==> !BodyChar(strict, s[r]))
    ensures forall i :: k <= i < r ==> BodyChar(strict, s[i])
    decreases |s| - k
  {
    if k == |s| || !BodyChar(strict, s[k]) then k else BodyEnd(strict, s, k + 1)
  }

  /** Where the body of the match from i ends, if the pattern matches from i. */
  function Closing(strict: bool, s: string, i: nat): (r: Option<nat>)
    ensures r.Some? ==> i + 3 <= r.value && r.value + 2 <= |s|
  {
    if i + 2 <= |s| && s[i] == '{' && s[i + 1] == '{' then
      var j := BodyEnd(strict, s, i + 2);
      if i + 3 <= j && j + 2 <= |s| && s[j] == '}' && s[j + 1] == '}' then Some(j) else None
    else None
  }

  lemma ClosingIsMatch(strict: bool, s: string, i: nat, j: nat)
    ensures Closing(strict, s, i) == Some(j) <==> MatchAt(strict, s, i, j)
  {
    if i + 2 <= |s| && MatchAt(strict, s, i, j) {
      assert !BodyChar(strict, s[j]);
      assert BodyEnd(strict, s, i + 2) == j;
    }
  }

  /** For every position of a text, where the body of a match from there ends. */
  type Table = t: seq<Option<nat>> |
      forall i :: 0 <= i < |t| && t[i].Some? ==> i + 3 <= t[i].value && t[i].value + 2 <= |t|
    witness []

  function Closings(strict: bool, s: string): (t: Table)
    ensures |t| == |s| && forall i :: 0 <= i < |s| ==> t[i] == Closing(strict, s, i)
  {
    seq(|s|, i requires 0 <= i < |s| => Closing(strict, s, i))
  }

  datatype Span = Span(open: nat, close: nat)

  /** The leftmost match that starts at i or later. */
  function Next(t: Table, i: nat): (r: Option<Span>)
    ensures r.Some? ==> i <= r.value.open < |t| && t[r.value.open] == Some(r.value.close)
    ensures forall a :: i <= a < |t| && t[a].Some? ==> r.Some? && r.value.open <= a
    decreases |t| - i
  {
    if i >= |t| then None
    else if t[i].Some? then Some(Span(i, t[i].value))
    else Next(t, i + 1)
  }

  /** What finditer walks through. */
  function Spans(t: Table, i: nat): seq<Span>
    decreases |t| - i
  {
    match Next(t, i)
    case None => []
    case Some(m) => [m] + Spans(t, m.close + 2)
  }

  /** The spans are disjoint, in order and after i. */
  ghost predicate Ordered(i: nat, ms: seq<Span>) {
    && (forall k :: 0 <= k < |ms| ==> i <= ms[k].open <= ms[k].close)
    && (forall k, l :: 0 <= k < l < |ms| ==> ms[k].close + 2 <= ms[l].open)
  }

  ghost predicate Inside(ms: seq<Span>, a: nat) {
    exists k :: 0 <= k < |ms| && ms[k].open <= a < ms[k].close + 2
  }

  /** Disjoint matches in order, such that no match starts outside all of them. */
  ghost predicate Leftmost(strict: bool, s: string, ms: seq<Span>) {
    && Ordered(0, ms)
    && (forall k :: 0 <= k < |ms| ==> MatchAt(strict, s, ms[k].open, ms[k].close))
    && (forall a: nat, b: nat :: MatchAt(strict, s, a, b) ==> Inside(ms, a))
  }

  ghost predicate Covering(t: Table, i: nat, ms: seq<Span>) {
    && Ordered(i, ms)
    && (forall k :: 0 <= k < |ms| ==> ms[k].open < |t| && t[ms[k].open] == Some(ms[k].close))
    && (forall a {:trigger Inside(ms, a)} :: i <= a < |t| && t[a].Some? ==> Inside(ms, a))
  }

  lemma LeftmostIsCovering(strict: bool, s: string, ms: seq<Span>)
    ensures Leftmost(strict, s, ms) <==> Covering(Closings(strict, s), 0, ms)
  {
    var t := Closings(strict, s);
    forall a: nat, b: nat ensures MatchAt(strict, s, a, b) <==> a < |t| && t[a] == Some(b) {
      ClosingIsMatch(strict, s, a, b);
    }
    if Leftmost(strict, s, ms) {
      forall a {:trigger Inside(ms, a)} | 0 <= a < |t| && t[a].Some? ensures Inside(ms, a) {
        assert MatchAt(strict, s, a, t[a].value);
      }
    }
  }

  lemma InsideCons(m: Span, rest: seq<Span>, a: nat)
    ensures Inside([m] + rest, a) <==> m.open <= a < m.close + 2 || Inside(rest, a)
  {
    var ms := [m] + rest;
    assert ms[0] == m;
    assert forall k :: 0 <= k < |rest| ==> ms[k + 1] == rest[k];
  }

  lemma OrderedCons(i: nat, m: Span, rest: seq<Span>)
    requires m.open <= m.close
    ensures Ordered(i, [m] + rest) <==> i <= m.open && Ordered(m.close + 2, rest)
  {
    var ms := [m] + rest;
    assert ms[0] == m;
    assert forall k :: 0 <= k < |rest| ==> ms[k + 1] == rest[k];
    if i <= m.open && Ordered(m.close + 2, rest) {
      forall k, l | 0 <= k < l < |ms| ensures ms[k].close + 2 <= ms[l].open {
        assert ms[l] == rest[l - 1];
        assert k > 0 ==> ms[k] == rest[k - 1];
      }
      forall k | 0 <= k < |ms| ensures i <= ms[k].open <= ms[k].close {
        assert k > 0 ==> ms[k] == rest[k - 1];
      }
    }
  }

  lemma CoveringCons(t: Table, i: nat, m: Span, rest: seq<Span>)
    requires Next(t, i) == Some(m) && m.close + 2 <= |t|
    ensures Covering(t, i, [m] + rest) <==> Covering(t, m.close + 2, rest)
  {
    OrderedCons(i, m, rest);
    var ms := [m] + rest;
    assert ms[0] == m;
    assert forall k :: 0 <= k < |rest| ==> ms[k + 1] == rest[k];
    if Covering(t, i, ms) {
      forall a {:trigger Inside(rest, a)} | m.close + 2 <= a < |t| && t[a].Some? ensures Inside(rest, a) {
        InsideCons(m, rest, a);
      }
    }
    if Covering(t, m.close + 2, rest) {
      forall a {:trigger Inside(ms, a)} | i <= a < |t| && t[a].Some? ensures Inside(ms, a) {
        InsideCons(m, rest, a);
      }
      forall k | 0 <= k < |ms| ensures ms[k].open < |t| && t[ms[k].open] == Some(ms[k].close) {
        assert k > 0 ==> ms[k] == rest[k - 1];
      }
    }
  }

  lemma {:induction false} SpansCover(t: Table, i: nat)
    ensures Covering(t, i, Spans(t, i))
    decreases |t| - i
  {
    var next := Next(t, i);
    if next.Some? {
      SpansCover(t, next.value.close + 2);
      CoveringCons(t, i, next.value, Spans(t, next.value.close + 2));
    }
  }

  lemma CoveringHead(t: Table, i: nat, ms: seq<Span>)
    requires Covering(t, i, ms)
    ensures Next(t, i) == if ms == [] then None else Some(ms[0])
  {
    var next := Next(t, i);
    if next.Some? {
      assert Inside(ms, next.value.open);
    }
    if ms != [] {
      assert t[ms[0].open].Some?;
    }
  }

  lemma {:induction false} CoveringIsSpans(t: Table, i: nat, ms: seq<Span>)
    requires Covering(t, i, ms)
    ensures ms == Spans(t, i)
    decreases |t| - i
  {
    CoveringHead(t, i, ms);
    var next := Next(t, i);
    if next.Some? {
      assert ms == [next.value] + ms[1..];
      CoveringCons(t, i, next.value, ms[1..]);
      CoveringIsSpans(t, next.value.close + 2, ms[1..]);
    }
  }

  /** Scanning finds the one family of matches that is Leftmost. */
  lemma SpansAreTheLeftmost(strict: bool, s: string, ms: seq<Span>)
    ensures Leftmost(strict, s, ms) <==> ms == Spans(Closings(strict, s), 0)
  {
    LeftmostIsCovering(strict, s, ms);
    SpansCover(Closings(strict, s), 0);
    if Covering(Closings(strict, s), 0, ms) {
      CoveringIsSpans(Closings(strict, s), 0, ms);
    }
  }

  function Body(s: string, m: Span): string
    requires m.open + 2 <= m.close <= |s|
  {
    s[m.open + 2..m.close]
  }

  /** The bodies of the placeholders from i on, left to right. */
  function BodiesFrom(t: Table, s: string, i: nat): seq<string>
    requires |t| == |s|
    decreases |t| - i
  {
    match Next(t, i)
    case None => []
    case Some(m) => [Body(s, m)] + BodiesFrom(t, s, m.close + 2)
  }

  function Bodies(strict: bool, s: string): seq<string> {
    BodiesFrom(Closings(strict, s), s, 0)
  }

  lemma {:induction false} BodiesAreOfSpans(t: Table, s: string, i: nat)
    requires |t| == |s|
    ensures |BodiesFrom(t, s, i)| == |Spans(t, i)|
    ensures forall k :: 0 <= k < |Spans(t, i)| ==>
              var m := Spans(t, i)[k]; m.open + 2 <= m.close <= |s| && BodiesFrom(t, s, i)[k] == Body(s, m)
    decreases |t| - i
  {
    if Next(t, i).Some? {
      BodiesAreOfSpans(t, s, Next(t, i).value.close + 2);
    }
  }

  /** The bodies are those of the leftmost matches. */
  lemma BodiesAreLeftmost(strict: bool, s: string, ms: seq<Span>)
    requires Leftmost(strict, s, ms)
    ensures |Bodies(strict, s)| == |ms|
    ensures forall k :: 0 <= k < |ms| ==>
              ms[k].open + 2 <= ms[k].close <= |s| && Bodies(strict, s)[k] == Body(s, ms[k])
  {
    SpansAreTheLeftmost(strict, s, ms);
    BodiesAreOfSpans(Closings(strict, s), s, 0);
  }

  /** The text between the placeholders from i on. */
  function LiteralsFrom(t: Table, s: string, i: nat): (r: seq<string>)
    requires i <= |t| == |s|
    ensures |r| == |BodiesFrom(t, s, i)| + 1
    decreases |t| - i
  {
    match Next(t, i)
    case None => [s[i..]]
    case Some(m) => [s[i..m.open]] + LiteralsFrom(t, s, m.close + 2)
  }

  function Literals(strict: bool, s: string): (r: seq<string>)
    ensures |r| == |Bodies(strict, s)| + 1
  {
    LiteralsFrom(Closings(strict, s), s, 0)
  }

  function ReplaceFrom(t: Table, s: string, i: nat, f: string -> string): string
    requires i <= |t| == |s|
    decreases |t| - i
  {
    match Next(t, i)
    case None => s[i..]
    case Some(m) => s[i..m.open] + f(Body(s, m)) + ReplaceFrom(t, s, m.close + 2, f)
  }

  /** The pattern's sub: every match replaced by what f makes of its body, the rest copied. */
  function Replace(strict: bool, s: string, f: string -> string): string {
    ReplaceFrom(Closings(strict, s), s, 0, f)
  }

  function Apply(f: string -> string, xs: seq<string>): (r: seq<string>)
    ensures |r| == |xs| && forall i :: 0 <= i < |xs| ==> r[i] == f(xs[i])
  {
    seq(|xs|, i requires 0 <= i < |xs| => f(xs[i]))
  }

  /** Fixed texts with fillings between them; nothing here looks at what a filling says. */
  function Interleave(literals: seq<string>, fillings: seq<string>): string
    requires |literals| == |fillings| + 1
  {
    if fillings == [] then literals[0] else literals[0] + fillings[0] + Interleave(literals[1..], fillings[1..])
  }

  lemma {:induction false} ReplaceFromInterleaves(t: Table, s: string, i: nat, f: string -> string)
    requires i <= |t| == |s|
    ensures ReplaceFrom(t, s, i, f) == Interleave(LiteralsFrom(t, s, i), Apply(f, BodiesFrom(t, s, i)))
    decreases |t| - i
  {
    var next := Next(t, i);
    if next.Some? {
      var m := next.value;
      ReplaceFromInterleaves(t, s, m.close + 2, f);
      var bodies := BodiesFrom(t, s, m.close + 2);
      assert Apply(f, BodiesFrom(t, s, i))[1..] == Apply(f, bodies);
      assert LiteralsFrom(t, s, i)[1..] == LiteralsFrom(t, s, m.close + 2);
    }
  }

  /** Replacing works on the original text only: its literals stay and its bodies are replaced in order. */
  lemma ReplaceInterleaves(strict: bool, s: string, f: string -> string)
    ensures Replace(strict, s, f) == Interleave(Literals(strict, s), Apply(f, Bodies(strict, s)))
  {
    ReplaceFromInterleaves(Closings(strict, s), s, 0, f);
  }

  function Braced(body: string): string {
    "{{" + body + "}}"
  }

  /** Every match of the table is a braced body. */
  ghost predicate Frames(t: Table, s: string) {
    |t| == |s| && forall i {:trigger Framed(t, s, i)} :: 0 <= i < |t| ==> Framed(t, s, i)
  }

  ghost predicate Framed(t: Table, s: string, i: nat)
    requires i < |t| == |s|
  {
    t[i].Some? ==> s[i..t[i].value + 2] == Braced(s[i + 2..t[i].value])
  }

  lemma ClosingText(strict: bool, s: string, i: nat)
    requires Closing(strict, s, i).Some?
    ensures s[i..Closing(strict, s, i).value + 2] == Braced(s[i + 2..Closing(strict, s, i).value])
  {
  }

  lemma Around(s: string, i: nat, a: nat, b: nat, middle: string, end: string)
    requires i <= a <= b <= |s| && middle == s[a..b] && end == s[b..]
    ensures s[i..a] + middle + end == s[i..]
  {
  }

  lemma ReplaceStep(t: Table, s: string, i: nat, m: Span, f: string -> string)
    requires i <= |s| == |t| && Next(t, i) == Some(m)
    ensures ReplaceFrom(t, s, i, f) == s[i..m.open] + f(Body(s, m)) + ReplaceFrom(t, s, m.close + 2, f)
  {
  }

  /** f gives every listed body back in its braces. */
  ghost predicate Rebraces(f: string -> string, bodies: seq<string>) {
    forall k :: 0 <= k < |bodies| ==> f(bodies[k]) == Braced(bodies[k])
  }

  lemma BodiesStep(t: Table, s: string, i: nat, m: Span)
    requires |s| == |t| && Next(t, i) == Some(m)
    ensures BodiesFrom(t, s, i) == [Body(s, m)] + BodiesFrom(t, s, m.close + 2)
  {
  }

  lemma RebracesTail(f: string -> string, body: string, rest: seq<string>)
    requires Rebraces(f, [body] + rest)
    ensures f(body) == Braced(body) && Rebraces(f, rest)
  {
    var bodies := [body] + rest;
    assert bodies[0] == body;
    assert forall k :: 0 <= k < |rest| ==> bodies[k + 1] == rest[k];
  }

  lemma BodyFramed(t: Table, s: string, m: Span)
    requires Frames(t, s) && m.open < |t| && t[m.open] == Some(m.close)
    ensures s[m.open..m.close + 2] == Braced(Body(s, m))
  {
    assert Framed(t, s, m.open);
  }

  lemma {:induction false} ReplaceFromBySelf(t: Table, s: string, i: nat, f: string -> string)
    requires i <= |s| && Frames(t, s) && Rebraces(f, BodiesFrom(t, s, i))
    ensures ReplaceFrom(t, s, i, f) == s[i..]
    decreases |t| - i
  {
    var next := Next(t, i);
    if next.Some? {
      var m := next.value;
      BodiesStep(t, s, i, m);
      RebracesTail(f, Body(s, m), BodiesFrom(t, s, m.close + 2));
      ReplaceFromBySelf(t, s, m.close + 2, f);
      BodyFramed(t, s, m);
      ReplaceStep(t, s, i, m, f);
      Around(s, i, m.open, m.close + 2, Braced(Body(s, m)), s[m.close + 2..]);
    }
  }

  /** Replacing every placeholder by itself gives the text back. */
  lemma ReplaceBySelf(strict: bool, s: string, f: string -> string)
    requires forall b :: b in Bodies(strict, s) ==> f(b) == Braced(b)
    ensures Replace(strict, s, f) == s
  {
    var t := Closings(strict, s);
    forall i | 0 <= i < |t| ensures Framed(t, s, i) {
      if t[i].Some? {
        ClosingText(strict, s, i);
      }
    }
    ReplaceFromBySelf(t, s, 0, f);
  }

  /** Replacements no longer than their placeholders give a text no longer, and shorter if one of them is. */
  lemma {:induction false} ReplaceFromShrinks(t: Table, s: string, i: nat, f: string -> string)
    requires i <= |s| == |t|
    requires forall b :: b in BodiesFrom(t, s, i) ==> |f(b)| <= |b| + 4
    ensures |ReplaceFrom(t, s, i, f)| <= |s| - i
    ensures forall b :: b in BodiesFrom(t, s, i) && |f(b)| < |b| + 4 ==> |ReplaceFrom(t, s, i, f)| < |s| - i
    decreases |t| - i
  {
    var next := Next(t, i);
    if next.Some? {
      var m := next.value;
      var rest := BodiesFrom(t, s, m.close + 2);
      assert BodiesFrom(t, s, i) == [Body(s, m)] + rest;
      assert Body(s, m) in BodiesFrom(t, s, i);
      ReplaceFromShrinks(t, s, m.close + 2, f);
    }
  }
}
