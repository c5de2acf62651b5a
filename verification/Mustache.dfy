/** Conditions written as {{path}}: the rewrite to subscripts, the scope, and what evaluation then finds. */
module Mustache {
  import opened Wrappers
  import opened Dictionary
  import opened Placeholders
  import opened Paths

  predicate IdentStart(c: char) {
    'A' <= c <= 'Z' || 'a' <= c <= 'z' || c == '_'
  }

  predicate IdentChar(c: char) {
    IdentStart(c) || '0' <= c <= '9'
  }

  predicate Ident(s: string) {
    s != "" && IdentStart(s[0]) && forall i :: 0 <= i < |s| ==> IdentChar(s[i])
  }

  /** The pattern's `$` also matches before a final line feed. */
  predicate IdentMatch(s: string) {
    Ident(s) || (s != "" && s[|s| - 1] == '\n' && Ident(s[..|s| - 1]))
  }

  function Subscripts(keys: seq<string>): string {
    if keys == [] then "" else "[\"" + keys[0] + "\"]" + Subscripts(keys[1..])
  }

  /** The replacement of one placeholder: left alone unless every segment is an identifier. */
  function ToSubscript(body: string): string {
    var path := Strip(body);
    var segments := Split(path);
    if path == "" || exists i :: 0 <= i < |segments| && !IdentMatch(segments[i]) then Braced(body)
    else segments[0] + Subscripts(segments[1..])
  }

  function Expand(expression: string): string {
    Replace(true, expression, body => ToSubscript(body))
  }

  const RESERVED: set<string> := {"variables", "lastOutput", "node_results"}

  /** What a name means in an expression, without the per-call extras. */
  function ScopeValue(name: string, st: State): Option<Value> {
    if name == "variables" then Some(Record(st.variables))
    else if name == "lastOutput" then Some(Get(st.variables, name))
    else if name == "node_results" then Some(Record(st.nodeResults))
    else if IdentMatch(name) && HasKey(st.variables, name) then Some(Get(st.variables, name))
    else None
  }

  function Named(name: string, st: State, extras: map<string, Value>): Option<Value> {
    if name in extras then Some(extras[name]) else ScopeValue(name, st)
  }

  lemma GetPrefix(d: Dict<Value>, i: nat, name: string)
    requires i < |d| && DistinctKeys(d)
    ensures Get(d, d[i].key) == d[i].value
    ensures HasKey(d[..i + 1], name) <==> HasKey(d[..i], name) || name == d[i].key
  {
    assert IndexFrom(d, d[i].key, 0) == i;
    assert d[..i + 1][i] == d[i];
    assert forall k :: 0 <= k < i ==> d[..i + 1][k] == d[..i][k];
  }

  /** The scope: reserved names first, then the variables that are identifiers, then the extras over all. */
  method BuildScope(st: State, extras: map<string, Value>) returns (names: map<string, Value>)
    requires DistinctKeys(st.variables)
    ensures forall n :: (if n in names then Some(names[n]) else None) == Named(n, st, extras)
  {
    var d := st.variables;
    names := map[
      "variables" := Record(d), "lastOutput" := Get(d, "lastOutput"), "node_results" := Record(st.nodeResults)];
    for i := 0 to |d|
      invariant forall n :: n in names <==> n in RESERVED || (IdentMatch(n) && HasKey(d[..i], n))
      invariant forall n :: n in names ==> Some(names[n]) == ScopeValue(n, st) || n !in RESERVED
      invariant forall n :: n in names && n !in RESERVED ==> names[n] == Get(d, n)
    {
      forall n ensures HasKey(d[..i + 1], n) <==> HasKey(d[..i], n) || n == d[i].key {
        GetPrefix(d, i, n);
      }
      GetPrefix(d, i, "");
      if d[i].key !in RESERVED && IdentMatch(d[i].key) && d[i].key !in names {
        names := names[d[i].key := d[i].value];
      }
    }
    assert d[..|d|] == d;
    names := names + extras;
  }

  /** A value, a failure (raised as EvalError), a coercion function by name, or a text this model does not read. */
  datatype Outcome = Got(value: Value) | Failed | Coercion(name: string) | Unread

  const FUNCTIONS: set<string> := {"int", "float", "str", "bool", "len"}

  const KEYWORDS: set<string> := {
    "False", "None", "True", "and", "as", "assert", "async", "await", "break", "class", "continue", "def",
    "del", "elif", "else", "except", "finally", "for", "from", "global", "if", "import", "in", "is",
    "lambda", "nonlocal", "not", "or", "pass", "raise", "return", "try", "while", "with", "yield"
  }

  function Take(s: string, p: char -> bool): (r: string)
    ensures |r| <= |s| && r == s[..|r|]
  {
    if s == "" || !p(s[0]) then "" else [s[0]] + Take(s[1..], p)
  }

  /** The characters of a one-line string literal that stand for themselves. */
  predicate Plain(c: char) {
    c != '"' && c != '\\' && c != '\n' && c != '\r'
  }

  /** A run of ["key"] subscripts. */
  function ParseSubscripts(s: string): Option<seq<string>>
    decreases |s|
  {
    if s == "" then Some([])
    else if |s| < 4 || s[0] != '[' || s[1] != '"' then None
    else
      var key := Take(s[2..], c => Plain(c));
      var k := 2 + |key|;
      if k + 2 > |s| || s[k] != '"' || s[k + 1] != ']' then None
      else
        var rest := ParseSubscripts(s[k + 2..]);
        if rest.None? then None else Some([key] + rest.value)
  }

  function Name(s: string): string {
    Take(s, c => IdentChar(c))
  }

  function Item(x: Outcome, key: string): Outcome {
    if x.Got? && x.value.Record? && HasKey(x.value.entries, key) then Got(Get(x.value.entries, key)) else Failed
  }

  function Items(x: Outcome, keys: seq<string>): Outcome
    decreases keys
  {
    if keys == [] then x else Items(Item(x, keys[0]), keys[1..])
  }

  function EvalName(name: string, st: State, extras: map<string, Value>): Outcome {
    match Named(name, st, extras)
    case Some(v) => Got(v)
    case None => if name in FUNCTIONS then Coercion(name) else Failed
  }

  /** Evaluation of a name followed by subscripts; other texts are not read. */
  function EvalText(s: string, st: State, extras: map<string, Value>): Outcome {
    var name := Name(s);
    var keys := ParseSubscripts(s[|name|..]);
    if !Ident(name) || name in KEYWORDS || keys.None? then Unread
    else Items(EvalName(name, st, extras), keys.value)
  }

  function Evaluate(expression: string, st: State, extras: map<string, Value>): Outcome {
    EvalText(Strip(Expand(expression)), st, extras)
  }

  // Reading back what the rewrite writes

  lemma {:induction false} TakeAll(a: string, b: string, p: char -> bool)
    requires (forall i :: 0 <= i < |a| ==> p(a[i])) && (b == "" || !p(b[0]))
    ensures Take(a + b, p) == a
  {
    if a == "" {
      assert a + b == b;
    } else {
      var s := a + b;
      assert s[0] == a[0] && s[1..] == a[1..] + b;
      TakeAll(a[1..], b, p);
    }
  }

  ghost predicate Idents(segments: seq<string>) {
    forall i :: 0 <= i < |segments| ==> Ident(segments[i])
  }

  lemma {:induction false} ParseWritten(keys: seq<string>)
    requires Idents(keys)
    ensures ParseSubscripts(Subscripts(keys)) == Some(keys)
  {
    if keys != [] {
      var key, rest := keys[0], Subscripts(keys[1..]);
      ParseWritten(keys[1..]);
      SubscriptText(key, rest);
      var s := Subscripts(keys);
      assert s == "[\"" + key + "\"]" + rest;
      assert [key] + keys[1..] == keys;
    }
  }

  lemma SubscriptText(key: string, rest: string)
    requires Ident(key)
    ensures var s := "[\"" + key + "\"]" + rest;
            && |s| >= 4 && s[0] == '[' && s[1] == '"' && Take(s[2..], c => Plain(c)) == key
            && |s| >= |key| + 4 && s[2 + |key|] == '"' && s[3 + |key|] == ']' && s[4 + |key|..] == rest
  {
    var s := "[\"" + key + "\"]" + rest;
    var after := "\"]" + rest;
    assert s[2..] == key + after;
    TakeAll(key, after, c => Plain(c));
  }

  lemma NameOfWritten(head: string, keys: seq<string>)
    requires Ident(head)
    ensures Name(head + Subscripts(keys)) == head && (head + Subscripts(keys))[|head|..] == Subscripts(keys)
  {
    TakeAll(head, Subscripts(keys), c => IdentChar(c));
  }

  // The one placeholder of a padded {{path}}

  ghost predicate Unbraced(s: string) {
    '{' !in s && '}' !in s
  }

  lemma OnePlaceholder(lead: string, body: string, trail: string)
    requires Unbraced(lead) && Unbraced(trail) && Unbraced(body) && body != ""
    ensures Spans(Closings(true, lead + Braced(body) + trail), 0) == [Span(|lead|, |lead| + 2 + |body|)]
  {
    var s, m := lead + Braced(body) + trail, Span(|lead|, |lead| + 2 + |body|);
    assert s == lead + "{{" + body + "}}" + trail;
    assert MatchAt(true, s, m.open, m.close);
    forall a: nat, b: nat | MatchAt(true, s, a, b) ensures Inside([m], a) {
      assert s[a] == '{' && s[a + 1] == '{';
      assert a >= |lead| ==> a < |lead| + 2;
      assert [m][0] == m;
    }
    SpansAreTheLeftmost(true, s, [m]);
  }

  lemma ReplaceOne(t: Table, s: string, m: Span, f: string -> string)
    requires |t| == |s| && Spans(t, 0) == [m]
    ensures m.open + 3 <= m.close && m.close + 2 <= |s|
    ensures ReplaceFrom(t, s, 0, f) == s[..m.open] + f(Body(s, m)) + s[m.close + 2..]
  {
    assert Spans(t, 0)[0] == m;
    assert Next(t, 0) == Some(m);
    assert Spans(t, m.close + 2) == Spans(t, 0)[1..] == [];
    assert Next(t, m.close + 2) == None;
  }

  lemma BracedSlices(lead: string, body: string, trail: string)
    ensures var s := lead + Braced(body) + trail;
            && s[..|lead|] == lead
            && s[|lead| + 2..|lead| + 2 + |body|] == body
            && s[|lead| + 4 + |body|..] == trail
  {
  }

  lemma ExpandOne(lead: string, body: string, trail: string)
    requires Unbraced(lead) && Unbraced(trail) && Unbraced(body) && body != ""
    ensures Expand(lead + Braced(body) + trail) == lead + ToSubscript(body) + trail
  {
    var s, m := lead + Braced(body) + trail, Span(|lead|, |lead| + 2 + |body|);
    OnePlaceholder(lead, body, trail);
    BracedSlices(lead, body, trail);
    ExpandSpan(s, m, lead, body, trail);
  }

  /** The rewrite of a text with one placeholder, given what its parts are. */
  lemma ExpandSpan(s: string, m: Span, lead: string, body: string, trail: string)
    requires Spans(Closings(true, s), 0) == [m] && m.open + 2 <= m.close && m.close + 2 <= |s|
    requires s[..m.open] == lead && Body(s, m) == body && s[m.close + 2..] == trail
    ensures Expand(s) == lead + ToSubscript(body) + trail
  {
    ReplaceOne(Closings(true, s), s, m, body => ToSubscript(body));
  }

  // Meaning

  /** A walk that does not look out for unsafe segments. */
  function Follow(root: Value, segments: seq<string>): Value {
    if segments == [] then root
    else if !root.Record? || Get(root.entries, segments[0]).Null? then Null
    else Follow(Get(root.entries, segments[0]), segments[1..])
  }

  /** The safe walk is the plain one on safe paths and finds nothing on the others. */
  lemma {:induction false} WalkIsSafeFollow(root: Value, segments: seq<string>)
    ensures Walk(root, segments) ==
            if forall i :: 0 <= i < |segments| ==> Safe(segments[i]) then Follow(root, segments) else Null
  {
    if segments != [] {
      var tail := segments[1..];
      assert forall i :: 0 < i < |segments| ==> segments[i] == tail[i - 1];
      if root.Record? && !Get(root.entries, segments[0]).Null? {
        WalkIsSafeFollow(Get(root.entries, segments[0]), tail);
      }
    }
  }

  ghost predicate Finds(x: Outcome, v: Value) {
    x == Got(v) && !v.Null?
  }

  lemma {:induction false} ItemsFollow(x: Outcome, keys: seq<string>, v: Value)
    ensures x.Got? ==> (Finds(Items(x, keys), v) <==> !v.Null? && Follow(x.value, keys) == v)
    ensures !x.Got? ==> !Finds(Items(x, keys), v)
    decreases keys
  {
    if keys != [] {
      ItemsFollow(Item(x, keys[0]), keys[1..], v);
    }
  }

  // Agreement

  /** {{path}} with any spacing around and inside the braces. */
  ghost predicate Writes(expression: string, segments: seq<string>) {
    exists lead, left, right, trail ::
      && segments != [] && AllSpace(lead) && AllSpace(left) && AllSpace(right) && AllSpace(trail)
      && expression == lead + Braced(left + Join(segments) + right) + trail
  }

  lemma IdentIsBare(s: string)
    requires Ident(s)
    ensures Bare(s) && Undotted(s) && Unbraced(s) && IdentMatch(s)
  {
  }

  lemma {:induction false} PathIsBare(segments: seq<string>)
    requires segments != [] && Idents(segments)
    ensures Bare(Join(segments)) && Unbraced(Join(segments))
  {
    IdentIsBare(segments[0]);
    if |segments| > 1 {
      PathIsBare(segments[1..]);
      var path := Join(segments);
      assert path == segments[0] + "." + Join(segments[1..]);
      assert path[0] == segments[0][0] && path[|path| - 1] == Join(segments[1..])[|Join(segments[1..])| - 1];
    }
  }

  lemma PathToSubscript(left: string, segments: seq<string>, right: string)
    requires AllSpace(left) && AllSpace(right) && segments != [] && Idents(segments)
    ensures ToSubscript(left + Join(segments) + right) == segments[0] + Subscripts(segments[1..])
  {
    PathIsBare(segments);
    StripPadding(left, Join(segments), right);
    forall i | 0 <= i < |segments| ensures Undotted(segments[i]) && IdentMatch(segments[i]) {
      IdentIsBare(segments[i]);
    }
    SplitJoin(segments);
  }

  /** What the pattern accepts as a segment: an identifier, or one with a line feed at its end. */
  ghost predicate Accepted(segment: string) {
    Ident(segment) || exists name :: Ident(name) && segment == name + "\n"
  }

  lemma AcceptedIff(segment: string)
    ensures IdentMatch(segment) <==> Accepted(segment)
  {
    if segment != "" && segment[|segment| - 1] == '\n' {
      assert segment == segment[..|segment| - 1] + "\n";
    }
    forall name | Ident(name) && segment == name + "\n" ensures segment[..|segment| - 1] == name {
    }
  }

  /** A placeholder is rewritten exactly when every segment of its path is accepted, and else left as it is. */
  lemma RewrittenIff(body: string, segments: seq<string>)
    requires segments != [] && Join(segments) == Strip(body)
    requires forall i :: 0 <= i < |segments| ==> Undotted(segments[i])
    ensures ToSubscript(body) ==
            if forall i :: 0 <= i < |segments| ==> Accepted(segments[i]) then segments[0] + Subscripts(segments[1..])
            else "{{" + body + "}}"
  {
    SplitIff(Strip(body), segments);
    forall i | 0 <= i < |segments| ensures IdentMatch(segments[i]) <==> Accepted(segments[i]) {
      AcceptedIff(segments[i]);
    }
    if Strip(body) == "" {
      assert Join(segments) == "";
      assert segments[0] == "";
    }
  }

  lemma SpacesUnbraced(s: string)
    requires AllSpace(s)
    ensures Unbraced(s)
  {
  }

  lemma {:induction false} WrittenIsBare(head: string, keys: seq<string>)
    requires Ident(head)
    ensures Bare(head + Subscripts(keys))
  {
    if keys != [] {
      WrittenIsBare(head, keys[1..]);
      SubscriptsEnd(keys);
      var s := head + Subscripts(keys);
      assert s[0] == head[0] && s[|s| - 1] == Subscripts(keys)[|Subscripts(keys)| - 1];
    } else {
      assert head + Subscripts(keys) == head;
    }
  }

  lemma {:induction false} SubscriptsEnd(keys: seq<string>)
    requires keys != []
    ensures Subscripts(keys) != "" && Subscripts(keys)[|Subscripts(keys)| - 1] == ']'
  {
    if |keys| > 1 {
      SubscriptsEnd(keys[1..]);
    }
  }

  lemma WrittenReads(head: string, keys: seq<string>, st: State, extras: map<string, Value>)
    requires Ident(head) && Idents(keys) && head !in KEYWORDS
    ensures EvalText(head + Subscripts(keys), st, extras) == Items(EvalName(head, st, extras), keys)
  {
    NameOfWritten(head, keys);
    ParseWritten(keys);
  }

  lemma ExpandPath(lead: string, left: string, segments: seq<string>, right: string, trail: string)
    requires AllSpace(lead) && AllSpace(left) && AllSpace(right) && AllSpace(trail) && segments != []
              && Idents(segments)
    ensures Strip(Expand(lead + Braced(left + Join(segments) + right) + trail))
         == segments[0] + Subscripts(segments[1..])
  {
    PathIsBare(segments);
    SpacesUnbraced(lead);
    SpacesUnbraced(left);
    SpacesUnbraced(right);
    SpacesUnbraced(trail);
    ExpandOne(lead, left + Join(segments) + right, trail);
    PathToSubscript(left, segments, right);
    WrittenIsBare(segments[0], segments[1..]);
    StripPadding(lead, segments[0] + Subscripts(segments[1..]), trail);
  }

  lemma IdentsTail(segments: seq<string>)
    requires Idents(segments) && segments != []
    ensures Ident(segments[0]) && Idents(segments[1..])
  {
  }

  /** The expression is read as its head followed by its other segments. */
  lemma EvaluateReads(expression: string, segments: seq<string>, st: State, extras: map<string, Value>)
    requires Writes(expression, segments) && Idents(segments) && segments[0] !in KEYWORDS
    ensures Evaluate(expression, st, extras) == Items(EvalName(segments[0], st, extras), segments[1..])
  {
    var lead, left, right, trail :|
      && segments != [] && AllSpace(lead) && AllSpace(left) && AllSpace(right) && AllSpace(trail)
      && expression == lead + Braced(left + Join(segments) + right) + trail;
    ExpandPath(lead, left, segments, right, trail);
    IdentsTail(segments);
    WrittenReads(segments[0], segments[1..], st, extras);
  }

  /** Apart from the two names bound to whole dictionaries, a name is the variable of that name. */
  lemma NameIsVariable(name: string, st: State, extras: map<string, Value>)
    requires Ident(name) && name !in extras && name != "variables" && name != "node_results"
    ensures Named(name, st, extras).Some? ==> Named(name, st, extras).value == Get(st.variables, name)
    ensures Named(name, st, extras).None? ==> Get(st.variables, name).Null?
  {
    if !HasKey(st.variables, name) {
      assert IndexFrom(st.variables, name, 0) == |st.variables|;
    }
  }

  /** What an expression finds is what a walk without the safety check finds. */
  lemma EvaluateFollows(expression: string, segments: seq<string>, st: State, extras: map<string, Value>, v: Value)
    requires Writes(expression, segments) && Idents(segments) && segments[0] !in KEYWORDS && segments[0] !in extras
    requires segments[0] != "variables" && segments[0] != "node_results"
    ensures Finds(Evaluate(expression, st, extras), v) <==> !v.Null? && Follow(Record(st.variables), segments) == v
  {
    EvaluateReads(expression, segments, st, extras);
    NameIsVariable(segments[0], st, extras);
    ItemsFollow(EvalName(segments[0], st, extras), segments[1..], v);
    FollowNull(segments[1..]);
  }

  lemma FollowNull(segments: seq<string>)
    ensures Follow(Null, segments) == Null
  {
  }

  /**
   * On safe identifier paths a condition finds exactly the value a template resolves, lastOutput
   * included, unless the head is `variables`, `node_results` or `state`.
   */
  lemma MustacheMeansPath(expression: string, segments: seq<string>, st: State, extras: map<string, Value>, v: Value)
    requires Writes(expression, segments) && Idents(segments) && segments[0] !in KEYWORDS && segments[0] !in extras
    requires segments[0] !in {"variables", "node_results", "state"}
    requires forall i :: 0 <= i < |segments| ==> Safe(segments[i])
    ensures Finds(Evaluate(expression, st, extras), v) <==> !v.Null? && ValueOf(segments, st) == v
  {
    EvaluateFollows(expression, segments, st, extras, v);
    WalkIsSafeFollow(Record(st.variables), segments);
  }

  /** With an unsafe segment the template finds nothing, while the condition still follows the path. */
  lemma UnsafeStillEvaluates(expression: string, segments: seq<string>, st: State, extras: map<string, Value>, v: Value)
    requires Writes(expression, segments) && Idents(segments) && segments[0] !in KEYWORDS && segments[0] !in extras
    requires segments[0] !in {"variables", "node_results", "state"}
    requires exists i :: 0 <= i < |segments| && !Safe(segments[i])
    ensures ValueOf(segments, st).Null?
    ensures !v.Null? && Follow(Record(st.variables), segments) == v ==> Evaluate(expression, st, extras) == Got(v)
  {
    EvaluateFollows(expression, segments, st, extras, v);
    WalkIsSafeFollow(Record(st.variables), segments);
  }

  /** On identifier paths with an ordinary head the two agree unless an unsafe path leads somewhere. */
  lemma ConditionAgreesIff(expression: string, segments: seq<string>, st: State, extras: map<string, Value>)
    requires Writes(expression, segments) && Idents(segments) && segments[0] !in KEYWORDS && segments[0] !in extras
    requires segments[0] !in {"variables", "node_results", "state"}
    ensures (forall v :: Finds(Evaluate(expression, st, extras), v) <==> !v.Null? && ValueOf(segments, st) == v) <==>
            (forall i :: 0 <= i < |segments| ==> Safe(segments[i])) || Follow(Record(st.variables), segments).Null?
  {
    var found := Follow(Record(st.variables), segments);
    forall v ensures Finds(Evaluate(expression, st, extras), v) <==> !v.Null? && found == v {
      EvaluateFollows(expression, segments, st, extras, v);
    }
    WalkIsSafeFollow(Record(st.variables), segments);
    assert !found.Null? ==> Finds(Evaluate(expression, st, extras), found);
  }

  /** Under the two names bound to whole dictionaries a condition follows the other segments from there. */
  lemma WholeHeadFollows(
    expression: string, segments: seq<string>, st: State, extras: map<string, Value>, v: Value)
    requires Writes(expression, segments) && Idents(segments) && segments[0] !in extras
    requires segments[0] == "variables" || segments[0] == "node_results"
    ensures var root := if segments[0] == "variables" then st.variables else st.nodeResults;
            Finds(Evaluate(expression, st, extras), v) <==> !v.Null? && Follow(Record(root), segments[1..]) == v
  {
    EvaluateReads(expression, segments, st, extras);
    ItemsFollow(EvalName(segments[0], st, extras), segments[1..], v);
  }

  /** The condition {{variables}} finds all the variables, which no variable's value is. */
  lemma VariablesHeadDisagrees(expression: string, st: State, extras: map<string, Value>)
    requires Writes(expression, ["variables"]) && "variables" !in extras
    ensures Evaluate(expression, st, extras) == Got(Record(st.variables))
    ensures ValueOf(["variables"], st) != Record(st.variables)
  {
    EvaluateReads(expression, ["variables"], st, extras);
    WalkOne(st.variables, "variables");
  }

  lemma WalkOne(d: Dict<Value>, k: string)
    ensures Walk(Record(d), [k]) != Record(d)
  {
    PartIsNotWhole(d, k);
    assert [k][1..] == [];
  }

  lemma PartIsNotWhole(d: Dict<Value>, k: string)
    ensures Get(d, k) != Record(d)
  {
    var i := IndexFrom(d, k, 0);
    if i < |d| {
      assert d[i] < Record(d);
      assert d[i].value < d[i];
    }
  }

  /** A path a template resolves through `state` fails as a condition unless a variable is called state. */
  lemma StateHeadFails(expression: string, segments: seq<string>, st: State, extras: map<string, Value>)
    requires Writes(expression, segments) && Idents(segments) && segments[0] == "state" && "state" !in extras
    requires !HasKey(st.variables, "state")
    ensures Evaluate(expression, st, extras) == Failed
  {
    EvaluateReads(expression, segments, st, extras);
    FailedStays(segments[1..]);
  }

  lemma {:induction false} FailedStays(keys: seq<string>)
    ensures Items(Failed, keys) == Failed
  {
    if keys != [] {
      FailedStays(keys[1..]);
    }
  }
}
