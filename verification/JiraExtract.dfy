/** Paginated extraction of issues through opaque page tokens. */
module JiraExtract {
  import opened Wrappers
  import opened Selection

  const PAGE_SIZE := 100

  datatype Issue = Issue(key: Option<string>, fields: Option<string>, changelog: Option<string>)

  /** An output entry; the changelog is present only when asked for. */
  datatype Entry = Entry(key: Option<string>, fields: string, changelog: Option<string>)

  datatype Response = Response(issues: seq<Issue>, next: Option<string>)

  /** What the search answers to its n-th request, for a page token and a maxResults. */
  type Server = (nat, Option<string>, nat) -> Response

  datatype Config = Config(
    domain: string, email: string, apiToken: string, jql: string, expandChangelog: bool, maxIssues: int)

  datatype Output = Misconfigured(missing: seq<string>) | Extracted(issues: seq<Entry>, fetched: nat, truncated: bool)

  function ToEntry(x: Issue, expand: bool): Entry {
    Entry(
      x.key,
      if x.fields.Some? then x.fields.value else "{}",
      if !expand then None else if x.changelog.Some? then x.changelog else Some("{}"))
  }

  function Entries(xs: seq<Issue>, expand: bool): (r: seq<Entry>)
    ensures |r| == |xs|
  {
    seq(|xs|, i requires 0 <= i < |xs| => ToEntry(xs[i], expand))
  }

  function Missing(c: Config): seq<string> {
    (if c.domain == "" then ["domain"] else []) + (if c.email == "" then ["email"] else [])
    + (if c.apiToken == "" then ["apiToken"] else []) + (if c.jql == "" then ["jql"] else [])
  }

  /** What the caller sees of an issue. */
  ghost predicate Shows(e: Entry, x: Issue, expand: bool) {
    && e.key == x.key
    && (x.fields.Some? ==> e.fields == x.fields.value) && (x.fields.None? ==> e.fields == "{}")
    && (!expand ==> e.changelog.None?)
    && (expand && x.changelog.Some? ==> e.changelog == x.changelog)
    && (expand && x.changelog.None? ==> e.changelog == Some("{}"))
  }

  function IfEmpty(value: string, name: string): Option<string> {
    if value == "" then Some(name) else None
  }

  /** The required settings that are empty, in the order they are asked for. */
  ghost predicate Lacks(c: Config, missing: seq<string>) {
    Selected(
      [IfEmpty(c.domain, "domain"), IfEmpty(c.email, "email"), IfEmpty(c.apiToken, "apiToken"), IfEmpty(c.jql, "jql")],
      missing)
  }

  lemma FourSelected(a: Option<string>, b: Option<string>, c: Option<string>, d: Option<string>)
    ensures Selected([a, b, c, d], Present(a) + Present(b) + Present(c) + Present(d))
  {
    SelectedNone<string>();
    SelectedNext([], [], a);
    assert [] + [a] == [a] && [] + Present(a) == Present(a);
    SelectedNext([a], Present(a), b);
    assert [a] + [b] == [a, b];
    SelectedNext([a, b], Present(a) + Present(b), c);
    assert [a, b] + [c] == [a, b, c];
    SelectedNext([a, b, c], Present(a) + Present(b) + Present(c), d);
    assert [a, b, c] + [d] == [a, b, c, d];
  }

  lemma MissingAreLacking(c: Config)
    ensures Lacks(c, Missing(c))
  {
    FourSelected(
      IfEmpty(c.domain, "domain"), IfEmpty(c.email, "email"), IfEmpty(c.apiToken, "apiToken"), IfEmpty(c.jql, "jql"));
  }

  /** One request for a page: the token it carries and how many issues it asks for. */
  datatype Request = Request(token: Option<string>, max: nat)

  /** Requests ask for 1 to 100 issues; the first carries no token, every other the one just answered. */
  ghost predicate Paged(asked: seq<Request>, server: Server) {
    && (forall n :: 0 <= n < |asked| ==> 1 <= asked[n].max <= 100)
    && (asked != [] ==> asked[0].token.None?)
    && forall n :: 0 < n < |asked| ==>
        asked[n].token.Some? && asked[n].token == server(n - 1, asked[n - 1].token, asked[n - 1].max).next
  }

  /** The token the next request carries: the one answered last, None before the first. */
  ghost predicate Carries(token: Option<string>, asked: seq<Request>, server: Server) {
    if asked == [] then token.None?
    else
      var last := asked[|asked| - 1];
      token.Some? && token.value != "" && token == server(|asked| - 1, last.token, last.max).next
  }

  lemma PagedNext(asked: seq<Request>, server: Server, r: Request)
    requires Paged(asked, server) && 1 <= r.max <= 100 && Carries(r.token, asked, server)
    ensures Paged(asked + [r], server)
    ensures var next := server(|asked|, r.token, r.max).next;
            next.Some? && next.value != "" ==> Carries(next, asked + [r], server)
  {
  }

  /** The position a request starts from: the beginning without a token. */
  ghost function Start(token: Option<string>, position: string -> nat): nat {
    if token.None? then 0 else position(token.value)
  }

  /**
   * An answer to a request from p: at most max issues from there, some if any remain, and a usable
   * token exactly when more remain.
   */
  ghost predicate HonestAnswer(r: Response, p: nat, max: nat, all: seq<Issue>, position: string -> nat) {
    && p + |r.issues| <= |all| && r.issues == all[p..p + |r.issues|]
    && |r.issues| <= max && (p < |all| ==> r.issues != [])
    && (r.next.Some? <==> p + |r.issues| < |all|)
    && (r.next.Some? ==> r.next.value != "" && position(r.next.value) == p + |r.issues|)
  }

  ghost predicate Honest(server: Server, all: seq<Issue>, position: string -> nat) {
    forall n: nat, token: Option<string>, max: nat :: max >= 1 && Start(token, position) <= |all| ==>
      HonestAnswer(server(n, token, max), Start(token, position), max, all, position)
  }

  function Min(a: int, b: int): int {
    if a < b then a else b
  }

  /** The entries show the first issues, in order. */
  ghost predicate Shown(entries: seq<Entry>, all: seq<Issue>, expand: bool) {
    |entries| <= |all| && forall i :: 0 <= i < |entries| ==> Shows(entries[i], all[i], expand)
  }

  lemma PageExtends(entries: seq<Entry>, page: seq<Issue>, all: seq<Issue>, expand: bool)
    requires Shown(entries, all, expand)
    requires |entries| + |page| <= |all| && page == all[|entries|..|entries| + |page|]
    ensures Shown(entries + Entries(page, expand), all, expand)
  {
  }

  /** Before each request to an honest server: what there is so far, and where the token leads. */
  ghost predicate Sofar(
    entries: seq<Entry>, token: Option<string>, all: seq<Issue>, position: string -> nat, c: Config)
  {
    && Shown(entries, all, c.expandChangelog) && |entries| <= c.maxIssues
    && Start(token, position) == |entries| && (token.None? <==> entries == [])
    && (token.Some? ==> |entries| < |all| && token.value != "")
  }

  /** The whole of what an honest server lets one see. */
  ghost predicate Complete(entries: seq<Entry>, truncated: bool, all: seq<Issue>, c: Config) {
    && |entries| == (if |all| < c.maxIssues then |all| else c.maxIssues)
    && (forall i :: 0 <= i < |entries| ==> Shows(entries[i], all[i], c.expandChangelog))
    && (truncated <==> |all| > c.maxIssues)
  }

  lemma PageAdvances(
    entries: seq<Entry>, token: Option<string>, all: seq<Issue>, position: string -> nat, c: Config, server: Server,
    n: nat, max: nat)
    requires Honest(server, all, position) && Sofar(entries, token, all, position, c)
    requires 1 <= max <= c.maxIssues - |entries|
    ensures var r := server(n, token, max);
            var now := entries + Entries(r.issues, c.expandChangelog);
            if r.issues == [] || r.next.None? || r.next.value == "" then Complete(now, false, all, c)
            else Sofar(now, r.next, all, position, c)
  {
    var r := server(n, token, max);
    assert HonestAnswer(r, |entries|, max, all, position);
    PageExtends(entries, r.issues, all, c.expandChangelog);
  }

  /**
   * Ends against every server; against an honest one it gives the first issues in order, as many as
   * there are up to the limit, and says truncated exactly when there were more.
   */
  method RunExtract(c: Config, server: Server, ghost all: seq<Issue>, ghost position: string -> nat)
    returns (out: Output, ghost asked: seq<Request>)
    requires c.maxIssues >= 1
    ensures out.Misconfigured? <==> c.domain == "" || c.email == "" || c.apiToken == "" || c.jql == ""
    ensures out.Misconfigured? ==> asked == [] && Lacks(c, out.missing)
    ensures out.Extracted? ==> out.fetched == |out.issues| && asked != [] && Paged(asked, server)
    ensures out.Extracted? && Honest(server, all, position) ==> Complete(out.issues, out.truncated, all, c)
  {
    asked := [];
    var missing := Missing(c);
    MissingAreLacking(c);
    if missing != [] {
      out := Misconfigured(missing);
      return;
    }
    var issues: seq<Entry>, token: Option<string>, truncated, calls := [], None, false, 0;
    ghost var honest := Honest(server, all, position);
    while true
      invariant !truncated && calls == |asked| && Paged(asked, server) && Carries(token, asked, server)
      invariant asked == [] ==> issues == []
      invariant honest ==> Sofar(issues, token, all, position, c)
      decreases c.maxIssues - |issues|
    {
      var remaining := c.maxIssues - |issues|;
      if remaining <= 0 {
        truncated := token.Some?;
        break;
      }
      var sent := if token.Some? && token.value != "" then token else None;
      var max := Min(PAGE_SIZE, remaining);
      var answer := server(calls, sent, max);
      if honest {
        PageAdvances(issues, sent, all, position, c, server, calls, max);
      }
      PagedNext(asked, server, Request(sent, max));
      asked := asked + [Request(sent, max)];
      calls := calls + 1;
      issues := AppendPage(issues, answer.issues, c.expandChangelog);
      token := answer.next;
      if answer.issues == [] || token.None? || token.value == "" {
        break;
      }
    }
    out := Extracted(issues, |issues|, truncated);
  }

  method AppendPage(issues: seq<Entry>, page: seq<Issue>, expand: bool) returns (r: seq<Entry>)
    ensures r == issues + Entries(page, expand)
  {
    r := issues;
    for i := 0 to |page|
      invariant r == issues + Entries(page[..i], expand)
    {
      r := r + [ToEntry(page[i], expand)];
      assert Entries(page[..i + 1], expand) == Entries(page[..i], expand) + [ToEntry(page[i], expand)];
    }
    assert page[..|page|] == page;
  }
}
