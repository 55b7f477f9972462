/**
 * Path templates and the router (web_framework.py, class Router).
 *
 * A template such as `/users/{user_id}` is a list of tokens: literal text and
 * named placeholders. The source turns each placeholder into the regular
 * expression `(?P<name>[^/]+)` and anchors the whole with `^...$`; here the
 * matcher over tokens follows that regular expression's semantics: literal
 * text verbatim, a placeholder a non-empty run of non-`/` characters taken
 * greedily with backtracking, and `$` accepting the end of the path or a final
 * newline.
 */
module Routing {
  import opened Wrappers
  import opened Dicts
  import opened Json
  import opened Errors
  import opened Messages

  datatype Token = Lit(text: string) | Param(name: string)

  predicate IsIdentStart(c: char) { ('a' <= c <= 'z') || ('A' <= c <= 'Z') || c == '_' }

  predicate IsIdentChar(c: char) { IsIdentStart(c) || ('0' <= c <= '9') }

  /** `[a-zA-Z_][a-zA-Z0-9_]*` */
  predicate IsIdent(s: string)
  {
    |s| > 0 && IsIdentStart(s[0]) && forall i :: 0 <= i < |s| ==> IsIdentChar(s[i])
  }

  /** Length of the longest prefix of identifier characters. */
  function IdentPrefix(t: string): (n: nat)
    ensures n <= |t| && (forall i :: 0 <= i < n ==> IsIdentChar(t[i])) && (n < |t| ==> !IsIdentChar(t[n]))
  {
    if t != [] && IsIdentChar(t[0]) then 1 + IdentPrefix(t[1..]) else 0
  }

  /** Length of a placeholder `{ident}` at the start of `t`; 0 when there is none. */
  function PlaceholderLen(t: string): (n: nat)
    ensures n == 0 || (3 <= n <= |t| && t[0] == '{' && t[n - 1] == '}' && IsIdent(t[1..n - 1]))
  {
    if |t| >= 3 && t[0] == '{' && IsIdentStart(t[1]) then
      var k := IdentPrefix(t[1..]);
      if k + 1 < |t| && t[k + 1] == '}' then k + 2 else 0
    else 0
  }

  /** Adds one literal character in front of a token list, merging it into a leading literal. */
  function PushChar(c: char, ts: seq<Token>): seq<Token>
  {
    if ts != [] && ts[0].Lit? then [Lit([c] + ts[0].text)] + ts[1..] else [Lit([c])] + ts
  }

  /**
   * The tokens of a template, as `re.sub(r'\{([a-zA-Z_][a-zA-Z0-9_]*)\}', ...)`
   * finds placeholders: scanning left to right, a `{` that does not open a
   * well-formed placeholder is literal text.
   */
  function Tokenize(t: string): seq<Token>
    decreases |t|
  {
    if t == [] then []
    else
      var n := PlaceholderLen(t);
      if n > 0 then [Param(t[1..n - 1])] + Tokenize(t[n..])
      else PushChar(t[0], Tokenize(t[1..]))
  }

  /** The template text of a token list. */
  function Source(ts: seq<Token>): string
  {
    if ts == [] then []
    else
      TokenSource(ts[0]) + Source(ts[1..])
  }

  function TokenSource(tok: Token): string
  {
    match tok
    case Lit(s) => s
    case Param(n) => "{" + n + "}"
  }

  function ParamNames(ts: seq<Token>): (ns: seq<string>)
    ensures |ns| <= |ts|
  {
    if ts == [] then [] else (if ts[0].Param? then [ts[0].name] else []) + ParamNames(ts[1..])
  }

  /**
   * `re.compile(f"^{pattern}$")` of the rewritten template: None where Python
   * raises because a placeholder name repeats.
   */
  function Compile(template: string): Option<seq<Token>>
  {
    var ts := Tokenize(template);
    if Distinct(ParamNames(ts)) then Some(ts) else None
  }

  // ---------------------------------------------------------------------------
  // Tokenizing: nothing of the template is lost
  // ---------------------------------------------------------------------------

  lemma SourcePushChar(c: char, ts: seq<Token>)
    ensures Source(PushChar(c, ts)) == [c] + Source(ts)
  {
    if ts != [] && ts[0].Lit? {
      assert PushChar(c, ts)[1..] == ts[1..];
    }
  }

  /** Rendering the tokens of a template gives the template back. */
  lemma {:induction false} TokenizeSource(t: string)
    ensures Source(Tokenize(t)) == t
    decreases |t|
  {
    if t != [] {
      var n := PlaceholderLen(t);
      if n > 0 {
        TokenizeSource(t[n..]);
        SourcePlaceholderStep(t, n);
      } else {
        TokenizeSource(t[1..]);
        SourceLiteralStep(t);
      }
    }
  }

  lemma SourcePlaceholderStep(t: string, n: nat)
    requires 0 < n == PlaceholderLen(t)
    requires Source(Tokenize(t[n..])) == t[n..]
    ensures Source(Tokenize(t)) == t
  {
    var rest := Tokenize(t[n..]);
    assert Tokenize(t) == [Param(t[1..n - 1])] + rest;
    SourceCons(Param(t[1..n - 1]), rest);
    Braced(t, n);
  }

  lemma SourceCons(tok: Token, rest: seq<Token>)
    ensures Source([tok] + rest) == TokenSource(tok) + Source(rest)
  {
    assert ([tok] + rest)[1..] == rest;
  }

  lemma Braced(t: string, n: nat)
    requires 3 <= n <= |t| && t[0] == '{' && t[n - 1] == '}'
    ensures t == "{" + t[1..n - 1] + "}" + t[n..]
  {
    assert t[..1] == "{" && t[n - 1..n] == "}";
    assert t == t[..1] + t[1..n - 1] + t[n - 1..n] + t[n..];
  }

  lemma SourceLiteralStep(t: string)
    requires t != [] && PlaceholderLen(t) == 0
    requires Source(Tokenize(t[1..])) == t[1..]
    ensures Source(Tokenize(t)) == t
  {
    assert Tokenize(t) == PushChar(t[0], Tokenize(t[1..]));
    SourcePushChar(t[0], Tokenize(t[1..]));
    assert t == [t[0]] + t[1..];
  }

  /**
   * Token lists in the form tokenizing produces: literals non-empty, without
   * `{`, never two in a row; placeholder names are identifiers.
   */
  predicate WellFormed(ts: seq<Token>)
  {
    forall i :: 0 <= i < |ts| ==> TokenOk(ts, i)
  }

  predicate TokenOk(ts: seq<Token>, i: nat)
    requires i < |ts|
  {
    match ts[i]
    case Lit(s) => s != [] && '{' !in s && (i + 1 < |ts| ==> ts[i + 1].Param?)
    case Param(n) => IsIdent(n)
  }

  lemma {:induction false} TokenizeLiteral(s: string, u: string)
    requires s != [] && '{' !in s
    requires Tokenize(u) == [] || Tokenize(u)[0].Param?
    ensures Tokenize(s + u) == [Lit(s)] + Tokenize(u)
    decreases |s|
  {
    TokenizeLiteralStep(s, u);
    if |s| > 1 {
      TokenizeLiteral(s[1..], u);
      PushCharLit(s[0], s[1..], Tokenize(u));
      assert [s[0]] + s[1..] == s;
    } else {
      assert s[1..] + u == u;
      assert [s[0]] == s;
    }
  }

  /** A character that is not `{` is literal text in front of what follows. */
  lemma TokenizeLiteralStep(s: string, u: string)
    requires s != [] && s[0] != '{'
    ensures Tokenize(s + u) == PushChar(s[0], Tokenize(s[1..] + u))
  {
    var t := s + u;
    assert t[0] == s[0];
    assert PlaceholderLen(t) == 0;
    assert t[1..] == s[1..] + u;
  }

  lemma PushCharLit(c: char, x: string, tail: seq<Token>)
    ensures PushChar(c, [Lit(x)] + tail) == [Lit([c] + x)] + tail
  {
    assert ([Lit(x)] + tail)[1..] == tail;
  }

  lemma IdentPrefixOf(n: string, u: string)
    requires IsIdent(n)
    ensures IdentPrefix(n + "}" + u) == |n|
    decreases |n|
  {
    if |n| > 1 {
      assert (n + "}" + u)[1..] == n[1..] + "}" + u;
      assert IsIdent(n[1..]) || !IsIdentStart(n[1]);
      IdentTail(n, u);
    }
  }

  lemma IdentTail(n: string, u: string)
    requires |n| > 0 && forall i :: 0 <= i < |n| ==> IsIdentChar(n[i])
    ensures IdentPrefix(n + "}" + u) == |n|
    decreases |n|
  {
    assert (n + "}" + u)[0] == n[0];
    if |n| > 1 {
      assert (n + "}" + u)[1..] == n[1..] + "}" + u;
      IdentTail(n[1..], u);
    } else {
      assert (n + "}" + u)[1..] == "}" + u;
    }
  }

  lemma TokenizePlaceholder(n: string, u: string)
    requires IsIdent(n)
    ensures Tokenize("{" + n + "}" + u) == [Param(n)] + Tokenize(u)
  {
    var t := "{" + n + "}" + u;
    assert t[1..] == n + "}" + u;
    IdentTail(n, u);
    assert t[|n| + 1] == '}';
    assert PlaceholderLen(t) == |n| + 2;
    assert t[1..|n| + 1] == n;
    assert t[|n| + 2..] == u;
  }

  /** Tokenizing the text of a well-formed token list gives the list back. */
  lemma {:induction false} SourceTokenize(ts: seq<Token>)
    requires WellFormed(ts)
    ensures Tokenize(Source(ts)) == ts
  {
    if ts != [] {
      assert WellFormed(ts[1..]) by {
        forall i | 0 <= i < |ts[1..]| ensures TokenOk(ts[1..], i) {
          assert TokenOk(ts, i + 1);
          assert ts[1..][i] == ts[i + 1];
          if i + 1 < |ts[1..]| {
            assert ts[1..][i + 1] == ts[i + 2];
          }
        }
      }
      assert TokenOk(ts, 0);
      SourceTokenize(ts[1..]);
      match ts[0]
      case Lit(s) =>
        TokenizeLiteral(s, Source(ts[1..]));
      case Param(n) =>
        TokenizePlaceholder(n, Source(ts[1..]));
        assert Source(ts) == "{" + n + "}" + Source(ts[1..]);
    }
  }

  // ---------------------------------------------------------------------------
  // Matching: `pattern.match(path)` and `match.groupdict()`
  // ---------------------------------------------------------------------------

  /** How many characters before the next `/` (what `[^/]+` can take). */
  function SegmentRun(s: string): (n: nat)
    ensures n <= |s| && (forall i :: 0 <= i < n ==> s[i] != '/') && (n < |s| ==> s[n] == '/')
  {
    if s != [] && s[0] != '/' then 1 + SegmentRun(s[1..]) else 0
  }

  /** Where `$` matches: at the end, or before a newline that ends the string. */
  predicate AtEnd(s: string) { s == [] || s == "\n" }

  /** The captures of matching the remaining tokens against the remaining text. */
  function MatchRest(ts: seq<Token>, s: string): Option<Dict<string, string>>
    decreases |ts|, |s| + 1
  {
    if ts == [] then (if AtEnd(s) then Some([]) else None)
    else match ts[0]
      case Lit(lit) =>
        if |lit| <= |s| && s[..|lit|] == lit then MatchRest(ts[1..], s[|lit|..]) else None
      case Param(name) => TryRun(name, ts[1..], s, SegmentRun(s))
  }

  /** A placeholder tries the longest run first, then ever shorter ones, down to one character. */
  function TryRun(name: string, rest: seq<Token>, s: string, k: nat): Option<Dict<string, string>>
    requires k <= |s|
    decreases |rest| + 1, k
  {
    if k == 0 then None
    else match MatchRest(rest, s[k..])
      case Some(caps) => Some([(name, s[..k])] + caps)
      case None => TryRun(name, rest, s, k - 1)
  }

  /** `re.match(compiled, path)`, with the group dictionary on success. */
  function Match(ts: seq<Token>, path: string): Option<Dict<string, string>>
  {
    MatchRest(ts, path)
  }

  /** The text of a template with its placeholders replaced, in order, by `vals`. */
  function Fill(ts: seq<Token>, vals: seq<string>): string
    requires |vals| == |ParamNames(ts)|
  {
    if ts == [] then []
    else match ts[0]
      case Lit(s) => s + Fill(ts[1..], vals)
      case Param(_) => vals[0] + Fill(ts[1..], vals[1..])
  }

  /** What a placeholder can bind: a non-empty run without `/`. */
  predicate IsSegment(v: string) { v != [] && '/' !in v }

  /** Every value is a non-empty run without `/`. */
  predicate AllSegments(vals: seq<string>)
  {
    forall v :: v in vals ==> IsSegment(v)
  }

  /**
   * `caps` accounts for `s` under the template: named by its placeholders in
   * order, each a segment, and the template filled with them is `s` (or `s`
   * less a final newline, as `$` allows).
   */
  ghost predicate Explains(ts: seq<Token>, s: string, caps: Dict<string, string>)
  {
    Keys(caps) == ParamNames(ts) && AllSegments(Values(caps)) &&
    (s == Fill(ts, Values(caps)) || s == Fill(ts, Values(caps)) + "\n")
  }

  /** A match is of the whole path, and its captures account for it. */
  lemma {:induction false} MatchSound(ts: seq<Token>, s: string)
    requires MatchRest(ts, s).Some?
    ensures Explains(ts, s, MatchRest(ts, s).value)
    decreases |ts|, |s| + 1
  {
    if ts == [] {
      ExplainsEnd(s);
    } else {
      assert ts == [ts[0]] + ts[1..];
      match ts[0]
      case Lit(lit) =>
        MatchSound(ts[1..], s[|lit|..]);
        ExplainsLit(lit, ts[1..], s, MatchRest(ts[1..], s[|lit|..]).value);
      case Param(name) =>
        TryRunSound(name, ts[1..], s, SegmentRun(s));
    }
  }

  lemma ExplainsEnd(s: string)
    requires AtEnd(s)
    ensures Explains([], s, [])
  {
    assert Fill([], []) == [];
  }

  lemma ExplainsLit(lit: string, rest: seq<Token>, s: string, caps: Dict<string, string>)
    requires |lit| <= |s| && s[..|lit|] == lit && Explains(rest, s[|lit|..], caps)
    ensures Explains([Lit(lit)] + rest, s, caps)
  {
    var ts := [Lit(lit)] + rest;
    assert ts[1..] == rest;
    assert ParamNames(ts) == ParamNames(rest);
    assert Fill(ts, Values(caps)) == lit + Fill(rest, Values(caps));
    assert s == lit + s[|lit|..];
  }

  lemma ExplainsParam(name: string, rest: seq<Token>, s: string, k: nat, caps: Dict<string, string>)
    requires 0 < k <= |s| && (forall i :: 0 <= i < k ==> s[i] != '/') && Explains(rest, s[k..], caps)
    ensures Explains([Param(name)] + rest, s, [(name, s[..k])] + caps)
  {
    var ts := [Param(name)] + rest;
    assert ts[1..] == rest;
    var all := [(name, s[..k])] + caps;
    assert Values(all) == [s[..k]] + Values(caps);
    assert Values(all)[1..] == Values(caps);
    assert Keys(all) == [name] + Keys(caps);
    assert '/' !in s[..k];
    assert Fill(ts, Values(all)) == s[..k] + Fill(rest, Values(caps));
    assert s == s[..k] + s[k..];
  }

  lemma {:induction false} TryRunSound(name: string, rest: seq<Token>, s: string, k: nat)
    requires k <= |s| && (forall i :: 0 <= i < k ==> s[i] != '/')
    requires TryRun(name, rest, s, k).Some?
    ensures Explains([Param(name)] + rest, s, TryRun(name, rest, s, k).value)
    decreases |rest| + 1, k
  {
    match MatchRest(rest, s[k..])
    case Some(caps) =>
      MatchSound(rest, s[k..]);
      ExplainsParam(name, rest, s, k, caps);
    case None =>
      TryRunSound(name, rest, s, k - 1);
  }

  /** Every placeholder ends its segment: it is last, or a literal starting with `/` follows. */
  predicate Aligned(ts: seq<Token>)
  {
    forall i :: 0 <= i < |ts| && ts[i].Param? ==>
      i + 1 == |ts| || (ts[i + 1].Lit? && ts[i + 1].text != [] && ts[i + 1].text[0] == '/')
  }

  function Zip(names: seq<string>, vals: seq<string>): (d: Dict<string, string>)
    requires |names| == |vals|
    ensures |d| == |names| && forall i :: 0 <= i < |d| ==> d[i] == (names[i], vals[i])
  {
    if names == [] then [] else [(names[0], vals[0])] + Zip(names[1..], vals[1..])
  }

  /**
   * A path made by filling an aligned template with segments matches it, and
   * the captures are exactly those segments under the placeholder names.
   */
  lemma {:induction false} MatchComplete(ts: seq<Token>, vals: seq<string>)
    requires Aligned(ts) && |vals| == |ParamNames(ts)| && forall v :: v in vals ==> IsSegment(v)
    ensures Match(ts, Fill(ts, vals)) == Some(Zip(ParamNames(ts), vals))
  {
    if ts != [] {
      var rest := ts[1..];
      assert Aligned(rest) by {
        forall i | 0 <= i < |rest| && rest[i].Param? ensures
          i + 1 == |rest| || (rest[i + 1].Lit? && rest[i + 1].text != [] && rest[i + 1].text[0] == '/')
        {
          assert rest[i] == ts[i + 1];
        }
      }
      match ts[0]
      case Lit(lit) =>
        assert ParamNames(ts) == ParamNames(rest);
        MatchComplete(rest, vals);
        var s := Fill(ts, vals);
        assert s == lit + Fill(rest, vals);
        assert s[..|lit|] == lit && s[|lit|..] == Fill(rest, vals);
        assert MatchRest(ts, s) == MatchRest(rest, s[|lit|..]);
      case Param(name) =>
        var v := vals[0];
        assert v in vals;
        MatchComplete(rest, vals[1..]);
        var s := Fill(ts, vals);
        var tail := Fill(rest, vals[1..]);
        assert s == v + tail;
        assert ParamNames(ts) == [name] + ParamNames(rest);
        if rest != [] {
          assert ts[0].Param?;
          FillStartsWithSlash(rest, vals[1..]);
        }
        SegmentRunOf(v, tail);
        assert s[|v|..] == tail && s[..|v|] == v;
        var names := ParamNames(ts);
        assert names[1..] == ParamNames(rest);
        assert Zip(names, vals) == [(name, v)] + Zip(ParamNames(rest), vals[1..]);
        assert MatchRest(rest, s[|v|..]) == Some(Zip(ParamNames(rest), vals[1..]));
        assert TryRun(name, rest, s, |v|) == Some([(name, s[..|v|])] + Zip(ParamNames(rest), vals[1..]));
        assert MatchRest(ts, s) == TryRun(name, rest, s, SegmentRun(s));
    }
  }

  lemma FillStartsWithSlash(ts: seq<Token>, vals: seq<string>)
    requires |vals| == |ParamNames(ts)|
    requires ts != [] && ts[0].Lit? && ts[0].text != [] && ts[0].text[0] == '/'
    ensures Fill(ts, vals) != [] && Fill(ts, vals)[0] == '/'
  {
  }

  lemma {:induction false} SegmentRunOf(v: string, tail: string)
    requires '/' !in v && (tail == [] || tail[0] == '/')
    ensures SegmentRun(v + tail) == |v|
    decreases |v|
  {
    if v == [] {
      assert v + tail == tail;
    } else {
      assert (v + tail)[1..] == v[1..] + tail;
      SegmentRunOf(v[1..], tail);
    }
  }

  // ---------------------------------------------------------------------------
  // The route table and dispatch
  // ---------------------------------------------------------------------------

  datatype Route<H> = Route(pattern: seq<Token>, handler: H)

  /** `self.routes`: per method, the compiled routes in registration order. */
  type RouteTable<H> = map<string, seq<Route<H>>>

  /** The first route of the list that matches, with its position and captures. */
  function FirstMatch<H>(routes: seq<Route<H>>, path: string): (r: Option<(nat, Dict<string, string>)>)
    ensures r.Some? ==> (r.value.0 < |routes| && Match(routes[r.value.0].pattern, path) == Some(r.value.1) &&
      forall j :: 0 <= j < r.value.0 ==> Match(routes[j].pattern, path).None?)
    ensures r.None? ==> forall j :: 0 <= j < |routes| ==> Match(routes[j].pattern, path).None?
  {
    if routes == [] then None
    else match Match(routes[0].pattern, path)
      case Some(caps) => Some((0, caps))
      case None =>
        match FirstMatch(routes[1..], path)
        case None => None
        case Some((i, caps)) => Some((i + 1, caps))
  }

  /** What `dispatch` does: run a handler on the request with its path parameters, or answer 404. */
  datatype Dispatched<H> = Handle(handler: H, request: Request) | NotFound(response: Response)

  /** `dispatch`, as a function of the table and the request. */
  function Resolve<H>(table: RouteTable<H>, request: Request, dumps: Json -> string): Dispatched<H>
  {
    if request.httpMethod in table then
      match FirstMatch(table[request.httpMethod], request.path)
      case Some((i, caps)) => Handle(table[request.httpMethod][i].handler, request.(pathParams := caps))
      case None => NotFound(NotFoundResponse(dumps))
    else NotFound(NotFoundResponse(dumps))
  }

  /**
   * First match wins: a request goes to the earliest route registered for its
   * method whose template matches its path, with exactly that route's captures
   * as path parameters and nothing else of the request changed; when the method
   * has no routes or none matches, the answer is the 404 and no handler runs.
   */
  lemma ResolveFirstMatch<H>(table: RouteTable<H>, request: Request, dumps: Json -> string)
    ensures var routes := if request.httpMethod in table then table[request.httpMethod] else [];
      match Resolve(table, request, dumps)
      case Handle(h, req) =>
        exists i :: 0 <= i < |routes| && Match(routes[i].pattern, request.path).Some? &&
          (forall j :: 0 <= j < i ==> Match(routes[j].pattern, request.path).None?) &&
          h == routes[i].handler && req == request.(pathParams := Match(routes[i].pattern, request.path).value)
      case NotFound(resp) =>
        resp == NotFoundResponse(dumps) &&
        forall j :: 0 <= j < |routes| ==> Match(routes[j].pattern, request.path).None?
  {
    if request.httpMethod in table {
      var routes := table[request.httpMethod];
      match FirstMatch(routes, request.path)
      case Some((i, caps)) =>
        assert Match(routes[i].pattern, request.path).Some?;
      case None =>
    }
  }

  /** `self.routes.setdefault(method, []).append(...)`: the list is created even when compiling fails. */
  function Register<H>(table: RouteTable<H>, httpMethod: string, compiled: Option<seq<Token>>, handler: H): RouteTable<H>
  {
    var list := if httpMethod in table then table[httpMethod] else [];
    table[httpMethod := if compiled.Some? then list + [Route(compiled.value, handler)] else list]
  }

  /**
   * Registering a route leaves every other method's list alone, and a path that
   * already resolved for that method still resolves to the same route: a later
   * registration only catches paths no earlier route matched.
   */
  lemma RegisterKeepsEarlier<H>(table: RouteTable<H>, httpMethod: string, compiled: Option<seq<Token>>,
                                handler: H, path: string)
    ensures var t := Register(table, httpMethod, compiled, handler);
      t.Keys == table.Keys + {httpMethod} &&
      (forall m :: m in table && m != httpMethod ==> t[m] == table[m]) &&
      var before := if httpMethod in table then table[httpMethod] else [];
      t[httpMethod][..|before|] == before &&
      (FirstMatch(before, path).Some? ==> FirstMatch(t[httpMethod], path) == FirstMatch(before, path))
  {
    var before := if httpMethod in table then table[httpMethod] else [];
    var after := Register(table, httpMethod, compiled, handler)[httpMethod];
    if compiled.Some? && FirstMatch(before, path).Some? {
      FirstMatchPrefix(before, [Route(compiled.value, handler)], path);
    }
  }

  lemma {:induction false} FirstMatchPrefix<H>(a: seq<Route<H>>, b: seq<Route<H>>, path: string)
    requires FirstMatch(a, path).Some?
    ensures FirstMatch(a + b, path) == FirstMatch(a, path)
  {
    assert (a + b)[0] == a[0];
    if Match(a[0].pattern, path).None? {
      assert (a + b)[1..] == a[1..] + b;
      FirstMatchPrefix(a[1..], b, path);
    }
  }

  /** The router of web_framework.py: a routing table that registration extends in place. */
  class Router<H> {
    var routes: RouteTable<H>

    constructor ()
      ensures routes == map[]
    {
      routes := map[];
    }

    /** `_add_route`: compile the template and append the route for its method; false where Python raises. */
    method AddRoute(httpMethod: string, path: string, handler: H) returns (ok: bool)
      modifies this
      ensures ok == Compile(path).Some?
      ensures routes == Register(old(routes), httpMethod, Compile(path), handler)
    {
      var list := if httpMethod in routes then routes[httpMethod] else [];
      routes := routes[httpMethod := list];
      var compiled := Compile(path);
      ok := compiled.Some?;
      if ok {
        routes := routes[httpMethod := list + [Route(compiled.value, handler)]];
      }
    }

    /** `get(path)(handler)`: registers under GET and hands the handler back. */
    method Get(path: string, handler: H) returns (r: Result<H, Error>)
      modifies this
      ensures r == (if Compile(path).Some? then Success(handler) else Failure(PatternError))
      ensures routes == Register(old(routes), "GET", Compile(path), handler)
    {
      r := Decorate("GET", path, handler);
    }

    method Post(path: string, handler: H) returns (r: Result<H, Error>)
      modifies this
      ensures r == (if Compile(path).Some? then Success(handler) else Failure(PatternError))
      ensures routes == Register(old(routes), "POST", Compile(path), handler)
    {
      r := Decorate("POST", path, handler);
    }

    method Put(path: string, handler: H) returns (r: Result<H, Error>)
      modifies this
      ensures r == (if Compile(path).Some? then Success(handler) else Failure(PatternError))
      ensures routes == Register(old(routes), "PUT", Compile(path), handler)
    {
      r := Decorate("PUT", path, handler);
    }

    method Patch(path: string, handler: H) returns (r: Result<H, Error>)
      modifies this
      ensures r == (if Compile(path).Some? then Success(handler) else Failure(PatternError))
      ensures routes == Register(old(routes), "PATCH", Compile(path), handler)
    {
      r := Decorate("PATCH", path, handler);
    }

    method Delete(path: string, handler: H) returns (r: Result<H, Error>)
      modifies this
      ensures r == (if Compile(path).Some? then Success(handler) else Failure(PatternError))
      ensures routes == Register(old(routes), "DELETE", Compile(path), handler)
    {
      r := Decorate("DELETE", path, handler);
    }

    /** The decorator the five verb methods return, applied to `handler`. */
    method Decorate(httpMethod: string, path: string, handler: H) returns (r: Result<H, Error>)
      modifies this
      ensures r == (if Compile(path).Some? then Success(handler) else Failure(PatternError))
      ensures routes == Register(old(routes), httpMethod, Compile(path), handler)
    {
      var ok := AddRoute(httpMethod, path, handler);
      r := if ok then Success(handler) else Failure(PatternError);
    }

    /**
     * `dispatch`: scan the method's routes in order and stop at the first
     * match, handing back its handler and the request with the captures as
     * path parameters; otherwise the 404.
     */
    method Dispatch(request: Request, dumps: Json -> string) returns (r: Dispatched<H>)
      ensures r == Resolve(routes, request, dumps)
    {
      if request.httpMethod in routes {
        var list := routes[request.httpMethod];
        var i := 0;
        while i < |list|
          invariant 0 <= i <= |list|
          invariant forall j :: 0 <= j < i ==> Match(list[j].pattern, request.path).None?
        {
          var m := Match(list[i].pattern, request.path);
          if m.Some? {
            FirstMatchIsFirst(list, request.path, i);
            return Handle(list[i].handler, request.(pathParams := m.value));
          }
          i := i + 1;
        }
        FirstMatchNone(list, request.path);
      }
      return NotFound(NotFoundResponse(dumps));
    }
  }

  lemma FirstMatchIsFirst<H>(routes: seq<Route<H>>, path: string, i: nat)
    requires i < |routes| && Match(routes[i].pattern, path).Some?
    requires forall j :: 0 <= j < i ==> Match(routes[j].pattern, path).None?
    ensures FirstMatch(routes, path) == Some((i, Match(routes[i].pattern, path).value))
  {
    if i > 0 {
      assert Match(routes[0].pattern, path).None?;
      FirstMatchIsFirst(routes[1..], path, i - 1);
    }
  }

  lemma FirstMatchNone<H>(routes: seq<Route<H>>, path: string)
    requires forall j :: 0 <= j < |routes| ==> Match(routes[j].pattern, path).None?
    ensures FirstMatch(routes, path).None?
  {
    if routes != [] {
      FirstMatchNone(routes[1..], path);
    }
  }
}
