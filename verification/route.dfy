/**
 * Route.php: one registered route. Its path template is compiled once into
 * an anchored pattern where each `{name}` becomes a named group matching one
 * or more characters other than '/', and matching a URI yields the handler,
 * the captured parameters and the route's middleware.
 */
module Routes {
  import opened Php
  import opened Helpers

  // ---------------------------------------------------------------------
  // Templates

  /** One element of a compiled template: a literal character or a named
      parameter. */
  datatype Piece = Lit(c: char) | Param(name: string)

  /** The substitution `{name}` -> `(?P<name>[^/]+)`, scanning left to right:
      a '{' opens a parameter when a '}' follows after at least one character
      (the name runs to the first '}'); any other '{' stays literal. */
  function Parse(path: string): (ps: seq<Piece>)
    ensures forall i :: 0 <= i < |ps| && ps[i].Param? ==> ps[i].name != "" && '}' !in ps[i].name
    decreases |path|
  {
    if path == [] then []
    else if path[0] == '{' then
      match IndexFrom(path, "}", 1)
      case Some(j) =>
        if j > 1 then
          FirstCloseBrace(path, j);
          [Param(path[1..j])] + Parse(path[j + 1..])
        else [Lit('{')] + Parse(path[1..])
      case None => [Lit('{')] + Parse(path[1..])
    else [Lit(path[0])] + Parse(path[1..])
  }

  lemma FirstCloseBrace(path: string, j: nat)
    requires 1 <= |path| && IndexFrom(path, "}", 1) == Some(j)
    ensures j < |path| && path[j] == '}'
    ensures forall i :: 0 <= i < |path[1..j]| ==> path[1..j][i] != '}'
  {
    forall i | 1 <= i < j ensures path[i] != '}' {
      assert !OccursAt(path, "}", i);
      assert path[i..i + 1] == [path[i]];
    }
    assert path[j..j + 1] == "}";
  }

  /** A template made only of literal characters. */
  function Lits(s: string): (ps: seq<Piece>)
    ensures |ps| == |s| && forall i :: 0 <= i < |s| ==> ps[i] == Lit(s[i])
  {
    seq(|s|, i requires 0 <= i < |s| => Lit(s[i]))
  }

  /** Characters that stand for themselves inside the compiled pattern. The
      pattern delimiter '#' and the regular-expression metacharacters do not. */
  predicate PlainChar(c: char) {
    c !in "\\^$.[]|()?*+{}#"
  }

  /** Templates whose literal part this model can match: every literal is a
      plain character. */
  predicate LiteralsPlain(ps: seq<Piece>) {
    forall i :: 0 <= i < |ps| && ps[i].Lit? ==> PlainChar(ps[i].c)
  }

  /** Templates whose parameter names reach the pattern whole: no name holds
      '>', which would end PCRE's group name early and leave the rest of the
      name as pattern text inside the group. */
  predicate NamesUnbroken(ps: seq<Piece>) {
    forall i :: 0 <= i < |ps| && ps[i].Param? ==> '>' !in ps[i].name
  }

  /** The template text a sequence of pieces stands for: each parameter
      written back as `{name}`. */
  function Render(ps: seq<Piece>): string {
    if ps == [] then ""
    else if ps[0].Lit? then [ps[0].c] + Render(ps[1..])
    else "{" + ps[0].name + "}" + Render(ps[1..])
  }

  /** Rendering a non-empty sequence of pieces renders its head first. */
  lemma RenderCons(p: Piece, ps: seq<Piece>)
    ensures Render([p] + ps) == (if p.Lit? then [p.c] else "{" + p.name + "}") + Render(ps)
  {
    assert ([p] + ps)[1..] == ps;
  }

  /** A template that opens with a complete `{name}` parses to that
      parameter followed by the parse of the rest. */
  lemma {:induction false} ParseBraceHead(path: string, j: nat)
    requires path != [] && path[0] == '{' && IndexFrom(path, "}", 1) == Some(j) && j > 1
    ensures j < |path| && Parse(path) == [Param(path[1..j])] + Parse(path[j + 1..])
    ensures path == "{" + path[1..j] + "}" + path[j + 1..]
  {
    FirstCloseBrace(path, j);
  }

  /** Parsing loses nothing: the pieces render back to the template. */
  lemma {:induction false} RenderParse(path: string)
    ensures Render(Parse(path)) == path
    decreases |path|
  {
    if path != [] {
      var close := IndexFrom(path, "}", 1);
      if path[0] == '{' && close.Some? && close.value > 1 {
        var j := close.value;
        ParseBraceHead(path, j);
        RenderParse(path[j + 1..]);
        RenderCons(Param(path[1..j]), Parse(path[j + 1..]));
      } else {
        assert Parse(path) == [Lit(path[0])] + Parse(path[1..]);
        RenderParse(path[1..]);
        RenderCons(Lit(path[0]), Parse(path[1..]));
        assert path == [path[0]] + path[1..];
      }
    }
  }

  /** In `{name}` followed by anything, the first '}' after the opening
      brace is the one that closes the name. */
  lemma CloseAfterName(name: string, rest: string)
    requires name != "" && '}' !in name
    ensures IndexFrom("{" + name + "}" + rest, "}", 1) == Some(|name| + 1)
  {
    var s := "{" + name + "}" + rest;
    var j := |name| + 1;
    assert s[j..j + 1] == "}";
    assert OccursAt(s, "}", j);
    forall i | 1 <= i < j ensures !OccursAt(s, "}", i) {
      assert s[i..i + 1] == [name[i - 1]];
    }
  }

  /** A plain literal character heads the parse of its own rendering. */
  lemma ParseLitHead(c: char, rest: string)
    requires PlainChar(c)
    ensures Parse([c] + rest) == [Lit(c)] + Parse(rest)
  {
    assert ([c] + rest)[1..] == rest;
  }

  /** A rendered parameter heads the parse of its own rendering. */
  lemma ParseParamHead(n: string, rest: string)
    requires n != "" && '}' !in n
    ensures Parse("{" + n + "}" + rest) == [Param(n)] + Parse(rest)
  {
    var s := "{" + n + "}" + rest;
    CloseAfterName(n, rest);
    assert s[1..|n| + 1] == n;
    assert s[|n| + 2..] == rest;
  }

  /** Conversely, pieces whose literals are plain and whose names are
      non-empty and free of '}' are what their rendering parses to. */
  lemma {:induction false} ParseRender(ps: seq<Piece>)
    requires LiteralsPlain(ps)
    requires forall i :: 0 <= i < |ps| && ps[i].Param? ==> ps[i].name != "" && '}' !in ps[i].name
    ensures Parse(Render(ps)) == ps
    decreases |ps|
  {
    if ps != [] {
      var tail := ps[1..];
      assert forall i :: 0 <= i < |tail| ==> tail[i] == ps[i + 1];
      ParseRender(tail);
      if ps[0].Lit? {
        ParseLitHead(ps[0].c, Render(tail));
      } else {
        ParseParamHead(ps[0].name, Render(tail));
      }
      assert ps == [ps[0]] + tail;
    }
  }

  /** A name PCRE accepts for a group: 1 to 32 word characters, not starting
      with a digit. */
  predicate ValidGroupName(n: string) {
    1 <= |n| <= 32 && !IsDigit(n[0]) && forall i :: 0 <= i < |n| ==> IsWordChar(n[i])
  }

  function ParamNames(ps: seq<Piece>): (names: seq<string>)
    ensures |names| <= |ps|
  {
    if ps == [] then []
    else if ps[0].Param? then [ps[0].name] + ParamNames(ps[1..])
    else ParamNames(ps[1..])
  }

  /** The compiled pattern is accepted by PCRE: its group names are valid and
      distinct. Otherwise `preg_match` fails and the route matches nothing. */
  predicate Compiles(ps: seq<Piece>) {
    var names := ParamNames(ps);
    (forall i :: 0 <= i < |names| ==> ValidGroupName(names[i]))
    && (forall i, j :: 0 <= i < j < |names| ==> names[i] != names[j])
  }

  /** A value a `[^/]+` group can capture. */
  predicate ValueOk(v: string) {
    v != "" && '/' !in v
  }

  /** Values for the parameters of a template, one per parameter. */
  predicate Fits(ps: seq<Piece>, vs: seq<string>) {
    |vs| == |ParamNames(ps)| && forall i :: 0 <= i < |vs| ==> ValueOk(vs[i])
  }

  /** The URI a template describes once its parameters are given values. */
  function Instantiate(ps: seq<Piece>, vs: seq<string>): string
    requires |vs| == |ParamNames(ps)|
  {
    if ps == [] then ""
    else if ps[0].Lit? then [ps[0].c] + Instantiate(ps[1..], vs)
    else vs[0] + Instantiate(ps[1..], vs[1..])
  }

  // ---------------------------------------------------------------------
  // Matching, in the order the PCRE backtracking matcher tries things

  /** How many leading characters a `[^/]+` group can take at most. */
  function RunLength(s: string): (n: nat)
    ensures n <= |s| && '/' !in s[..n]
    ensures n < |s| ==> s[n] == '/'
  {
    if s == [] || s[0] == '/' then 0
    else
      var n := RunLength(s[1..]);
      assert s[..n + 1] == [s[0]] + s[1..][..n];
      n + 1
  }

  /** `#^...$#` against `s`: the values of the groups, in order. At the end,
      `$` accepts the end of the subject or a final newline. */
  function MatchFrom(ps: seq<Piece>, s: string): Option<seq<string>>
    decreases |ps|, |s| + 1
  {
    if ps == [] then (if s == "" || s == "\n" then Some([]) else None)
    else if ps[0].Lit? then
      (if s != [] && s[0] == ps[0].c then MatchFrom(ps[1..], s[1..]) else None)
    else TryParam(ps[1..], s, RunLength(s))
  }

  /** A greedy group: take `k` characters, and on failure of the rest give
      one back, down to one character. */
  function TryParam(rest: seq<Piece>, s: string, k: nat): Option<seq<string>>
    requires k <= |s|
    decreases |rest| + 1, k
  {
    if k == 0 then None
    else match MatchFrom(rest, s[k..])
      case Some(vs) => Some([s[..k]] + vs)
      case None => TryParam(rest, s, k - 1)
  }

  /** Whatever matches is the template instantiated with valid values (plus
      perhaps the newline `$` lets through). */
  lemma {:induction false} MatchSound(ps: seq<Piece>, s: string)
    requires MatchFrom(ps, s).Some?
    ensures Fits(ps, MatchFrom(ps, s).value)
    ensures s == Instantiate(ps, MatchFrom(ps, s).value) || s == Instantiate(ps, MatchFrom(ps, s).value) + "\n"
    decreases |ps|, |s| + 1
  {
    if ps != [] {
      if ps[0].Lit? {
        MatchSound(ps[1..], s[1..]);
        assert s == [s[0]] + s[1..];
      } else {
        MatchSoundParam(ps, s);
      }
    }
  }

  lemma {:induction false} MatchSoundParam(ps: seq<Piece>, s: string)
    requires ps != [] && ps[0].Param?
    requires MatchFrom(ps, s).Some?
    ensures Fits(ps, MatchFrom(ps, s).value)
    ensures s == Instantiate(ps, MatchFrom(ps, s).value) || s == Instantiate(ps, MatchFrom(ps, s).value) + "\n"
    decreases |ps|, 0
  {
    var rest := ps[1..];
    var vs := TryParam(rest, s, RunLength(s)).value;
    assert MatchFrom(ps, s).value == vs;
    TryParamSound(rest, s, RunLength(s));
    var v := vs[0];
    var tail := s[|v|..];
    assert MatchFrom(rest, tail) == Some(vs[1..]);
    MatchSound(rest, tail);
    assert ParamNames(ps) == [ps[0].name] + ParamNames(rest);
    assert vs == [v] + vs[1..];
    assert forall i :: 1 <= i < |vs| ==> vs[i] == vs[1..][i - 1];
    assert Instantiate(ps, vs) == v + Instantiate(rest, vs[1..]);
    assert s == v + tail;
  }

  lemma {:induction false} TryParamSound(rest: seq<Piece>, s: string, k: nat)
    requires k <= RunLength(s)
    requires TryParam(rest, s, k).Some?
    ensures var vs := TryParam(rest, s, k).value;
      |vs| >= 1 && 1 <= |vs[0]| <= k && vs[0] == s[..|vs[0]|] && ValueOk(vs[0])
      && MatchFrom(rest, s[|vs[0]|..]) == Some(vs[1..])
    decreases |rest| + 1, k
  {
    assert s[..k] <= s[..RunLength(s)];
    if MatchFrom(rest, s[k..]).None? {
      TryParamSound(rest, s, k - 1);
    }
  }

  /** Every instantiation with valid values matches (the captured values may
      differ from the ones given, since groups are greedy). */
  lemma {:induction false} MatchComplete(ps: seq<Piece>, vs: seq<string>, nl: bool)
    requires Fits(ps, vs)
    ensures MatchFrom(ps, Instantiate(ps, vs) + (if nl then "\n" else "")).Some?
    decreases |ps|
  {
    var tail: string := if nl then "\n" else "";
    var s := Instantiate(ps, vs) + tail;
    if ps != [] {
      if ps[0].Lit? {
        assert s[1..] == Instantiate(ps[1..], vs) + tail;
        MatchComplete(ps[1..], vs, nl);
      } else {
        assert forall i :: 0 <= i < |vs[1..]| ==> vs[1..][i] == vs[i + 1];
        var v := vs[0];
        assert s == v + (Instantiate(ps[1..], vs[1..]) + tail);
        assert s[..|v|] == v;
        assert s[|v|..] == Instantiate(ps[1..], vs[1..]) + tail;
        MatchComplete(ps[1..], vs[1..], nl);
        RunLengthCovers(s, |v|);
        TryParamReaches(ps[1..], s, RunLength(s), |v|);
      }
    }
  }

  lemma RunLengthCovers(s: string, n: nat)
    requires n <= |s| && '/' !in s[..n]
    ensures n <= RunLength(s)
  {
  }

  /** A greedy group that can succeed with `k0` characters succeeds. */
  lemma {:induction false} TryParamReaches(rest: seq<Piece>, s: string, k: nat, k0: nat)
    requires 1 <= k0 <= k <= |s|
    requires MatchFrom(rest, s[k0..]).Some?
    ensures TryParam(rest, s, k).Some?
    decreases k
  {
    if k > k0 && MatchFrom(rest, s[k..]).None? {
      TryParamReaches(rest, s, k - 1, k0);
    }
  }

  // ---------------------------------------------------------------------
  // Handlers

  /** What a route may be given: "Controller@method", an array, a closure. */
  datatype HandlerSpec = HandlerString(s: string) | HandlerArray(items: seq<Value>) | HandlerClosure(id: nat)

  /** What a route keeps: an array (controller, method, ...) or a closure. */
  datatype Handler = Callable(items: seq<Value>) | Closure(id: nat)

  /** `parseHandler`: arrays and closures are kept; a string is split on '@'
      into controller and method, the method being null when there is no '@'
      and anything after a second '@' being dropped. */
  function ParseHandler(h: HandlerSpec): (r: Handler)
    ensures h.HandlerClosure? ==> r == Closure(h.id)
    ensures h.HandlerArray? ==> r == Callable(h.items)
    ensures h.HandlerString? ==>
      r.Callable? && |r.items| == 2 && r.items[0].Str? && r.items[0].s <= h.s && '@' !in r.items[0].s
    ensures h.HandlerString? ==> (r.items[1] == Null <==> '@' !in h.s)
    ensures h.HandlerString? && '@' in h.s ==>
      r.items[1].Str? && '@' !in r.items[1].s
      && h.s[..|r.items[0].s| + 1] == r.items[0].s + "@" && r.items[1].s <= h.s[|r.items[0].s| + 1..]
  {
    match h
    case HandlerClosure(id) => Closure(id)
    case HandlerArray(items) => Callable(items)
    case HandlerString(s) =>
      var parts := Explode(s, '@');
      ExplodeHead(s, '@');
      Callable([Str(parts[0]), if |parts| > 1 then Str(parts[1]) else Null])
  }

  /** "Controller@method" gives back the two names. */
  lemma ParseHandlerPair(controller: string, action: string)
    requires '@' !in controller && '@' !in action
    ensures ParseHandler(HandlerString(controller + "@" + action)) == Callable([Str(controller), Str(action)])
  {
    ExplodeImplode([controller, action], '@');
    assert Implode([controller, action], '@') == controller + "@" + action;
  }

  /** A string without '@' names a controller and no method. */
  lemma ParseHandlerNoAt(s: string)
    requires '@' !in s
    ensures ParseHandler(HandlerString(s)) == Callable([Str(s), Null])
  {
    ExplodeImplode([s], '@');
  }

  // ---------------------------------------------------------------------
  // The route object

  /** The array `matches` returns: handler, named parameters in template
      order, and middleware. */
  datatype RouteMatch = RouteMatch(handler: Handler, params: seq<(string, string)>, middlewares: seq<string>)

  function Zip(names: seq<string>, vs: seq<string>): (r: seq<(string, string)>)
    requires |names| == |vs|
    ensures |r| == |names| && forall i :: 0 <= i < |r| ==> r[i] == (names[i], vs[i])
  {
    seq(|names|, i requires 0 <= i < |names| => (names[i], vs[i]))
  }

  class Route {
    const httpMethod: string
    const path: string
    const handler: Handler
    const pattern: seq<Piece>
    var middlewares: seq<string>

    /** The route as built by its constructor. */
    predicate Valid() {
      pattern == Parse(path) && LiteralsPlain(pattern) && NamesUnbroken(pattern)
    }

    constructor(httpMethod: string, path: string, h: HandlerSpec)
      requires LiteralsPlain(Parse(path)) && NamesUnbroken(Parse(path))
      ensures this.httpMethod == httpMethod && this.path == path
      ensures handler == ParseHandler(h) && middlewares == [] && Valid()
    {
      this.httpMethod := httpMethod;
      this.path := path;
      handler := ParseHandler(h);
      pattern := Parse(path);
      middlewares := [];
    }

    /** `middleware($m)`: appends one name or a list of names, keeping
        earlier ones. */
    method Middleware(ms: seq<string>) returns (self: Route)
      modifies this
      ensures self == this && middlewares == old(middlewares) + ms
    {
      middlewares := middlewares + ms;
      self := this;
    }

    /** `matches($uri, $method)`. */
    function Matches(uri: string, m: string): (r: Option<RouteMatch>)
      reads this
      ensures httpMethod != "*" && httpMethod != m ==> r.None?
      ensures !Compiles(pattern) ==> r.None?
      ensures r.Some? ==> r.value.handler == handler && r.value.middlewares == middlewares
      ensures r.Some? ==> |r.value.params| == |ParamNames(pattern)|
      ensures r.Some? ==> forall i :: 0 <= i < |r.value.params| ==> r.value.params[i].0 == ParamNames(pattern)[i]
    {
      if httpMethod != "*" && httpMethod != m then None
      else if !Compiles(pattern) then None
      else match MatchFrom(pattern, uri)
        case None => None
        case Some(vs) =>
          MatchSound(pattern, uri);
          Some(RouteMatch(handler, Zip(ParamNames(pattern), vs), middlewares))
    }

    /** The template as registered, which compiles to the route's pattern. */
    function GetPath(): (r: string)
      reads this
      ensures r == path && (Valid() ==> Parse(r) == pattern)
    { path }

    /** The method as registered: unless it is `*`, no other method matches. */
    function GetMethod(): (r: string)
      reads this
      ensures r == httpMethod
      ensures r != "*" ==> forall uri, m :: m != r ==> Matches(uri, m).None?
    { httpMethod }

    /** The middleware list, which every match carries. */
    function GetMiddlewares(): (r: seq<string>)
      reads this
      ensures r == middlewares
      ensures forall uri, m :: Matches(uri, m).Some? ==> Matches(uri, m).value.middlewares == r
    { middlewares }
  }

  function Values(params: seq<(string, string)>): (vs: seq<string>)
    ensures |vs| == |params| && forall i :: 0 <= i < |vs| ==> vs[i] == params[i].1
  {
    seq(|params|, i requires 0 <= i < |params| => params[i].1)
  }

  /** A match means: the method fits, and the URI is the template with
      non-empty, slash-free values put in for the parameters (perhaps followed
      by one newline); the values are taken from the URI as they are. */
  lemma MatchesSound(route: Route, uri: string, m: string)
    requires route.Matches(uri, m).Some?
    ensures route.httpMethod == "*" || route.httpMethod == m
    ensures var vs := Values(route.Matches(uri, m).value.params);
      Fits(route.pattern, vs)
      && (uri == Instantiate(route.pattern, vs) || uri == Instantiate(route.pattern, vs) + "\n")
  {
    var vs := MatchFrom(route.pattern, uri).value;
    MatchSound(route.pattern, uri);
    assert Values(route.Matches(uri, m).value.params) == vs;
  }

  /** Conversely, a URI built from the template with valid values matches
      when the method fits and the pattern compiles. */
  lemma MatchesComplete(route: Route, m: string, vs: seq<string>)
    requires route.httpMethod == "*" || route.httpMethod == m
    requires Compiles(route.pattern) && Fits(route.pattern, vs)
    ensures route.Matches(Instantiate(route.pattern, vs), m).Some?
  {
    MatchComplete(route.pattern, vs, false);
    assert Instantiate(route.pattern, vs) + "" == Instantiate(route.pattern, vs);
  }

  // ---------------------------------------------------------------------
  // Templates of the common shape "/literal/part/{name}"

  lemma {:induction false} ParseLiterals(s: string)
    requires '{' !in s
    ensures Parse(s) == Lits(s)
    decreases |s|
  {
    if s != [] {
      ParseLiterals(s[1..]);
      assert Lits(s) == [Lit(s[0])] + Lits(s[1..]);
    }
  }

  /** A literal prefix followed by one parameter compiles to exactly that. */
  lemma {:induction false} ParseTrailingParam(prefix: string, name: string)
    requires '{' !in prefix && name != "" && '}' !in name
    ensures Parse(prefix + "{" + name + "}") == Lits(prefix) + [Param(name)]
    decreases |prefix|
  {
    var s := prefix + "{" + name + "}";
    if prefix == [] {
      assert s == "{" + name + "}";
      var j := |name| + 1;
      assert OccursAt(s, "}", j);
      assert forall i :: 1 <= i < j ==> !OccursAt(s, "}", i) by {
        forall i | 1 <= i < j ensures !OccursAt(s, "}", i) {
          assert s[i] == name[i - 1];
        }
      }
      assert IndexFrom(s, "}", 1) == Some(j);
      assert s[1..j] == name;
      assert s[j + 1..] == [];
    } else {
      assert s[0] == prefix[0] && s[1..] == prefix[1..] + "{" + name + "}";
      ParseTrailingParam(prefix[1..], name);
      assert Lits(prefix) == [Lit(prefix[0])] + Lits(prefix[1..]);
    }
  }

  lemma {:induction false} LitsThenParam(prefix: string, name: string, v: string)
    ensures ParamNames(Lits(prefix) + [Param(name)]) == [name]
    ensures Instantiate(Lits(prefix) + [Param(name)], [v]) == prefix + v
    decreases |prefix|
  {
    var ps := Lits(prefix) + [Param(name)];
    if prefix != [] {
      assert ps[1..] == Lits(prefix[1..]) + [Param(name)];
      LitsThenParam(prefix[1..], name, v);
    } else {
      assert ps == [Param(name)];
    }
  }

  /** The template "/users/{id}" compiles to the literal prefix and one
      parameter. */
  lemma UsersTemplate()
    ensures Parse("/users/{id}") == Lits("/users/") + [Param("id")]
    ensures ParamNames(Parse("/users/{id}")) == ["id"]
  {
    ParseTrailingParam("/users/", "id");
    assert "/users/" + "{" + "id" + "}" == "/users/{id}";
    LitsThenParam("/users/", "id", "");
  }

  /** With the template "/users/{id}", "/users/" leaves nothing for the
      parameter and does not match. */
  lemma UsersEmptyId()
    ensures MatchFrom(Parse("/users/{id}"), "/users/").None?
  {
    UsersTemplate();
    PrefixParamEmpty("/users/", "id");
  }

  /** A literal prefix and one parameter do not match the bare prefix. */
  lemma PrefixParamEmpty(prefix: string, name: string)
    ensures MatchFrom(Lits(prefix) + [Param(name)], prefix).None?
  {
    MatchLits(prefix, [Param(name)], "");
    assert prefix + "" == prefix;
  }

  /** A literal prefix and one parameter match the prefix followed by any
      valid value. */
  lemma PrefixParamValue(prefix: string, name: string, v: string)
    requires ValueOk(v)
    ensures MatchFrom(Lits(prefix) + [Param(name)], prefix + v).Some?
  {
    MatchLits(prefix, [Param(name)], v);
    assert v[..|v|] == v;
    RunLengthCovers(v, |v|);
    assert [Param(name)][1..] == [];
    assert MatchFrom([], v[|v|..]) == Some([]);
    assert TryParam([], v, |v|).Some?;
  }

  /** Literal pieces consume exactly their characters. */
  lemma {:induction false} MatchLits(p: string, rest: seq<Piece>, s: string)
    ensures MatchFrom(Lits(p) + rest, p + s) == MatchFrom(rest, s)
    decreases |p|
  {
    if p != [] {
      assert (Lits(p) + rest)[1..] == Lits(p[1..]) + rest;
      assert (p + s)[1..] == p[1..] + s;
      MatchLits(p[1..], rest, s);
    } else {
      assert Lits(p) + rest == rest && p + s == s;
    }
  }

  /** With the template "/users/{id}", "/users/42/x" would need a slash in
      the parameter and does not match. */
  lemma UsersNestedPath()
    ensures MatchFrom(Parse("/users/{id}"), "/users/42/x").None?
  {
    UsersTemplate();
    MatchLits("/users/", [Param("id")], "42/x");
    assert "/users/" + "42/x" == "/users/42/x";
    assert RunLength("42/x") == 2;
    assert MatchFrom([], "/x").None? && MatchFrom([], "2/x").None?;
  }

  /** With the template "/users/{id}", "/users/42" matches. */
  lemma UsersWithId()
    ensures MatchFrom(Parse("/users/{id}"), "/users/42").Some?
  {
    UsersTemplate();
    assert ValueOk("42");
    PrefixParamValue("/users/", "id", "42");
    assert "/users/" + "42" == "/users/42";
  }
}
