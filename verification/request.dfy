/**
 * Request.php: the framework's view of one HTTP request, filled from the
 * server's request object and read through accessors.
 */
module Requests {
  import opened Php
  import opened Helpers
  import opened Transport

  /** The request-header key a caller's key stands for: underscores become
      dashes and ASCII letters are lowered. */
  function HeaderKey(key: string): (r: string)
    ensures |r| == |key|
    ensures forall i :: 0 <= i < |r| ==> !IsUpper(r[i]) && r[i] != '_'
    ensures forall i :: 0 <= i < |r| ==> r[i] == (if key[i] == '_' then '-' else ToLowerChar(key[i]))
  {
    Lower(Dashed(key))
  }

  /** A key already in lower case with dashes is its own header key. */
  lemma HeaderKeyPlain(key: string)
    requires forall i :: 0 <= i < |key| ==> !IsUpper(key[i]) && key[i] != '_'
    ensures HeaderKey(key) == key
  {
    var r := HeaderKey(key);
    forall i | 0 <= i < |key| ensures r[i] == key[i] {
      assert !IsUpper(key[i]);
    }
  }

  lemma BearerPrefix(v: string)
    requires "Bearer " <= v
    ensures |v| >= 7 && v == "Bearer " + v[7..]
  {
  }

  lemma AuthorizationKey()
    ensures HeaderKey("authorization") == "authorization"
  {
    HeaderKeyPlain("authorization");
  }

  lemma ContentTypeKey()
    ensures HeaderKey("content-type") == "content-type"
  {
    HeaderKeyPlain("content-type");
  }

  /** `str_replace('_', '-', $key)`. */
  function Dashed(s: string): (r: string)
    ensures |r| == |s|
    ensures forall i :: 0 <= i < |s| ==> r[i] == (if s[i] == '_' then '-' else s[i])
  {
    seq(|s|, i requires 0 <= i < |s| => if s[i] == '_' then '-' else s[i])
  }

  /** A normalised key is its own normal form, so `header()` accepts the
      stored spelling as well as any spelling that normalises to it. */
  lemma HeaderKeyIdempotent(key: string)
    ensures HeaderKey(HeaderKey(key)) == HeaderKey(key)
  {
    var once := HeaderKey(key);
    var twice := HeaderKey(once);
    forall i | 0 <= i < |once| ensures twice[i] == once[i] {
      assert !IsUpper(once[i]) && once[i] != '_';
    }
  }

  /** The method a transport request carries, GET when the server gives none. */
  function TransportMethod(t: TransportRequest): string {
    if t.server.Some? && "request_method" in t.server.value then t.server.value["request_method"] else "GET"
  }

  /** The URI a transport request carries, "/" when the server gives none. */
  function TransportUri(t: TransportRequest): string {
    if t.server.Some? && "request_uri" in t.server.value then t.server.value["request_uri"] else "/"
  }

  class Request {
    var httpMethod: string
    var uri: string
    var query: map<string, Value>
    var post: map<string, Value>
    var headers: map<string, string>
    var server: map<string, string>
    var body: Option<string>

    /** A new request has empty arrays and no body. Its method and URI are
        uninitialised in the source; here they start empty. */
    constructor()
      ensures query == map[] && post == map[] && headers == map[] && server == map[] && body == None
    {
      httpMethod, uri := "", "";
      query, post, headers, server := map[], map[], map[], map[];
      body := None;
    }

    /** The fields as `createFromSwoole` fills them from the server's
        request: a missing method is GET, a missing URI is "/", a missing
        array is empty, and a body the server reports as absent (`false`)
        becomes the empty string by PHP's coercion into `?string`. */
    predicate FromTransport(t: TransportRequest)
      reads this
    {
      && httpMethod == TransportMethod(t)
      && uri == TransportUri(t)
      && query == (if t.get.Some? then t.get.value else map[])
      && post == (if t.post.Some? then t.post.value else map[])
      && headers == (if t.header.Some? then t.header.value else map[])
      && server == (if t.server.Some? then t.server.value else map[])
      && body == Some(if t.rawContent.Some? then t.rawContent.value else "")
    }

    /** `createFromSwoole`: every field is overwritten from the server's
        request. */
    method CreateFromTransport(t: TransportRequest) returns (self: Request)
      modifies this
      ensures self == this
      ensures FromTransport(t)
    {
      var srv := if t.server.Some? then t.server.value else map[];
      httpMethod := if "request_method" in srv then srv["request_method"] else "GET";
      uri := if "request_uri" in srv then srv["request_uri"] else "/";
      query := if t.get.Some? then t.get.value else map[];
      post := if t.post.Some? then t.post.value else map[];
      headers := if t.header.Some? then t.header.value else map[];
      server := srv;
      body := Some(if t.rawContent.Some? then t.rawContent.value else "");
      self := this;
    }

    /** The method as the transport gave it; the method checks compare it
        exactly. */
    function GetMethod(): (r: string)
      reads this
      ensures r == httpMethod
    {
      httpMethod
    }

    function GetUri(): (r: string)
      reads this
      ensures r == uri
    {
      uri
    }

    /** `input($key, $default)`: a non-null POST field, else a non-null query
        field, else the default. */
    function Input(key: string, default: Value): (r: Value)
      reads this
      ensures !Has(key) ==> r == default
      ensures key in post && post[key] != Null ==> r == post[key]
      ensures Has(key) && !(key in post && post[key] != Null) ==> r == query[key] && r != Null
    {
      if key in post && post[key] != Null then post[key]
      else if key in query && query[key] != Null then query[key]
      else default
    }

    /** `all()`: the query fields merged with the POST fields, POST winning. */
    function All(): (r: map<string, Value>)
      reads this
      ensures r.Keys == query.Keys + post.Keys
      ensures forall k :: k in post ==> r[k] == post[k]
      ensures forall k :: k in query && k !in post ==> r[k] == query[k]
    {
      query + post
    }

    /** `only($keys)`: the listed keys of `all()`. */
    function Only(keys: seq<string>): (r: map<string, Value>)
      reads this
      ensures forall k :: k in r <==> k in keys && (k in query || k in post)
      ensures forall k :: k in r ==> r[k] == (if k in post then post[k] else query[k])
    {
      ArrayOnly(All(), keys)
    }

    /** `except($keys)`: `all()` without the listed keys. */
    function Except(keys: seq<string>): (r: map<string, Value>)
      reads this
      ensures forall k :: k in r <==> k !in keys && (k in query || k in post)
      ensures forall k :: k in r ==> r[k] == (if k in post then post[k] else query[k])
    {
      ArrayExcept(All(), keys)
    }

    /** `has($key)`: set (present and not null) in POST or in the query. */
    function Has(key: string): (r: bool)
      reads this
      ensures r ==> key in All()
      ensures key in All() && All()[key] != Null ==> r
    {
      (key in post && post[key] != Null) || (key in query && query[key] != Null)
    }

    /** `filled($key)`: present and not blank. The `has` test adds nothing,
        since a missing key reads as null, which is blank. */
    function Filled(key: string): (r: bool)
      reads this
      ensures r <==> !Blank(Input(key, Null))
    {
      Has(key) && !Blank(Input(key, Null))
    }

    /** `query($key, $default)`: a non-null query field, else the default. */
    function Query(key: string, default: Value): (r: Value)
      reads this
      ensures key in query && query[key] != Null ==> r == query[key]
      ensures r != default ==> key in query && r == query[key] && r != Null
      ensures !(key in post && post[key] != Null) ==> r == Input(key, default)
    {
      if key in query && query[key] != Null then query[key] else default
    }

    /** `header($key, $default)`: looked up under the normalised key. */
    function Header(key: string, default: Value): (r: Value)
      reads this
      ensures HeaderKey(key) in headers ==> r == Str(headers[HeaderKey(key)])
      ensures HeaderKey(key) !in headers ==> r == default
    {
      var k := HeaderKey(key);
      if k in headers then Str(headers[k]) else default
    }

    /** `bearerToken()`: what follows "Bearer " in the Authorization header,
        and nothing when the header is missing or has another scheme. */
    function BearerToken(): (r: Option<string>)
      reads this
      ensures r.Some? <==> "authorization" in headers && "Bearer " <= headers["authorization"]
      ensures r.Some? ==> headers["authorization"] == "Bearer " + r.value
    {
      AuthorizationKey();
      var h := Header("authorization", Str(""));
      if StrStartsWith(h.s, "Bearer ") then
        BearerPrefix(h.s);
        Some(h.s[7..])
      else None
    }

    /** `isJson()`: the Content-Type header mentions application/json. */
    function IsJson(): (r: bool)
      reads this
      ensures r <==> "content-type" in headers && exists i :: OccursAt(headers["content-type"], "application/json", i)
    {
      ContentTypeKey();
      StrContains(Header("content-type", Str("")).s, "application/json")
    }

    /** `isPost()` and its siblings: an exact, case-sensitive comparison. */
    function IsPost(): (r: bool) reads this ensures r <==> GetMethod() == "POST" { httpMethod == "POST" }
    function IsGet(): (r: bool) reads this ensures r <==> GetMethod() == "GET" { httpMethod == "GET" }
    function IsPut(): (r: bool) reads this ensures r <==> GetMethod() == "PUT" { httpMethod == "PUT" }
    function IsDelete(): (r: bool) reads this ensures r <==> GetMethod() == "DELETE" { httpMethod == "DELETE" }
  }

  /** The method checks compare the method exactly as the transport gave
      it: at most one of them holds, and a lower-case method answers none. */
  lemma MethodChecksExclusive(req: Request)
    ensures (if req.IsPost() then 1 else 0) + (if req.IsGet() then 1 else 0)
      + (if req.IsPut() then 1 else 0) + (if req.IsDelete() then 1 else 0) <= 1
    ensures Lower(req.httpMethod) == req.httpMethod ==>
      !req.IsPost() && !req.IsGet() && !req.IsPut() && !req.IsDelete()
  {
    var m := req.httpMethod;
    if Lower(m) == m && m != [] {
      assert !IsUpper(Lower(m)[0]);
    }
  }

  /** `input` prefers a non-null body field and otherwise answers what
      `query` answers for the same key and default. */
  lemma InputFallsBackToQuery(req: Request, key: string, default: Value)
    ensures key in req.post && req.post[key] != Null ==> req.Input(key, default) == req.post[key]
    ensures !(key in req.post && req.post[key] != Null) ==> req.Input(key, default) == req.Query(key, default)
  {
  }

  /** `has` is exactly "input without a default is not null". */
  lemma HasIffInput(req: Request, key: string)
    ensures req.Has(key) <==> req.Input(key, Null) != Null
  {
  }

  /** A field that is filled is present. */
  lemma FilledHas(req: Request, key: string)
    ensures req.Filled(key) ==> req.Has(key) && req.Input(key, Null) != Null
  {
  }

  /** `input` and `all` agree unless POST carries the key with a null value:
      then `all` reports null while `input` falls through to the query. */
  lemma InputAgreesWithAll(req: Request, key: string, default: Value)
    ensures key !in req.post || req.post[key] != Null ==>
      req.Input(key, default) == (if key in req.All() && req.All()[key] != Null then req.All()[key] else default)
    ensures key in req.post && req.post[key] == Null && key in req.query && req.query[key] != Null ==>
      req.All()[key] == Null && req.Input(key, default) == req.query[key]
  {
  }

  /** The fields `only` keeps and those `except` keeps split `all()`. */
  lemma OnlyExceptSplitAll(req: Request, keys: seq<string>)
    ensures req.Only(keys).Keys !! req.Except(keys).Keys
    ensures req.Only(keys) + req.Except(keys) == req.All()
  {
    OnlyExceptPartition(req.All(), keys);
  }

  /** Any spelling of a header name that normalises to the same key reads the
      same header, e.g. "Content_Type" and "content-type". */
  lemma HeaderSpellings(req: Request, k1: string, k2: string, default: Value)
    requires HeaderKey(k1) == HeaderKey(k2)
    ensures req.Header(k1, default) == req.Header(k2, default)
  {
  }

  /** A token sent as "Bearer <token>" comes back unchanged. */
  lemma BearerRoundTrip(req: Request, token: string)
    requires "authorization" in req.headers && req.headers["authorization"] == "Bearer " + token
    ensures req.BearerToken() == Some(token)
  {
    var h := req.headers["authorization"];
    assert h[7..] == token;
  }
}
