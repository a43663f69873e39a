/**
 * Application.php: provider registration and booting, the configuration
 * array, and the handling of one HTTP request: adapt the server's request,
 * dispatch it, run the route's middleware around the controller, and write
 * the response (or the rendered throwable) to the server's response handle.
 */
module Applications {
  import opened Php
  import opened Helpers
  import opened Transport
  import opened Requests
  import opened Responses
  import opened Routes
  import opened Routing
  import opened Pipelines
  import opened Exceptions

  // ---------------------------------------------------------------------
  // Providers

  /** What happens to a provider: it is constructed, its `register()` is
      called, its `boot()` is called. */
  datatype ProviderEvent = Constructed(name: string) | RegisterCalled(name: string) | BootCalled(name: string)

  /** How often `x` occurs in `s`. */
  function Count<T(==)>(s: seq<T>, x: T): nat
    decreases |s|
  {
    if s == [] then 0 else Count(s[..|s| - 1], x) + (if s[|s| - 1] == x then 1 else 0)
  }

  lemma CountSnoc<T>(s: seq<T>, y: T, x: T)
    ensures Count(s + [y], x) == Count(s, x) + (if y == x then 1 else 0)
  {
    assert (s + [y])[..|s|] == s;
  }

  /** The `boot()` calls the loop in `boot` makes: one for every provider in
      registration order that is not booted yet. */
  function BootCalls(ps: seq<string>, booted: set<string>): seq<ProviderEvent>
    decreases |ps|
  {
    if ps == [] then []
    else BootCalls(ps[..|ps| - 1], booted) + (if ps[|ps| - 1] in booted then [] else [BootCalled(ps[|ps| - 1])])
  }

  lemma BootCallsSnoc(ps: seq<string>, n: string, booted: set<string>)
    ensures BootCalls(ps + [n], booted) == BootCalls(ps, booted) + (if n in booted then [] else [BootCalled(n)])
  {
    assert (ps + [n])[..|ps + [n]| - 1] == ps;
  }

  lemma TakeOneMore<T>(s: seq<T>, i: nat)
    requires i < |s|
    ensures s[..i + 1] == s[..i] + [s[i]]
  {
  }

  /** Booting one more provider adds it to the booted set. */
  lemma BootedStep(booted: set<string>, b0: set<string>, done: seq<string>, name: string)
    requires forall p :: p in booted <==> p in b0 || p in done
    ensures forall p :: p in booted + {name} <==> p in b0 || p in done + [name]
  {
  }

  /** Once every provider is booted, `boot` calls nothing. */
  lemma {:induction false} BootCallsNone(ps: seq<string>, booted: set<string>)
    requires forall i :: 0 <= i < |ps| ==> ps[i] in booted
    ensures BootCalls(ps, booted) == []
    decreases |ps|
  {
    if ps != [] {
      BootCallsNone(ps[..|ps| - 1], booted);
    }
  }

  /** Among fresh providers in registration order, `boot` calls each one's
      `boot()` once, in that order. */
  lemma {:induction false} BootCallsInOrder(ps: seq<string>, booted: set<string>)
    requires forall i :: 0 <= i < |ps| ==> ps[i] !in booted
    ensures |BootCalls(ps, booted)| == |ps|
    ensures forall i :: 0 <= i < |ps| ==> BootCalls(ps, booted)[i] == BootCalled(ps[i])
    decreases |ps|
  {
    if ps != [] {
      BootCallsInOrder(ps[..|ps| - 1], booted);
    }
  }

  // ---------------------------------------------------------------------
  // Controllers

  /** What a controller method returned: a `Response`, or anything else. */
  datatype Reply = ResponseReply(data: ResponseData) | OtherReply(v: Value)

  /** The code the framework calls but does not contain: what constructing
      each controller class does, the methods the classes have, what calling
      one on a new instance with the request and the route parameters does,
      and what the container makes of a middleware name. */
  datatype World = World(
    classes: ClassTable,
    actions: set<(string, string)>,
    invoke: (string, string, Request, seq<string>) -> Outcome<Reply>,
    resolve: string -> Outcome<Behaviour<Request, Reply>>)

  /** `$array[$i]` on a list, null when the entry is missing. */
  function Nth(items: seq<Value>, i: nat): Value {
    if i < |items| then items[i] else Null
  }

  /** What PHP raises when a function declared to return `Response` returns
      something else, or a `Response` parameter receives something else. */
  function NotAResponse(): Throwable {
    NewTypeError("Return value must be of type Alphavel\\Core\\Response")
  }

  /** The class `new $controller()` instantiates: the named class for a
      string, the object's own class for an object (PHP allows `new` on an
      object), and none for anything else. */
  function ControllerClass(c: Value): (r: Option<string>)
    ensures r.Some? <==> c.Str? || c.Obj?
    ensures c.Str? ==> r == Some(c.s)
    ensures c.Obj? ==> r == Some(c.cls)
  {
    match c
    case Str(s) => Some(s)
    case Obj(cls, _, _, _) => Some(cls)
    case _ => None
  }

  /** `callController($route, $request)`: destructure the handler into a
      controller and a method, make a new instance of the controller's class
      (without the container) and call the method with the request followed
      by the route parameters in match order. The instance is made before
      the method name is looked at, so a constructor that throws wins over a
      bad method. */
  function CallController(rm: RouteMatch, req: Request, w: World): (r: Outcome<Reply>)
    ensures rm.handler.Closure? ==> r.Thrown? && r.error.InstanceOf("Error")
    ensures rm.handler.Callable? && ControllerClass(Nth(rm.handler.items, 0)).None? ==>
      r.Thrown? && r.error.InstanceOf("Error")
    ensures r.Done? ==> r.value.ResponseReply?
    ensures r.Done? ==>
      var c := ControllerClass(Nth(rm.handler.items, 0));
      var a := Nth(rm.handler.items, 1);
      rm.handler.Callable? && c.Some? && a.Str? && c.value in w.classes && w.classes[c.value].Done?
      && (c.value, a.s) in w.actions && w.invoke(c.value, a.s, req, Values(rm.params)) == r
    ensures rm.handler.Callable? && ControllerClass(Nth(rm.handler.items, 0)).Some? ==>
      var c := ControllerClass(Nth(rm.handler.items, 0)).value;
      var a := Nth(rm.handler.items, 1);
      && (c in w.classes && w.classes[c].Thrown? ==> r == Thrown(w.classes[c].error))
      && (c in w.classes && w.classes[c].Done? && a.Str? && (c, a.s) in w.actions ==>
            r == match w.invoke(c, a.s, req, Values(rm.params))
                 case Thrown(e) => Thrown(e)
                 case Done(reply) => if reply.ResponseReply? then Done(reply) else Thrown(NotAResponse()))
  {
    match rm.handler
    case Closure(_) => Thrown(NewError("Cannot use object of type Closure as array"))
    case Callable(items) =>
      var controller := ControllerClass(Nth(items, 0));
      var a := Nth(items, 1);
      if controller.None? then Thrown(NewError("Class name must be a valid object or a string"))
      else
        var c := controller.value;
        if c !in w.classes then Thrown(NewError("Class \"" + c + "\" not found"))
        else if w.classes[c].Thrown? then Thrown(w.classes[c].error)
        else if !a.Str? then Thrown(NewError("Method name must be a string"))
        else if (c, a.s) !in w.actions then Thrown(NewError("Call to undefined method " + c + "::" + a.s + "()"))
        else
          match w.invoke(c, a.s, req, Values(rm.params))
          case Thrown(e) => Thrown(e)
          case Done(reply) => if reply.ResponseReply? then Done(reply) else Thrown(NotAResponse())
  }

  /** The destination handed to the pipeline. */
  function Destination(rm: RouteMatch, w: World): Request -> Outcome<Reply> {
    (x: Request) => CallController(rm, x, w)
  }

  /** The route's middleware names as pipes. */
  function Pipes(ms: seq<string>): (r: seq<Pipe<Request, Reply>>)
    ensures |r| == |ms| && forall i :: 0 <= i < |ms| ==> r[i] == Named(ms[i])
  {
    seq(|ms|, i requires 0 <= i < |ms| => Named(ms[i]))
  }

  // ---------------------------------------------------------------------
  // Writing to the server's response handle

  function HeaderOps(hs: seq<(string, string)>): seq<SinkOp>
    decreases |hs|
  {
    if hs == [] then [] else HeaderOps(hs[..|hs| - 1]) + [SetHeader(hs[|hs| - 1].0, hs[|hs| - 1].1)]
  }

  /** `sendResponse`: the status, every header in order, then the body. */
  function SendOps(d: ResponseData): (r: seq<SinkOp>)
    ensures |r| == |d.headers| + 2
    ensures r[0] == SetStatus(d.status) && r[|r| - 1] == EndWith(d.content)
    ensures forall i :: 0 <= i < |d.headers| ==> r[i + 1] == SetHeader(d.headers[i].0, d.headers[i].1)
  {
    HeaderOpsInOrder(d.headers);
    [SetStatus(d.status)] + HeaderOps(d.headers) + [EndWith(d.content)]
  }

  /** Every header is written once, in order, as set on the response. */
  lemma {:induction false} HeaderOpsInOrder(hs: seq<(string, string)>)
    ensures |HeaderOps(hs)| == |hs|
    ensures forall i :: 0 <= i < |hs| ==> HeaderOps(hs)[i] == SetHeader(hs[i].0, hs[i].1)
    decreases |hs|
  {
    if hs != [] {
      HeaderOpsInOrder(hs[..|hs| - 1]);
    }
  }

  /** The 404 answer: what sending a response with status 404, no headers
      and the body `{"error": "Not Found"}` writes; no content type is set. */
  function NotFoundOps(): (r: seq<SinkOp>)
    ensures r == SendOps(ResponseData(404, [], Json(Arr(map["error" := Str("Not Found")]))))
  {
    [SetStatus(404), EndWith(Json(Arr(map["error" := Str("Not Found")])))]
  }

  /** The part of `handleRequest` inside the `try`: a response is sent, and
      anything thrown, including the type error of a non-response result,
      is rendered instead. */
  function Finish(o: Outcome<Reply>, debug: bool): (r: seq<SinkOp>)
    ensures r != [] && r[0].SetStatus?
    ensures o.Done? && o.value.ResponseReply? ==> r == SendOps(o.value.data)
    ensures o.Thrown? ==> r == SwooleOps(debug, o.error) && r[0] == SetStatus(StatusCode(o.error))
    ensures o.Done? && o.value.OtherReply? ==> r == SwooleOps(debug, NotAResponse()) && r[0] == SetStatus(500)
  {
    match o
    case Thrown(e) => SwooleOps(debug, e)
    case Done(reply) =>
      if reply.ResponseReply? then SendOps(reply.data) else SwooleOps(debug, NotAResponse())
  }

  /** Everything `handleRequest` writes, given what `dispatch` returned. */
  function Respond(found: Option<RouteMatch>, req: Request, w: World, debug: bool): (r: seq<SinkOp>)
    ensures r != [] && r[0].SetStatus?
    ensures found.None? ==> r == NotFoundOps()
    ensures found.Some? ==> exists o :: r == Finish(o, debug)
  {
    match found
    case None => NotFoundOps()
    case Some(rm) => Finish(Run(Pipes(rm.middlewares), w.resolve, Destination(rm, w), req).0, debug)
  }

  /** Each registered provider was constructed and registered exactly once,
      and each booted one booted exactly once; nothing else was. */
  ghost predicate Ledger(providers: seq<string>, booted: set<string>, events: seq<ProviderEvent>) {
    (forall p :: Count(events, Constructed(p)) == (if p in providers then 1 else 0))
    && (forall p :: Count(events, RegisterCalled(p)) == (if p in providers then 1 else 0))
    && (forall p :: Count(events, BootCalled(p)) == (if p in booted then 1 else 0))
  }

  /** Registering a new provider keeps the ledger. */
  lemma LedgerRegister(providers: seq<string>, booted: set<string>, events: seq<ProviderEvent>, n: string)
    requires Ledger(providers, booted, events) && n !in providers
    ensures Ledger(providers + [n], booted, events + [Constructed(n), RegisterCalled(n)])
  {
    var e1 := events + [Constructed(n)];
    assert events + [Constructed(n), RegisterCalled(n)] == e1 + [RegisterCalled(n)];
    forall q ensures Count(e1 + [RegisterCalled(n)], Constructed(q)) == Count(events, Constructed(q)) + (if q == n then 1 else 0)
      && Count(e1 + [RegisterCalled(n)], RegisterCalled(q)) == Count(events, RegisterCalled(q)) + (if q == n then 1 else 0)
      && Count(e1 + [RegisterCalled(n)], BootCalled(q)) == Count(events, BootCalled(q))
    {
      CountSnoc(events, Constructed(n), Constructed(q));
      CountSnoc(e1, RegisterCalled(n), Constructed(q));
      CountSnoc(events, Constructed(n), RegisterCalled(q));
      CountSnoc(e1, RegisterCalled(n), RegisterCalled(q));
      CountSnoc(events, Constructed(n), BootCalled(q));
      CountSnoc(e1, RegisterCalled(n), BootCalled(q));
    }
  }

  /** Booting a provider not booted yet keeps the ledger. */
  lemma LedgerBoot(providers: seq<string>, booted: set<string>, events: seq<ProviderEvent>, n: string)
    requires Ledger(providers, booted, events) && n !in booted
    ensures Ledger(providers, booted + {n}, events + [BootCalled(n)])
  {
    forall q ensures Count(events + [BootCalled(n)], BootCalled(q)) == Count(events, BootCalled(q)) + (if q == n then 1 else 0)
      && Count(events + [BootCalled(n)], Constructed(q)) == Count(events, Constructed(q))
      && Count(events + [BootCalled(n)], RegisterCalled(q)) == Count(events, RegisterCalled(q))
    {
      CountSnoc(events, BootCalled(n), BootCalled(q));
      CountSnoc(events, BootCalled(n), Constructed(q));
      CountSnoc(events, BootCalled(n), RegisterCalled(q));
    }
  }

  class Application {
    /** Registered provider names, in registration order. */
    var providers: seq<string>
    var booted: set<string>
    /** Every construction, `register()` and `boot()` of a provider so far. */
    var events: seq<ProviderEvent>
    var config: map<string, Value>
    const router: Router
    const exceptions: ExceptionHandler

    ghost predicate Valid()
      reads this
    {
      (forall i, j :: 0 <= i < j < |providers| ==> providers[i] != providers[j])
      && (forall p :: p in booted ==> p in providers)
      && Ledger(providers, booted, events)
    }

    constructor(router: Router, exceptions: ExceptionHandler)
      ensures this.router == router && this.exceptions == exceptions
      ensures providers == [] && booted == {} && events == [] && config == map[] && Valid()
    {
      this.router := router;
      this.exceptions := exceptions;
      providers, booted, events, config := [], {}, [], map[];
    }

    /** `register($provider)`: a provider already registered is skipped;
        otherwise it is constructed, its `register()` called, and it is
        remembered. */
    method Register(p: string)
      requires Valid()
      modifies this
      ensures Valid()
      ensures p in old(providers) ==> providers == old(providers) && events == old(events)
      ensures p !in old(providers) ==>
        providers == old(providers) + [p] && events == old(events) + [Constructed(p), RegisterCalled(p)]
      ensures booted == old(booted) && config == old(config)
    {
      if p in providers {
        return;
      }
      LedgerRegister(providers, booted, events, p);
      events := events + [Constructed(p), RegisterCalled(p)];
      providers := providers + [p];
    }

    /** `boot()`: every registered provider not booted yet is booted, in
        registration order. */
    method Boot()
      requires Valid()
      modifies this
      ensures Valid()
      ensures events == old(events) + BootCalls(providers, old(booted))
      ensures forall p :: p in booted <==> p in old(booted) || p in providers
      ensures providers == old(providers) && config == old(config)
    {
      ghost var b0, e0 := booted, events;
      var i := 0;
      while i < |providers|
        invariant 0 <= i <= |providers| && Valid()
        invariant providers == old(providers) && config == old(config)
        invariant events == e0 + BootCalls(providers[..i], b0)
        invariant forall p :: p in booted <==> p in b0 || p in providers[..i]
      {
        BootAt(i, b0, e0);
        i := i + 1;
      }
      assert providers[..i] == providers;
    }

    /** Booting the provider at index `i` extends the events and the booted
        set of the loop in `boot()` by that provider. */
    method BootAt(i: nat, ghost b0: set<string>, ghost e0: seq<ProviderEvent>)
      requires Valid() && i < |providers|
      requires events == e0 + BootCalls(providers[..i], b0)
      requires forall p :: p in booted <==> p in b0 || p in providers[..i]
      modifies this
      ensures Valid() && providers == old(providers) && config == old(config)
      ensures events == e0 + BootCalls(providers[..i + 1], b0)
      ensures forall p :: p in booted <==> p in b0 || p in providers[..i + 1]
    {
      var name := providers[i];
      ghost var done, before := providers[..i], booted;
      assert name !in done by {
        assert forall j :: 0 <= j < i ==> providers[j] != providers[i];
      }
      TakeOneMore(providers, i);
      BootOne(name);
      assert events == e0 + BootCalls(done + [name], b0) by {
        assert name in before <==> name in b0;
        BootCallsSnoc(done, name, b0);
      }
      assert forall p :: p in booted <==> p in b0 || p in done + [name] by {
        BootedStep(before, b0, done, name);
      }
    }

    /** One pass of the loop in `boot()`: a provider not booted yet is
        booted, one already booted is left alone. */
    method BootOne(name: string)
      requires Valid() && name in providers
      modifies this
      ensures Valid()
      ensures events == old(events) + (if name in old(booted) then [] else [BootCalled(name)])
      ensures booted == old(booted) + {name}
      ensures providers == old(providers) && config == old(config)
    {
      if name !in booted {
        LedgerBoot(providers, booted, events, name);
        events := events + [BootCalled(name)];
        booted := booted + {name};
      }
    }

    /** `config($key, $default)`. */
    function Config(key: string, default: Value): (r: Value)
      reads this
      ensures r == ArrayGet(config, key, default)
    {
      DataGet(Arr(config), key, default)
    }

    /** `loadConfig($path)`: `loaded` is what requiring the file gave. An
        array is merged over the configuration, its entries winning;
        anything else makes `array_merge` throw a type error. */
    method LoadConfig(loaded: Value) returns (err: Option<Throwable>)
      modifies this
      ensures loaded.Arr? ==> err.None? && config == old(config) + loaded.entries
      ensures !loaded.Arr? ==> err.Some? && err.value.InstanceOf("Error") && config == old(config)
      ensures providers == old(providers) && booted == old(booted) && events == old(events)
    {
      if loaded.Arr? {
        config := config + loaded.entries;
        return None;
      }
      return Some(NewTypeError("array_merge(): Argument #2 must be of type array"));
    }

    /** `sendResponse($swooleResponse, $response)`. */
    method SendResponse(sink: ResponseSink, d: ResponseData)
      modifies sink
      ensures sink.ops == old(sink.ops) + SendOps(d)
    {
      sink.Status(d.status);
      var i := 0;
      while i < |d.headers|
        invariant 0 <= i <= |d.headers|
        invariant sink.ops == old(sink.ops) + [SetStatus(d.status)] + HeaderOps(d.headers[..i])
      {
        assert d.headers[..i + 1][..i] == d.headers[..i];
        sink.Header(d.headers[i].0, d.headers[i].1);
        i := i + 1;
      }
      assert d.headers[..i] == d.headers;
      sink.End(d.content);
    }

    /** `handleRequest($request, $response)`; the request object it builds
        and what the router found for it are returned so that the contract
        can speak of them. */
    method HandleRequest(t: TransportRequest, sink: ResponseSink, w: World) returns (req: Request, found: Option<RouteMatch>)
      modifies sink
      ensures fresh(req)
      ensures req.FromTransport(t)
      ensures found == old(FirstMatch(router.routes, TransportUri(t), TransportMethod(t)))
      ensures sink.ops == old(sink.ops) + Respond(found, req, w, exceptions.debug)
    {
      req := Receive(t);
      var uri, m := req.GetUri(), req.GetMethod();
      assert uri == TransportUri(t) && m == TransportMethod(t);
      found := router.Dispatch(uri, m);
      Answer(found, req, sink, w);
    }

    /** `Request::createFromSwoole($request)` on a new request. */
    static method Receive(t: TransportRequest) returns (req: Request)
      ensures fresh(req)
      ensures req.FromTransport(t)
    {
      req := new Request();
      req := req.CreateFromTransport(t);
    }

    /** What `handleRequest` does once the router has answered. */
    method Answer(found: Option<RouteMatch>, req: Request, sink: ResponseSink, w: World)
      modifies sink
      ensures sink.ops == old(sink.ops) + Respond(found, req, w, exceptions.debug)
    {
      if found.None? {
        NotFound(sink);
      } else {
        RunRoute(found.value, req, sink, w);
      }
    }

    /** The 404 answer of `handleRequest`. */
    method NotFound(sink: ResponseSink)
      modifies sink
      ensures sink.ops == old(sink.ops) + NotFoundOps()
    {
      sink.Status(404);
      sink.End(Json(Arr(map["error" := Str("Not Found")])));
    }

    /** The `try` block of `handleRequest` for a matched route. */
    method RunRoute(rm: RouteMatch, req: Request, sink: ResponseSink, w: World)
      modifies sink
      ensures sink.ops == old(sink.ops) + Finish(Run(Pipes(rm.middlewares), w.resolve, Destination(rm, w), req).0, exceptions.debug)
    {
      var result := Through(rm, req, w);
      Reply(result, sink);
    }

    /** The route's middleware around its controller, as a pipeline sent
        the request. */
    static method Through(rm: RouteMatch, req: Request, w: World) returns (o: Outcome<Reply>)
      ensures o == Run(Pipes(rm.middlewares), w.resolve, Destination(rm, w), req).0
    {
      var pipeline := new Pipeline<Request, Reply>();
      pipeline := pipeline.Send(req);
      pipeline := pipeline.Through(Pipes(rm.middlewares));
      var result := pipeline.Then(w.resolve, Destination(rm, w));
      o := result.0;
    }

    /** What comes out of the pipeline is sent if it is a response and
        rendered as an error otherwise. */
    method Reply(o: Outcome<Reply>, sink: ResponseSink)
      modifies sink
      ensures sink.ops == old(sink.ops) + Finish(o, exceptions.debug)
    {
      match o
      case Thrown(e) =>
        exceptions.RenderSwoole(e, sink);
      case Done(reply) =>
        if reply.ResponseReply? {
          SendResponse(sink, reply.data);
        } else {
          exceptions.RenderSwoole(NotAResponse(), sink);
        }
    }
  }

  /** Without a matching route the answer is the fixed 404, whatever the
      middleware and the controllers would have done: no pipeline runs. */
  lemma NotFoundIgnoresWorld(req: Request, w1: World, w2: World, d1: bool, d2: bool)
    ensures Respond(None, req, w1, d1) == Respond(None, req, w2, d2) == NotFoundOps()
    ensures NotFoundOps()[0] == SetStatus(404)
  {
  }

  /** A route without middleware calls its controller directly. */
  lemma NoMiddlewareCallsController(rm: RouteMatch, req: Request, w: World, debug: bool)
    requires rm.middlewares == []
    ensures Respond(Some(rm), req, w, debug) == Finish(CallController(rm, req, w), debug)
  {
    assert Pipes(rm.middlewares) == [];
  }

  /** A controller given as an object behaves as its class name would:
      `new $object()` builds a fresh instance of the object's class, so the
      object's own state plays no part. */
  lemma ObjectControllerIsItsClass(cls: string, id: nat, props: map<string, Value>, count: Option<nat>, rest: seq<Value>, params: seq<(string, string)>, ms: seq<string>, req: Request, w: World)
    ensures CallController(RouteMatch(Callable([Obj(cls, id, props, count)] + rest), params, ms), req, w)
         == CallController(RouteMatch(Callable([Str(cls)] + rest), params, ms), req, w)
  {
  }

  /** A first middleware that answers without calling `next` keeps the
      controller from running: what the controllers would do makes no
      difference. */
  lemma ShortCircuitSkipsController(rm: RouteMatch, req: Request, w: World, invoke: (string, string, Request, seq<string>) -> Outcome<Reply>, debug: bool)
    requires rm.middlewares != []
    requires w.resolve(rm.middlewares[0]).Done? && w.resolve(rm.middlewares[0]).value.ShortCircuit?
    ensures Respond(Some(rm), req, w, debug) == Respond(Some(rm), req, w.(invoke := invoke), debug)
    ensures Respond(Some(rm), req, w, debug) == Finish(Done(w.resolve(rm.middlewares[0]).value.answer(req)), debug)
  {
    var ps := Pipes(rm.middlewares);
    RunHeadStops(ps, w.resolve, Destination(rm, w), req);
    RunHeadStops(ps, w.resolve, Destination(rm, w.(invoke := invoke)), req);
  }

  /** Whatever is thrown inside the `try` is rendered with its own status
      code: the first call on the response handle sets it. */
  lemma ThrownIsRendered(rm: RouteMatch, req: Request, w: World, debug: bool)
    requires Run(Pipes(rm.middlewares), w.resolve, Destination(rm, w), req).0.Thrown?
    ensures var e := Run(Pipes(rm.middlewares), w.resolve, Destination(rm, w), req).0.error;
      Respond(Some(rm), req, w, debug) == SwooleOps(debug, e)
      && Respond(Some(rm), req, w, debug)[0] == SetStatus(StatusCode(e))
  {
  }

  /** A response from the pipeline is written as its status, its headers in
      order and its body, and nothing else. */
  lemma ResponseIsSent(rm: RouteMatch, req: Request, w: World, debug: bool)
    requires var o := Run(Pipes(rm.middlewares), w.resolve, Destination(rm, w), req).0;
      o.Done? && o.value.ResponseReply?
    ensures var d := Run(Pipes(rm.middlewares), w.resolve, Destination(rm, w), req).0.value.data;
      var ops := Respond(Some(rm), req, w, debug);
      |ops| == |d.headers| + 2 && ops[0] == SetStatus(d.status) && ops[|ops| - 1] == EndWith(d.content)
      && forall i :: 0 <= i < |d.headers| ==> ops[i + 1] == SetHeader(d.headers[i].0, d.headers[i].1)
  {
    var d := Run(Pipes(rm.middlewares), w.resolve, Destination(rm, w), req).0.value.data;
    HeaderOpsInOrder(d.headers);
  }
}
