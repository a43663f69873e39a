/**
 * ExceptionHandler.php: the global exception handler. Handlers registered
 * per exception class are tried in registration order; when none applies
 * the exception is rendered as a JSON error response whose detail depends
 * on the debug flag.
 */
module Exceptions {
  import opened Php
  import opened Transport

  /** What `handle` did: called the registered handler `handler` (registered
      for class `cls`) with the exception, or rendered it as these output
      calls. */
  datatype HandlerCall = Called(cls: string, handler: nat, error: Throwable) | Rendered(ops: seq<SinkOp>)

  /** `getStatusCode`: what the exception's own `getStatusCode` answers when
      its class has one, 500 otherwise. */
  function StatusCode(e: Throwable): (r: int)
    ensures e.statusCode.Some? ==> r == e.statusCode.value
    ensures e.statusCode.None? ==> r == 500
  {
    if e.statusCode.Some? then e.statusCode.value else 500
  }

  /** The array that is JSON-encoded as the error body. */
  function Payload(debug: bool, e: Throwable): (r: Value)
    ensures r.Arr? && "success" in r.entries && "message" in r.entries && r.entries["success"] == Bool(false)
    ensures debug ==> r.entries.Keys == {"success", "message", "exception", "file", "line", "trace"}
    ensures debug ==> r.entries["message"] == Str(e.message) && r.entries["exception"] == Str(e.cls)
    ensures debug ==> r.entries["file"] == Str(e.file) && r.entries["line"] == Int(e.line)
    ensures debug ==> r.entries["trace"] == Lines(e.trace)
    ensures !debug ==> r.entries == map["success" := Bool(false), "message" := Str("Internal Server Error")]
  {
    var base := map["success" := Bool(false),
                     "message" := Str(if debug then e.message else "Internal Server Error")];
    if debug then
      Arr(base["exception" := Str(e.cls)]["file" := Str(e.file)]["line" := Int(e.line)]["trace" := Lines(e.trace)])
    else Arr(base)
  }

  /** `renderSwoole`: status, JSON content type, then the encoded payload. */
  function SwooleOps(debug: bool, e: Throwable): (r: seq<SinkOp>)
    ensures |r| == 3 && r[0] == SetStatus(StatusCode(e)) && r[1] == SetHeader("Content-Type", "application/json")
    ensures r[2] == EndWith(Json(Payload(debug, e)))
  {
    [SetStatus(StatusCode(e)), SetHeader("Content-Type", "application/json"), EndWith(Json(Payload(debug, e)))]
  }

  /** `renderException`: as `renderSwoole`, except that the status and the
      header are only sent while no header has gone out yet. */
  function PlainOps(debug: bool, e: Throwable, headersSent: bool): (r: seq<SinkOp>)
    ensures !headersSent ==> r == SwooleOps(debug, e)
    ensures headersSent ==> r == [SwooleOps(debug, e)[2]]
  {
    (if headersSent then [] else [SetStatus(StatusCode(e)), SetHeader("Content-Type", "application/json")])
      + [EndWith(Json(Payload(debug, e)))]
  }

  /** The first registered class the exception is an instance of. */
  function FirstHandler(hs: seq<(string, nat)>, e: Throwable): (r: Option<nat>)
    ensures r.Some? ==> r.value < |hs|
    decreases |hs|
  {
    if hs == [] then None
    else if e.InstanceOf(hs[0].0) then Some(0)
    else
      var r := FirstHandler(hs[1..], e);
      if r.Some? then Some(r.value + 1) else None
  }

  /** The scan answers the first registered class the exception belongs to,
      and nothing exactly when it belongs to none. */
  lemma {:induction false} FirstHandlerFirst(hs: seq<(string, nat)>, e: Throwable)
    ensures FirstHandler(hs, e).Some? ==> e.InstanceOf(hs[FirstHandler(hs, e).value].0)
    ensures FirstHandler(hs, e).Some? ==> forall i :: 0 <= i < FirstHandler(hs, e).value ==> !e.InstanceOf(hs[i].0)
    ensures FirstHandler(hs, e).None? <==> forall i :: 0 <= i < |hs| ==> !e.InstanceOf(hs[i].0)
    decreases |hs|
  {
    if hs != [] && !e.InstanceOf(hs[0].0) {
      var tail := hs[1..];
      FirstHandlerFirst(tail, e);
      var r := FirstHandler(tail, e);
      if r.Some? {
        assert hs[r.value + 1] == tail[r.value];
        forall i | 0 < i < r.value + 1 ensures !e.InstanceOf(hs[i].0) {
          assert hs[i] == tail[i - 1];
        }
      } else {
        forall i | 0 < i < |hs| ensures !e.InstanceOf(hs[i].0) {
          assert hs[i] == tail[i - 1];
        }
      }
    }
  }

  /** The handler the scan stops at is the first match. */
  lemma FirstHandlerAt(hs: seq<(string, nat)>, e: Throwable, i: nat)
    requires i < |hs| && e.InstanceOf(hs[i].0)
    requires forall j :: 0 <= j < i ==> !e.InstanceOf(hs[j].0)
    ensures FirstHandler(hs, e) == Some(i)
  {
    FirstHandlerFirst(hs, e);
  }

  /** What `handle` does with an exception. */
  function Dispatch(hs: seq<(string, nat)>, debug: bool, e: Throwable, headersSent: bool): (r: HandlerCall)
    ensures r.Called? <==> exists i :: 0 <= i < |hs| && e.InstanceOf(hs[i].0)
    ensures r.Called? ==> (r.cls, r.handler) in hs && e.InstanceOf(r.cls) && r.error == e
    ensures r.Called? ==> FirstHandler(hs, e).Some? && (r.cls, r.handler) == hs[FirstHandler(hs, e).value]
    ensures r.Called? ==>
      exists i :: 0 <= i < |hs| && hs[i] == (r.cls, r.handler) && forall j :: 0 <= j < i ==> !e.InstanceOf(hs[j].0)
    ensures r.Rendered? ==> r.ops == PlainOps(debug, e, headersSent)
  {
    FirstHandlerFirst(hs, e);
    var i := FirstHandler(hs, e);
    if i.Some? then Called(hs[i.value].0, hs[i.value].1, e) else Rendered(PlainOps(debug, e, headersSent))
  }

  /** `new \ErrorException($message, 0, $level, $file, $line)`. */
  function NewErrorException(message: string, file: string, line: int): (e: Throwable)
    ensures e.InstanceOf("Exception") && e.message == message && e.file == file && e.line == line
  {
    Throwable("ErrorException", {"Exception", "Throwable"}, message, None, file, line, "")
  }

  /** `handleError`: `reporting` is what `error_reporting()` answers. A level
      being reported becomes an `ErrorException`; any other is left to PHP. */
  function HandleError(level: bv64, message: string, file: string, line: int, reporting: bv64): (r: Outcome<bool>)
    ensures r.Thrown? <==> reporting & level != 0
    ensures r.Thrown? ==> r.error == NewErrorException(message, file, line)
    ensures r.Done? ==> r.value == false
  {
    if reporting & level != 0 then Thrown(NewErrorException(message, file, line)) else Done(false)
  }

  class ExceptionHandler {
    var debug: bool
    /** Registered handlers in registration order, keyed by class. */
    var handlers: seq<(string, nat)>
    /** Everything `handle` has done so far. */
    var log: seq<HandlerCall>

    predicate Valid()
      reads this
    {
      DistinctKeys(handlers)
    }

    constructor()
      ensures debug && handlers == [] && log == [] && Valid()
    {
      debug, handlers, log := true, [], [];
    }

    method SetDebug(d: bool)
      modifies this
      ensures debug == d && handlers == old(handlers) && log == old(log)
    {
      debug := d;
    }

    /** `registerHandler`: a class registered again keeps its place and gets
        the new handler. */
    method RegisterHandler(cls: string, handler: nat)
      requires Valid()
      modifies this
      ensures Valid()
      ensures handlers == Put(old(handlers), cls, handler)
      ensures debug == old(debug) && log == old(log)
    {
      PutLookup(handlers, cls, handler);
      handlers := Put(handlers, cls, handler);
    }

    /** `handle($e)`: the loop stops at the first registered class the
        exception belongs to and calls its handler; if there is none the
        exception is rendered. */
    method Handle(e: Throwable, headersSent: bool)
      modifies this
      ensures log == old(log) + [Dispatch(handlers, debug, e, headersSent)]
      ensures debug == old(debug) && handlers == old(handlers)
    {
      var i := 0;
      while i < |handlers|
        invariant 0 <= i <= |handlers|
        invariant forall j :: 0 <= j < i ==> !e.InstanceOf(handlers[j].0)
      {
        if e.InstanceOf(handlers[i].0) {
          FirstHandlerAt(handlers, e, i);
          log := log + [Called(handlers[i].0, handlers[i].1, e)];
          return;
        }
        i := i + 1;
      }
      log := log + [Rendered(PlainOps(debug, e, headersSent))];
    }

    /** `renderSwoole($e, $response)`. */
    method RenderSwoole(e: Throwable, sink: ResponseSink)
      modifies sink
      ensures sink.ops == old(sink.ops) + SwooleOps(debug, e)
    {
      var code := StatusCode(e);
      sink.Status(code);
      sink.Header("Content-Type", "application/json");
      sink.End(Json(Payload(debug, e)));
    }

    /** `capture($callback)`: `result` is what calling the callback gave. A
        throw is handled and turned into null. */
    method Capture(result: Outcome<Value>, headersSent: bool) returns (r: Value)
      modifies this
      ensures result.Done? ==> r == result.value && log == old(log)
      ensures result.Thrown? ==> r == Null && log == old(log) + [Dispatch(handlers, debug, result.error, headersSent)]
      ensures debug == old(debug) && handlers == old(handlers)
    {
      if result.Done? {
        return result.value;
      }
      Handle(result.error, headersSent);
      r := Null;
    }
  }

  /** Which handler runs depends only on the order of the registered
      classes: giving a registered class a new handler keeps every
      exception going to the same place. */
  lemma {:induction false} ReRegisterSamePlace(hs: seq<(string, nat)>, cls: string, h: nat, e: Throwable)
    requires cls in KeysOf(hs)
    ensures FirstHandler(Put(hs, cls, h), e) == FirstHandler(hs, e)
  {
    PutLookup(hs, cls, h);
    SameClassesSameHandler(hs, Put(hs, cls, h), e);
  }

  lemma {:induction false} SameClassesSameHandler(a: seq<(string, nat)>, b: seq<(string, nat)>, e: Throwable)
    requires |a| == |b| && forall i :: 0 <= i < |a| ==> a[i].0 == b[i].0
    ensures FirstHandler(a, e) == FirstHandler(b, e)
    decreases |a|
  {
    if a != [] {
      SameClassesSameHandler(a[1..], b[1..], e);
    }
  }

  /** Without debug the body never carries the message, class, file, line or
      trace of the exception, whatever it was; with debug the same exception
      gives a body that extends the plain one by those details. */
  lemma DebugOnlyAddsDetail(e: Throwable, f: Throwable)
    ensures Payload(false, e) == Payload(false, f)
    ensures Payload(false, e).entries.Keys < Payload(true, e).entries.Keys
    ensures Payload(true, e).entries["success"] == Payload(false, e).entries["success"]
  {
  }

  /** A handler registered for a parent class or interface catches every
      exception of a subclass, unless an earlier registration catches it
      first; an exception that matches nothing is rendered with its own
      status code. */
  lemma HandleCases(hs: seq<(string, nat)>, debug: bool, e: Throwable, headersSent: bool)
    ensures FirstHandler(hs, e).None? ==>
      Dispatch(hs, debug, e, headersSent) == Rendered(PlainOps(debug, e, headersSent))
      && (!headersSent ==> PlainOps(debug, e, headersSent)[0] == SetStatus(StatusCode(e)))
    ensures (exists i :: 0 <= i < |hs| && e.InstanceOf(hs[i].0)) ==> Dispatch(hs, debug, e, headersSent).Called?
  {
  }

  /** Headers already sent leave only the body: the status and content type
      are dropped, the payload is the same as for Swoole. */
  lemma PlainAfterHeaders(debug: bool, e: Throwable)
    ensures PlainOps(debug, e, true) == SwooleOps(debug, e)[2..]
    ensures PlainOps(debug, e, false) == SwooleOps(debug, e)
  {
  }
}
