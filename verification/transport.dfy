/**
 * The two sides of the HTTP server the framework runs on, reduced to what
 * the core reads and writes: the incoming request object and the outgoing
 * response handle.
 */
module Transport {
  import opened Php

  /** What the server hands over for one request. A property the server
      leaves null is `None`; `rawContent() === false` (no body) is `None`
      in `rawContent`. */
  datatype TransportRequest = TransportRequest(
    server: Option<map<string, string>>,
    get: Option<map<string, Value>>,
    post: Option<map<string, Value>>,
    header: Option<map<string, string>>,
    rawContent: Option<string>)

  /** One call on the server's response handle. */
  datatype SinkOp = SetStatus(code: int) | SetHeader(key: string, value: string) | EndWith(body: Body)

  /** The server's response handle: it records every call made on it. */
  class ResponseSink {
    var ops: seq<SinkOp>

    constructor()
      ensures ops == []
    {
      ops := [];
    }

    method Status(code: int)
      modifies this
      ensures ops == old(ops) + [SetStatus(code)]
    {
      ops := ops + [SetStatus(code)];
    }

    method Header(key: string, value: string)
      modifies this
      ensures ops == old(ops) + [SetHeader(key, value)]
    {
      ops := ops + [SetHeader(key, value)];
    }

    method End(body: Body)
      modifies this
      ensures ops == old(ops) + [EndWith(body)]
    {
      ops := ops + [EndWith(body)];
    }
  }
}
