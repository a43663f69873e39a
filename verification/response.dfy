/**
 * Response.php: a status code, ordered headers and a body, built through
 * chained setters that return the same object.
 */
module Responses {
  import opened Php

  /** What a response carries, as `sendResponse` reads it. */
  datatype ResponseData = ResponseData(status: int, headers: seq<(string, string)>, content: Body)

  /** The body of `Response::success($data)`. */
  function SuccessPayload(data: Value): (r: Value)
    ensures r.Arr? && r.entries.Keys == {"status", "data"}
    ensures r.entries["status"] == Str("success") && r.entries["data"] == data
  {
    Arr(map["status" := Str("success"), "data" := data])
  }

  /** The body of `Response::error($message, $status, $errors)`: the errors
      are included only when they are not null. */
  function ErrorPayload(message: string, errors: Value): (r: Value)
    ensures r.Arr? && {"status", "message"} <= r.entries.Keys
    ensures r.entries["status"] == Str("error") && r.entries["message"] == Str(message)
    ensures "errors" in r.entries <==> errors != Null
    ensures "errors" in r.entries ==> r.entries["errors"] == errors
    ensures r.entries.Keys <= {"status", "message", "errors"}
  {
    var base := map["status" := Str("error"), "message" := Str(message)];
    Arr(if errors != Null then base["errors" := errors] else base)
  }

  class Response {
    var statusCode: int
    var headers: seq<(string, string)>
    var content: Body

    /** Header names are distinct, as keys of a PHP array. */
    predicate Valid()
      reads this
    {
      DistinctKeys(headers)
    }

    /** A new response: 200, no headers, empty body. */
    constructor()
      ensures statusCode == 200 && headers == [] && content == Text("") && Valid()
    {
      statusCode, headers, content := 200, [], Text("");
    }

    function Data(): ResponseData
      reads this
    {
      ResponseData(statusCode, headers, content)
    }

    /** `Response::make()`. */
    static method Make() returns (r: Response)
      ensures fresh(r) && r.statusCode == 200 && r.headers == [] && r.content == Text("") && r.Valid()
    {
      r := new Response();
    }

    /** `Response::success($data, $status)`. */
    static method Success(data: Value, status: int) returns (r: Response)
      ensures fresh(r) && r.Valid()
      ensures r.Data() == ResponseData(status, [("Content-Type", "application/json")], Body.Json(SuccessPayload(data)))
    {
      r := Make();
      r := r.Json(SuccessPayload(data), status);
    }

    /** `Response::error($message, $status, $errors)`. */
    static method Error(message: string, status: int, errors: Value) returns (r: Response)
      ensures fresh(r) && r.Valid()
      ensures r.Data() == ResponseData(status, [("Content-Type", "application/json")], Body.Json(ErrorPayload(message, errors)))
    {
      r := Make();
      r := r.Json(ErrorPayload(message, errors), status);
    }

    /** `json($data, $status)`: sets Content-Type, the encoded body and the
        status. */
    method Json(data: Value, status: int) returns (self: Response)
      modifies this
      ensures self == this
      ensures headers == Put(old(headers), "Content-Type", "application/json")
      ensures content == Body.Json(data) && statusCode == status
      ensures old(Valid()) ==> Valid()
    {
      self := Header("Content-Type", "application/json");
      content := Body.Json(data);
      statusCode := status;
    }

    method Content(c: string) returns (self: Response)
      modifies this
      ensures self == this
      ensures content == Text(c) && statusCode == old(statusCode) && headers == old(headers)
    {
      content := Text(c);
      self := this;
    }

    method Status(code: int) returns (self: Response)
      modifies this
      ensures self == this
      ensures statusCode == code && content == old(content) && headers == old(headers)
    {
      statusCode := code;
      self := this;
    }

    /** `header($key, $value)`: a header already set keeps its position and
        takes the new value; a new one is added last. */
    method Header(key: string, value: string) returns (self: Response)
      modifies this
      ensures self == this
      ensures headers == Put(old(headers), key, value)
      ensures statusCode == old(statusCode) && content == old(content)
      ensures old(Valid()) ==> Valid()
    {
      PutLookup(headers, key, value);
      headers := Put(headers, key, value);
      self := this;
    }

    /** `redirect($url, $status)`: a Location header and the status. */
    method Redirect(url: string, status: int) returns (self: Response)
      modifies this
      ensures self == this
      ensures headers == Put(old(headers), "Location", url)
      ensures statusCode == status && content == old(content)
      ensures old(Valid()) ==> Valid()
    {
      self := Header("Location", url);
      statusCode := status;
    }

    /** The getters `sendResponse` reads: together they are the response's
        data, and the headers have distinct names. */
    function GetStatusCode(): (r: int) reads this ensures r == Data().status { statusCode }
    function GetHeaders(): (r: seq<(string, string)>) reads this
      ensures r == Data().headers && (Valid() ==> DistinctKeys(r))
    { headers }
    function GetContent(): (r: Body) reads this ensures r == Data().content { content }
  }

  /** Setting a header twice leaves one entry holding the second value. */
  lemma HeaderTwice(hs: seq<(string, string)>, k: string, v1: string, v2: string)
    ensures Put(Put(hs, k, v1), k, v2) == Put(hs, k, v2)
  {
    PutLookup(hs, k, v1);
    var once := Put(hs, k, v1);
    match IndexOfKey(hs, k)
    case Some(i) =>
      SameKeysSameIndex(once, hs, k);
    case None =>
      assert once == hs + [(k, v1)];
      assert IndexOfKey(once, k) == Some(|hs|) by {
        assert forall p :: 0 <= p < |hs| ==> once[p] == hs[p];
        assert once[|hs|].0 == k;
      }
  }
}
