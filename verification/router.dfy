/**
 * Router.php: routes in registration order; dispatch returns the match of
 * the first route that matches.
 */
module Routing {
  import opened Php
  import opened Routes

  /** The position of the first route, in registration order, that matches
      `uri` and `m`. */
  function FirstIndex(routes: seq<Route>, uri: string, m: string): (r: Option<nat>)
    reads routes
    ensures r.Some? ==> r.value < |routes| && routes[r.value].Matches(uri, m).Some?
    ensures r.Some? ==> forall j :: 0 <= j < r.value ==> routes[j].Matches(uri, m).None?
    ensures r.None? ==> forall j :: 0 <= j < |routes| ==> routes[j].Matches(uri, m).None?
    decreases |routes|
  {
    if routes == [] then None
    else if routes[0].Matches(uri, m).Some? then Some(0)
    else
      match FirstIndex(routes[1..], uri, m)
      case None =>
        assert forall j :: 1 <= j < |routes| ==> routes[j] == routes[1..][j - 1];
        None
      case Some(k) => Some(k + 1)
  }

  /** What `dispatch` returns for a list of routes. */
  function FirstMatch(routes: seq<Route>, uri: string, m: string): Option<RouteMatch>
    reads routes
  {
    match FirstIndex(routes, uri, m)
    case Some(k) => routes[k].Matches(uri, m)
    case None => None
  }

  class Router {
    var routes: seq<Route>

    constructor()
      ensures routes == []
    {
      routes := [];
    }

    /** `addRoute`: a new route goes at the end and is returned, so that the
        caller can attach middleware to it afterwards. */
    method AddRoute(httpMethod: string, path: string, h: HandlerSpec) returns (r: Route)
      requires LiteralsPlain(Parse(path)) && NamesUnbroken(Parse(path))
      modifies this
      ensures fresh(r) && routes == old(routes) + [r]
      ensures r.httpMethod == httpMethod && r.path == path && r.handler == ParseHandler(h)
      ensures r.middlewares == [] && r.Valid()
    {
      r := new Route(httpMethod, path, h);
      routes := routes + [r];
    }

    method Get(path: string, h: HandlerSpec) returns (r: Route)
      requires LiteralsPlain(Parse(path)) && NamesUnbroken(Parse(path))
      modifies this
      ensures fresh(r) && routes == old(routes) + [r]
      ensures r.httpMethod == "GET" && r.path == path && r.handler == ParseHandler(h) && r.middlewares == [] && r.Valid()
    {
      r := AddRoute("GET", path, h);
    }

    method Post(path: string, h: HandlerSpec) returns (r: Route)
      requires LiteralsPlain(Parse(path)) && NamesUnbroken(Parse(path))
      modifies this
      ensures fresh(r) && routes == old(routes) + [r]
      ensures r.httpMethod == "POST" && r.path == path && r.handler == ParseHandler(h) && r.middlewares == [] && r.Valid()
    {
      r := AddRoute("POST", path, h);
    }

    method Put(path: string, h: HandlerSpec) returns (r: Route)
      requires LiteralsPlain(Parse(path)) && NamesUnbroken(Parse(path))
      modifies this
      ensures fresh(r) && routes == old(routes) + [r]
      ensures r.httpMethod == "PUT" && r.path == path && r.handler == ParseHandler(h) && r.middlewares == [] && r.Valid()
    {
      r := AddRoute("PUT", path, h);
    }

    method Delete(path: string, h: HandlerSpec) returns (r: Route)
      requires LiteralsPlain(Parse(path)) && NamesUnbroken(Parse(path))
      modifies this
      ensures fresh(r) && routes == old(routes) + [r]
      ensures r.httpMethod == "DELETE" && r.path == path && r.handler == ParseHandler(h) && r.middlewares == [] && r.Valid()
    {
      r := AddRoute("DELETE", path, h);
    }

    method Patch(path: string, h: HandlerSpec) returns (r: Route)
      requires LiteralsPlain(Parse(path)) && NamesUnbroken(Parse(path))
      modifies this
      ensures fresh(r) && routes == old(routes) + [r]
      ensures r.httpMethod == "PATCH" && r.path == path && r.handler == ParseHandler(h) && r.middlewares == [] && r.Valid()
    {
      r := AddRoute("PATCH", path, h);
    }

    /** `any`: the route answers every method. */
    method Any(path: string, h: HandlerSpec) returns (r: Route)
      requires LiteralsPlain(Parse(path)) && NamesUnbroken(Parse(path))
      modifies this
      ensures fresh(r) && routes == old(routes) + [r]
      ensures r.httpMethod == "*" && r.path == path && r.handler == ParseHandler(h) && r.middlewares == [] && r.Valid()
    {
      r := AddRoute("*", path, h);
    }

    /** `dispatch($uri, $method)`: the routes are tried in registration order
        and the first match is returned. */
    method Dispatch(uri: string, m: string) returns (r: Option<RouteMatch>)
      ensures r == FirstMatch(routes, uri, m)
      ensures r.None? <==> forall j :: 0 <= j < |routes| ==> routes[j].Matches(uri, m).None?
    {
      var i := 0;
      while i < |routes|
        invariant 0 <= i <= |routes|
        invariant forall j :: 0 <= j < i ==> routes[j].Matches(uri, m).None?
      {
        var found := routes[i].Matches(uri, m);
        if found.Some? {
          assert FirstIndex(routes, uri, m) == Some(i);
          return found;
        }
        i := i + 1;
      }
      return None;
    }

    /** The routes in registration order, the order `dispatch` tries them. */
    function GetRoutes(): (r: seq<Route>)
      reads this
      ensures r == routes
      ensures forall uri, m :: FirstMatch(r, uri, m).None? <==> forall j :: 0 <= j < |r| ==> r[j].Matches(uri, m).None?
    {
      routes
    }
  }

  /** A route is never dispatched when an earlier route has the same template
      and either the same method or the wildcard method: the earlier one
      matches first. */
  lemma EarlierRouteShadows(routes: seq<Route>, i: nat, j: nat, uri: string, m: string)
    requires i < j < |routes|
    requires routes[i].pattern == routes[j].pattern
    requires routes[i].httpMethod == "*" || routes[i].httpMethod == routes[j].httpMethod
    ensures FirstIndex(routes, uri, m) != Some(j)
  {
  }
}
