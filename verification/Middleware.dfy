/**
 The middleware chain: authorization, routing, and any other steps, run in order over one request and
 one response until one of them stops it. Route objects are shared between the chain's members, and
 matching changes their parameters.
 */
module Middleware {
  import opened Text
  import Route
  import opened HttpParser
  import opened HttpResponse

  type Target = Route.Route

  /* ---- Shared routes ---- */

  // What a route holds at a moment.
  datatype RouteState = RouteState(path: string, uri: string, httpMethod: Route.Method, params: seq<Route.Param>) {
    function Fixed(): Route.Template { Route.Template(path, uri, httpMethod, Route.Names(params)) }
  }

  type World = map<Target, RouteState>

  ghost function Snapshot(all: set<Target>): World
    reads all
  {
    map r | r in all :: RouteState(r.path, r.uriTarget, r.httpMethod, r.params)
  }

  function TryRoute(s: RouteState, request: Request): Route.Attempt { Route.Try(s.Fixed(), request.target, request.httpMethod) }

  // A match attempt's effect on the route it is made on.
  function Tried(world: World, r: Target, request: Request): World
    requires r in world
  {
    var s := world[r];
    var attempt := TryRoute(s, request);
    world[r := s.(params := Route.Store(s.params, attempt.values, attempt.stored))]
  }

  predicate Matches(world: World, r: Target, request: Request)
    requires r in world
  {
    TryRoute(world[r], request).outcome == Route.Match
  }

  method MatchRoute(r: Target, ghost all: set<Target>, request: Request) returns (outcome: Route.Outcome)
    requires r in all
    modifies all
    ensures outcome == TryRoute(old(Snapshot(all))[r], request).outcome
    ensures Snapshot(all) == Tried(old(Snapshot(all)), r, request)
  {
    ghost var before := Snapshot(all);
    outcome := r.IsMatchWithTargetRequest(request.target, request.httpMethod);
    assert before[r].Fixed() == old(r.Fixed());
    assert r.uriTarget == r.Fixed().uri;
  }

  // Templates never change, so earlier attempts never decide whether a route matches.
  predicate SameTemplates(world: World, later: World) {
    forall r :: r in world ==> r in later && later[r].Fixed() == world[r].Fixed()
  }

  lemma TriedKeepsTemplates(world: World, r: Target, request: Request)
    requires r in world
    ensures SameTemplates(world, Tried(world, r, request))
  {
    hide Route.Try;
    var s, s' := world[r], Tried(world, r, request)[r];
    assert Route.Names(s'.params) == Route.Names(s.params);
  }

  /* ---- The response as a value ---- */

  datatype Reply = Reply(status: Status, body: string, headers: Headers)

  ghost function ReplyOf(response: Response): Reply
    reads response
  {
    Reply(response.status, response.body, response.headers)
  }

  /* ---- Authorization ---- */

  datatype Level = NoLevel | Guest | Owner | Admin

  // What the application's callback says about a token; the source's exception is Raises.
  datatype Verdict = Verdict(success: bool, reason: string) | Raises

  type AuthCallback = (string, RouteState, Level) -> Verdict

  datatype Entry = Entry(route: Target, level: Level)

  // A call of the callback that was made, with the route as it was then.
  datatype Check = Check(token: string, entry: Entry, state: RouteState, verdict: Verdict)

  // How a member of the chain ends: the chain goes on, it stops, or an exception leaves it.
  datatype Flow = Goes | Stops | Escapes

  const BEARER := "Bearer "

  function ExtractToken(header: string): string {
    var at := Find(header, BEARER, 0);
    if at.None? then "" else header[at.value + |BEARER|..]
  }

  function AuthHeader(headers: Headers): Option<string> {
    if "Authorization" in headers then Some(headers["Authorization"])
    else if "authorization" in headers then Some(headers["authorization"])
    else None
  }

  function ErrorBody(reason: string): string { "{\"error\": \"" + reason + "\"}" }

  // The routes, the response, how it ended, and the calls of the callback so far.
  datatype AuthEnd = AuthEnd(world: World, reply: Reply, flow: Flow, checks: seq<Check>)

  predicate EntriesIn(entries: seq<Entry>, world: World) { forall i :: 0 <= i < |entries| ==> entries[i].route in world }

  // What authorization does for one matching entry: None when it goes on to the next.
  function Authorize(e: Entry, s: RouteState, request: Request, reply: Reply, callback: AuthCallback): (Option<Reply>, seq<Check>) {
    var header := AuthHeader(request.headers);
    if header.None? then (Some(reply.(status := FORBIDDEN)), [])
    else
      var token := ExtractToken(header.value);
      if token == "" then (Some(reply.(status := FORBIDDEN)), [])
      else
        var verdict := callback(token, s, e.level);
        (if verdict.Raises? then Some(reply.(status := INTERNAL_SERVER_ERROR))
         else if !verdict.success then Some(reply.(body := ErrorBody(verdict.reason), status := UNAUTHORIZED))
         else None,
         [Check(token, e, s, verdict)])
  }

  function AuthRun(entries: seq<Entry>, i: nat, callback: AuthCallback, world: World, request: Request, reply: Reply,
                   checks: seq<Check>): AuthEnd
    requires i <= |entries| && EntriesIn(entries, world)
    decreases |entries| - i
  {
    if i == |entries| then AuthEnd(world, reply, Goes, checks)
    else
      var e, outcome := entries[i], TryRoute(world[entries[i].route], request).outcome;
      var world' := Tried(world, e.route, request);
      if outcome.NoMatch? then AuthRun(entries, i + 1, callback, world', request, reply, checks)
      else if outcome.Throws? then AuthEnd(world', reply.(status := INTERNAL_SERVER_ERROR), Stops, checks)
      else
        var (stop, made) := Authorize(e, world'[e.route], request, reply, callback);
        if stop.Some? then AuthEnd(world', stop.value, Stops, checks + made)
        else AuthRun(entries, i + 1, callback, world', request, reply, checks + made)
  }

  class AuthMiddleware {
    var entries: seq<Entry>
    var callback: AuthCallback

    constructor (callback: AuthCallback)
      ensures entries == [] && this.callback == callback
    {
      entries, this.callback := [], callback;
    }

    method AuthorizeRoute(route: Target, level: Level)
      modifies this`entries
      ensures entries == old(entries) + [Entry(route, level)]
    {
      entries := entries + [Entry(route, level)];
    }

    // `before` are the calls of callbacks that were made before this member ran.
    method Execute(ghost all: set<Target>, request: Request, response: Response, ghost before: seq<Check>)
      returns (goOn: bool, ghost checks: seq<Check>)
      requires forall i :: 0 <= i < |entries| ==> entries[i].route in all
      modifies all, response`status, response`body
      ensures AuthRun(entries, 0, callback, old(Snapshot(all)), request, old(ReplyOf(response)), before) ==
        AuthEnd(Snapshot(all), ReplyOf(response), if goOn then Goes else Stops, checks)
    {
      hide Authorize, Tried, TryRoute;
      checks := before;
      for i := 0 to |entries|
        invariant forall j :: 0 <= j < |entries| ==> entries[j].route in all
        invariant AuthRun(entries, 0, callback, old(Snapshot(all)), request, old(ReplyOf(response)), before) ==
          AuthRun(entries, i, callback, Snapshot(all), request, ReplyOf(response), checks)
      {
        var outcome := MatchRoute(entries[i].route, all, request);
        if outcome.NoMatch? { continue; }
        if outcome.Throws? {
          response.SetStatus(INTERNAL_SERVER_ERROR);
          return false, checks;
        }
        var ok;
        ghost var made;
        ok, made := CheckEntry(entries[i], request, response);
        checks := checks + made;
        if !ok { return false, checks; }
      }
      return true, checks;
    }

    // The header, the token and the callback's verdict, for one matching entry.
    method CheckEntry(e: Entry, request: Request, response: Response) returns (ok: bool, ghost made: seq<Check>)
      modifies response`status, response`body
      ensures var s := RouteState(e.route.path, e.route.uriTarget, e.route.httpMethod, e.route.params);
        var r := Authorize(e, s, request, old(ReplyOf(response)), callback);
        made == r.1 && (if ok then r.0.None? && ReplyOf(response) == old(ReplyOf(response))
                        else r.0 == Some(ReplyOf(response)))
    {
      made := [];
      var header := AuthHeader(request.headers);
      if header.None? {
        response.SetStatus(FORBIDDEN);
        return false, made;
      }
      var token := ExtractToken(header.value);
      if token == "" {
        response.SetStatus(FORBIDDEN);
        return false, made;
      }
      var route := e.route;
      var s := RouteState(route.path, route.uriTarget, route.httpMethod, route.params);
      var verdict := callback(token, s, e.level);
      made := [Check(token, e, s, verdict)];
      if verdict.Raises? {
        response.SetStatus(INTERNAL_SERVER_ERROR);
        return false, made;
      }
      if !verdict.success {
        response.SetBody(ErrorBody(verdict.reason));
        response.SetStatus(UNAUTHORIZED);
        return false, made;
      }
      return true, made;
    }
  }

  /* ---- Routing ---- */

  // What an endpoint does to the response; the source's exception is Failed.
  datatype Answer = Answered(reply: Reply) | Failed(reply: Reply)

  type Endpoint = (Request, Reply, seq<Route.Param>) -> Answer

  datatype Registered = Registered(route: Target, endpoint: Endpoint)

  // A call of an endpoint that was made: which registration's, and with which path parameters.
  datatype Dispatch = Dispatch(index: nat, route: Target, params: seq<Route.Param>)

  datatype RoutingEnd = RoutingEnd(world: World, reply: Reply, flow: Flow, dispatched: Option<Dispatch>)

  predicate RoutersIn(routers: seq<Registered>, world: World) {
    forall i :: 0 <= i < |routers| ==> routers[i].route in world
  }

  // The status 404 of an unanswered request also replaces the 500 of a failed endpoint.
  function RoutingRun(routers: seq<Registered>, i: nat, world: World, request: Request, reply: Reply): RoutingEnd
    requires i <= |routers| && RoutersIn(routers, world)
    decreases |routers| - i
  {
    if i == |routers| then RoutingEnd(world, reply.(status := NOT_FOUND), Stops, None)
    else
      var r, outcome := routers[i].route, TryRoute(world[routers[i].route], request).outcome;
      var world' := Tried(world, r, request);
      if outcome.NoMatch? then RoutingRun(routers, i + 1, world', request, reply)
      else if outcome.Throws? then RoutingEnd(world', reply, Escapes, None)
      else
        var params := world'[r].params;
        var answer := routers[i].endpoint(request, reply, params);
        RoutingEnd(world', if answer.Failed? then answer.reply.(status := NOT_FOUND) else answer.reply, Stops,
                   Some(Dispatch(i, r, params)))
  }

  class RoutingMiddleware {
    var routers: seq<Registered>

    constructor ()
      ensures routers == []
    {
      routers := [];
    }

    method AddRouter(r: Registered)
      modifies this
      ensures routers == old(routers) + [r]
    {
      routers := routers + [r];
    }

    method Execute(ghost all: set<Target>, request: Request, response: Response)
      returns (escapes: bool, ghost dispatched: Option<Dispatch>)
      requires forall i :: 0 <= i < |routers| ==> routers[i].route in all
      modifies all, response`status, response`body, response`headers
      ensures RoutingRun(routers, 0, old(Snapshot(all)), request, old(ReplyOf(response))) ==
        RoutingEnd(Snapshot(all), ReplyOf(response), if escapes then Escapes else Stops, dispatched)
    {
      hide Tried, TryRoute;
      var routeFound := false;
      dispatched := None;
      for i := 0 to |routers|
        invariant !routeFound && dispatched == None
        invariant forall j :: 0 <= j < |routers| ==> routers[j].route in all
        invariant RoutingRun(routers, 0, old(Snapshot(all)), request, old(ReplyOf(response))) ==
          RoutingRun(routers, i, Snapshot(all), request, ReplyOf(response))
      {
        var outcome := MatchRoute(routers[i].route, all, request);
        if outcome.Throws? { return true, None; }
        if outcome.Match? {
          var params := routers[i].route.params;
          dispatched := Some(Dispatch(i, routers[i].route, params));
          routeFound := Call(routers[i].endpoint, request, response, params);
          break;
        }
      }
      if !routeFound { response.SetStatus(NOT_FOUND); }
      return false, dispatched;
    }

    // Runs the endpoint on the response and catches its exception.
    method Call(endpoint: Endpoint, request: Request, response: Response, params: seq<Route.Param>) returns (ok: bool)
      modifies response`status, response`body, response`headers
      ensures var answer := endpoint(request, old(ReplyOf(response)), params);
        ok == answer.Answered? &&
        ReplyOf(response) == if ok then answer.reply else answer.reply.(status := INTERNAL_SERVER_ERROR)
    {
      var answer := endpoint(request, Reply(response.status, response.body, response.headers), params);
      response.status, response.body, response.headers := answer.reply.status, answer.reply.body, answer.reply.headers;
      if answer.Failed? { response.SetStatus(INTERNAL_SERVER_ERROR); }
      return answer.Answered?;
    }
  }

  /* ---- The chain ---- */

  // A member of the chain. Steps that leave the routes alone are given as functions.
  datatype Member = AuthMember(auth: AuthMiddleware) | RoutingMember(routing: RoutingMiddleware) | OtherMember(step: Step)

  type Step = (Request, Reply) -> (Reply, Flow)

  // What a member consists of at a moment.
  datatype Link = AuthLink(entries: seq<Entry>, callback: AuthCallback) | RoutingLink(routers: seq<Registered>)
                | OtherLink(step: Step)

  ghost function LinkOf(m: Member): Link
    reads if m.AuthMember? then {m.auth} else {}, if m.RoutingMember? then {m.routing} else {}
  {
    match m
    case AuthMember(auth) => AuthLink(auth.entries, auth.callback)
    case RoutingMember(routing) => RoutingLink(routing.routers)
    case OtherMember(step) => OtherLink(step)
  }

  predicate LinkIn(link: Link, world: World) {
    match link
    case AuthLink(entries, _) => EntriesIn(entries, world)
    case RoutingLink(routers) => RoutersIn(routers, world)
    case OtherLink(_) => true
  }

  predicate LinksIn(links: seq<Link>, world: World) { forall i :: 0 <= i < |links| ==> LinkIn(links[i], world) }

  // The routes, the response, how the chain ended, the calls of authorization callbacks, and the
  // endpoint that was called.
  datatype ChainEnd = ChainEnd(world: World, reply: Reply, flow: Flow, checks: seq<Check>, dispatched: Option<Dispatch>)

  function LinkRun(link: Link, world: World, request: Request, reply: Reply, checks: seq<Check>): ChainEnd
    requires LinkIn(link, world)
  {
    match link
    case AuthLink(entries, callback) =>
      var r := AuthRun(entries, 0, callback, world, request, reply, checks);
      ChainEnd(r.world, r.reply, r.flow, r.checks, None)
    case RoutingLink(routers) =>
      var r := RoutingRun(routers, 0, world, request, reply);
      ChainEnd(r.world, r.reply, r.flow, checks, r.dispatched)
    case OtherLink(step) =>
      var (reply', flow) := step(request, reply);
      ChainEnd(world, reply', flow, checks, None)
  }

  // The chain from the i-th member on.
  function ChainRun(links: seq<Link>, i: nat, world: World, request: Request, reply: Reply, checks: seq<Check>): ChainEnd
    requires i <= |links| && LinksIn(links, world)
    decreases |links| - i
  {
    if i == |links| then ChainEnd(world, reply, Goes, checks, None)
    else
      var r := LinkRun(links[i], world, request, reply, checks);
      KeysStay(links[i], world, request, reply, checks);
      if r.flow != Goes then r else ChainRun(links, i + 1, r.world, request, r.reply, r.checks)
  }

  // No member adds or removes a route.
  lemma KeysStay(link: Link, world: World, request: Request, reply: Reply, checks: seq<Check>)
    requires LinkIn(link, world)
    ensures LinkRun(link, world, request, reply, checks).world.Keys == world.Keys
  {
    match link
    case AuthLink(entries, callback) => AuthKeysStay(entries, 0, callback, world, request, reply, checks);
    case RoutingLink(routers) => RoutingKeysStay(routers, 0, world, request, reply);
    case OtherLink(_) =>
  }

  lemma {:induction false} AuthKeysStay(entries: seq<Entry>, i: nat, callback: AuthCallback, world: World,
                                        request: Request, reply: Reply, checks: seq<Check>)
    requires i <= |entries| && EntriesIn(entries, world)
    ensures AuthRun(entries, i, callback, world, request, reply, checks).world.Keys == world.Keys
    decreases |entries| - i
  {
    hide Authorize, TryRoute;
    if i < |entries| {
      var e := entries[i];
      var world' := Tried(world, e.route, request);
      var r := Authorize(e, world'[e.route], request, reply, callback);
      AuthKeysStay(entries, i + 1, callback, world', request, reply, checks);
      AuthKeysStay(entries, i + 1, callback, world', request, reply, checks + r.1);
    }
  }

  lemma {:induction false} RoutingKeysStay(routers: seq<Registered>, i: nat, world: World, request: Request, reply: Reply)
    requires i <= |routers| && RoutersIn(routers, world)
    ensures RoutingRun(routers, i, world, request, reply).world.Keys == world.Keys
    decreases |routers| - i
  {
    hide TryRoute;
    if i < |routers| { RoutingKeysStay(routers, i + 1, Tried(world, routers[i].route, request), request, reply); }
  }
}
