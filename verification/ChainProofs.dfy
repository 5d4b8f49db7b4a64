/**
 When the chain calls an endpoint: exactly when every member before a routing member lets the request pass
 and that member has a first route that matches it.
 */
module ChainProofs {
  import opened Text
  import Route
  import RouteMatching
  import opened HttpParser
  import opened HttpResponse
  import opened Middleware
  import opened MiddlewareProofs

  /* ---- Attempts in a row ---- */

  predicate AreIn(routes: seq<Target>, world: World) { forall i :: 0 <= i < |routes| ==> routes[i] in world }

  // The routes after a match attempt on each of the first n.
  function TriedAll(routes: seq<Target>, n: nat, world: World, request: Request): (w: World)
    requires n <= |routes| && AreIn(routes, world)
    ensures w.Keys == world.Keys
  {
    if n == 0 then world else Tried(TriedAll(routes, n - 1, world, request), routes[n - 1], request)
  }

  lemma {:induction false} TriedAllKeeps(routes: seq<Target>, n: nat, world: World, request: Request)
    requires n <= |routes| && AreIn(routes, world)
    ensures SameTemplates(world, TriedAll(routes, n, world, request))
  {
    hide Tried;
    if n > 0 {
      TriedAllKeeps(routes, n - 1, world, request);
      TriedKeepsTemplates(TriedAll(routes, n - 1, world, request), routes[n - 1], request);
    }
  }

  // An attempt's outcome does not depend on the attempts before it.
  lemma TriedAllDecides(routes: seq<Target>, n: nat, world: World, r: Target, request: Request)
    requires n <= |routes| && AreIn(routes, world) && r in world
    ensures TryRoute(TriedAll(routes, n, world, request)[r], request) == TryRoute(world[r], request)
  {
    hide TryRoute, TriedAll;
    TriedAllKeeps(routes, n, world, request);
    TemplatesDecide(world, TriedAll(routes, n, world, request), r, request);
  }

  // Only a request with the route's own method matches.
  lemma MatchHasMethod(s: RouteState, request: Request)
    requires s.httpMethod != request.httpMethod
    ensures TryRoute(s, request) == Route.Attempt(Route.NoMatch, [], 0)
  {
    RouteMatching.WrongMethod(s.Fixed(), request.target, request.httpMethod);
  }

  /* ---- Authorization ---- */

  function EntryRoutes(entries: seq<Entry>): (r: seq<Target>)
    ensures |r| == |entries| && forall i :: 0 <= i < |entries| ==> r[i] == entries[i].route
  {
    seq(|entries|, i requires 0 <= i < |entries| => entries[i].route)
  }

  // The request has a token, and the callback approves it for this entry.
  predicate Approves(e: Entry, s: RouteState, request: Request, callback: AuthCallback) {
    var header := AuthHeader(request.headers);
    && header.Some? && ExtractToken(header.value) != ""
    && var verdict := callback(ExtractToken(header.value), s, e.level); verdict.Verdict? && verdict.success
  }

  // What the response becomes when it does not.
  function Refusal(e: Entry, s: RouteState, request: Request, callback: AuthCallback, reply: Reply): Reply {
    var header := AuthHeader(request.headers);
    if header.None? || ExtractToken(header.value) == "" then reply.(status := Status(403, "Forbidden"))
    else
      match callback(ExtractToken(header.value), s, e.level)
      case Raises => reply.(status := Status(500, "Internal Server Error"))
      case Verdict(_, reason) => reply.(status := Status(401, "Unauthorized"), body := "{\"error\": \"" + reason + "\"}")
  }

  // The route of the j-th entry right after the attempt on it.
  function StateAt(entries: seq<Entry>, j: nat, world: World, request: Request): RouteState
    requires j < |entries| && EntriesIn(entries, world)
  {
    TriedAll(EntryRoutes(entries), j + 1, world, request)[entries[j].route]
  }

  // The j-th entry lets the request pass: its route does not match, or the request is approved for it.
  predicate EntryPasses(entries: seq<Entry>, j: nat, callback: AuthCallback, world: World, request: Request)
    requires j < |entries| && EntriesIn(entries, world)
  {
    match TryRoute(world[entries[j].route], request).outcome
    case NoMatch => true
    case Throws => false
    case Match => Approves(entries[j], StateAt(entries, j, world, request), request, callback)
  }

  ghost predicate AuthPasses(entries: seq<Entry>, n: nat, callback: AuthCallback, world: World, request: Request)
    requires n <= |entries| && EntriesIn(entries, world)
  {
    forall j :: 0 <= j < n ==> EntryPasses(entries, j, callback, world, request)
  }

  // What the response becomes when the j-th entry does not let the request pass.
  function EntryRefusal(entries: seq<Entry>, j: nat, callback: AuthCallback, world: World, request: Request, reply: Reply): Reply
    requires j < |entries| && EntriesIn(entries, world)
  {
    if TryRoute(world[entries[j].route], request).outcome.Throws? then reply.(status := Status(500, "Internal Server Error"))
    else Refusal(entries[j], StateAt(entries, j, world, request), request, callback, reply)
  }

  lemma AuthorizeIs(e: Entry, s: RouteState, request: Request, reply: Reply, callback: AuthCallback)
    ensures var r := Authorize(e, s, request, reply, callback).0;
      (r.None? <==> Approves(e, s, request, callback)) && (r.Some? ==> r.value == Refusal(e, s, request, callback, reply))
  {
    hide AuthHeader, ExtractToken;
  }

  // From the i-th entry on, when those before it have let the request pass.
  lemma {:induction false} AuthFrom(entries: seq<Entry>, i: nat, callback: AuthCallback, world: World, request: Request,
                                    reply: Reply, checks: seq<Check>)
    requires i <= |entries| && EntriesIn(entries, world) && AuthPasses(entries, i, callback, world, request)
    ensures var n := |entries|;
      var r := AuthRun(entries, i, callback, TriedAll(EntryRoutes(entries), i, world, request), request, reply, checks);
      && (r.flow == Goes <==> AuthPasses(entries, n, callback, world, request))
      && (r.flow == Goes ==> r.reply == reply && r.world == TriedAll(EntryRoutes(entries), n, world, request))
      && (r.flow != Goes ==> r.flow == Stops && exists j ::
            && 0 <= j < n && AuthPasses(entries, j, callback, world, request)
            && !EntryPasses(entries, j, callback, world, request)
            && r.reply == EntryRefusal(entries, j, callback, world, request, reply))
    decreases |entries| - i
  {
    hide TryRoute, Tried, Authorize, Approves, Refusal;
    if i < |entries| {
      var e, w := entries[i], TriedAll(EntryRoutes(entries), i, world, request);
      var w' := TriedAll(EntryRoutes(entries), i + 1, world, request);
      TriedAllDecides(EntryRoutes(entries), i, world, e.route, request);
      AuthorizeIs(e, w'[e.route], request, reply, callback);
      var made := Authorize(e, w'[e.route], request, reply, callback).1;
      if EntryPasses(entries, i, callback, world, request) {
        AuthFrom(entries, i + 1, callback, world, request, reply, checks);
        AuthFrom(entries, i + 1, callback, world, request, reply, checks + made);
      }
    }
  }

  // Authorization goes on exactly when no attempt raises an exception and every matching entry has a token its
  // callback approves; it then leaves the response alone. Otherwise the first entry that does not let the
  // request pass makes the response.
  lemma AuthGoesOnIff(entries: seq<Entry>, callback: AuthCallback, world: World, request: Request, reply: Reply, checks: seq<Check>)
    requires EntriesIn(entries, world)
    ensures var n := |entries|;
      var r := AuthRun(entries, 0, callback, world, request, reply, checks);
      && (r.flow == Goes <==> AuthPasses(entries, n, callback, world, request))
      && (r.flow == Goes ==> r.reply == reply && r.world == TriedAll(EntryRoutes(entries), n, world, request))
      && (r.flow != Goes ==> r.flow == Stops && exists j ::
            && 0 <= j < n && AuthPasses(entries, j, callback, world, request)
            && !EntryPasses(entries, j, callback, world, request)
            && r.reply == EntryRefusal(entries, j, callback, world, request, reply))
  {
    hide EntryPasses, AuthRun;
    AuthFrom(entries, 0, callback, world, request, reply, checks);
  }

  /* ---- Routing ---- */

  function RouterRoutes(routers: seq<Registered>): (r: seq<Target>)
    ensures |r| == |routers| && forall i :: 0 <= i < |routers| ==> r[i] == routers[i].route
  {
    seq(|routers|, i requires 0 <= i < |routers| => routers[i].route)
  }

  // The k-th registration is the first that matches.
  ghost predicate FirstMatches(routers: seq<Registered>, k: nat, world: World, request: Request)
    requires RoutersIn(routers, world)
  {
    k < |routers| && Outcome(world, routers[k].route, request, Route.Match) && NoneBefore(routers, 0, k, world, request)
  }

  // The response of an endpoint: its own, or 404 in place of a failed one's.
  function Outgoing(answer: Answer): Reply {
    match answer
    case Answered(reply) => reply
    case Failed(reply) => reply.(status := Status(404, "Not Found"))
  }

  // What routing comes to when its k-th registration is called.
  function Called(routers: seq<Registered>, k: nat, world: World, request: Request, reply: Reply): RoutingEnd
    requires k < |routers| && RoutersIn(routers, world)
  {
    var w := TriedAll(RouterRoutes(routers), k + 1, world, request);
    var params := w[routers[k].route].params;
    RoutingEnd(w, Outgoing(routers[k].endpoint(request, reply, params)), Stops, Some(Dispatch(k, routers[k].route, params)))
  }

  lemma {:induction false} RoutingFrom(routers: seq<Registered>, i: nat, k: nat, world: World, request: Request, reply: Reply)
    requires i <= k <= |routers| && RoutersIn(routers, world) && NoneBefore(routers, 0, k, world, request)
    ensures RoutingRun(routers, i, TriedAll(RouterRoutes(routers), i, world, request), request, reply) ==
      RoutingRun(routers, k, TriedAll(RouterRoutes(routers), k, world, request), request, reply)
    decreases k - i
  {
    hide TryRoute, Tried;
    if i < k {
      assert Outcome(world, routers[i].route, request, Route.NoMatch);
      TriedAllDecides(RouterRoutes(routers), i, world, routers[i].route, request);
      RoutingFrom(routers, i + 1, k, world, request, reply);
    }
  }

  // The first registration that matches is called, with the request's own method; without one the status is 404.
  lemma RoutingCalls(routers: seq<Registered>, k: nat, world: World, request: Request, reply: Reply)
    requires RoutersIn(routers, world)
    ensures FirstMatches(routers, k, world, request) ==>
      && RoutingRun(routers, 0, world, request, reply) == Called(routers, k, world, request, reply)
      && world[routers[k].route].httpMethod == request.httpMethod
    ensures k == |routers| && NoneBefore(routers, 0, k, world, request) ==>
      RoutingRun(routers, 0, world, request, reply) ==
        RoutingEnd(TriedAll(RouterRoutes(routers), k, world, request), reply.(status := Status(404, "Not Found")), Stops, None)
  {
    hide TryRoute, Tried;
    if k <= |routers| && NoneBefore(routers, 0, k, world, request) {
      RoutingFrom(routers, 0, k, world, request, reply);
      if k < |routers| {
        TriedAllDecides(RouterRoutes(routers), k, world, routers[k].route, request);
        if world[routers[k].route].httpMethod != request.httpMethod { MatchHasMethod(world[routers[k].route], request); }
      }
    }
  }

  /* ---- The chain ---- */

  // Whether a member lets the request pass, and what it leaves then.
  ghost predicate LinkPasses(link: Link, world: World, request: Request, reply: Reply)
    requires LinkIn(link, world)
  {
    match link
    case AuthLink(entries, callback) => AuthPasses(entries, |entries|, callback, world, request)
    case RoutingLink(_) => false
    case OtherLink(step) => step(request, reply).1 == Goes
  }

  function Passed(link: Link, world: World, request: Request, reply: Reply): (r: (World, Reply))
    requires LinkIn(link, world)
    ensures r.0.Keys == world.Keys
  {
    match link
    case AuthLink(entries, _) => (TriedAll(EntryRoutes(entries), |entries|, world, request), reply)
    case RoutingLink(_) => (world, reply)
    case OtherLink(step) => (world, step(request, reply).0)
  }

  // What the first n members leave when all of them let the request pass.
  function PassedAll(links: seq<Link>, n: nat, world: World, request: Request, reply: Reply): (r: (World, Reply))
    requires n <= |links| && LinksIn(links, world)
    ensures r.0.Keys == world.Keys
  {
    if n == 0 then (world, reply)
    else
      var before := PassedAll(links, n - 1, world, request, reply);
      Passed(links[n - 1], before.0, request, before.1)
  }

  ghost predicate Lets(links: seq<Link>, i: nat, world: World, request: Request, reply: Reply)
    requires i < |links| && LinksIn(links, world)
  {
    var before := PassedAll(links, i, world, request, reply);
    LinkPasses(links[i], before.0, request, before.1)
  }

  ghost predicate AllLet(links: seq<Link>, n: nat, world: World, request: Request, reply: Reply)
    requires n <= |links| && LinksIn(links, world)
  {
    forall i :: 0 <= i < n ==> Lets(links, i, world, request, reply)
  }

  lemma LinkGoesIff(link: Link, world: World, request: Request, reply: Reply, checks: seq<Check>)
    requires LinkIn(link, world)
    ensures var r := LinkRun(link, world, request, reply, checks);
      && (r.flow == Goes <==> LinkPasses(link, world, request, reply))
      && (r.flow == Goes ==> (r.world, r.reply) == Passed(link, world, request, reply) && r.dispatched == None)
      && (r.flow != Goes && !link.RoutingLink? ==> r.dispatched == None)
  {
    hide AuthRun, RoutingRun, AuthPasses, TriedAll;
    match link
    case AuthLink(entries, callback) => AuthGoesOnIff(entries, callback, world, request, reply, checks);
    case RoutingLink(routers) => FirstMatchWins(routers, 0, world, request, reply);
    case OtherLink(_) =>
  }

  // The chain from its n-th member on, with the checks made before it.
  lemma {:induction false} ChainReaches(links: seq<Link>, i: nat, n: nat, world: World, request: Request, reply: Reply,
                                        checks: seq<Check>) returns (made: seq<Check>)
    requires i <= n <= |links| && LinksIn(links, world) && AllLet(links, n, world, request, reply)
    ensures var a, b := PassedAll(links, i, world, request, reply), PassedAll(links, n, world, request, reply);
      ChainRun(links, i, a.0, request, a.1, checks) == ChainRun(links, n, b.0, request, b.1, made)
    decreases n - i
  {
    hide LinkRun, LinkPasses, Passed;
    if i == n {
      made := checks;
    } else {
      var a := PassedAll(links, i, world, request, reply);
      assert Lets(links, i, world, request, reply);
      LinkGoesIff(links[i], a.0, request, a.1, checks);
      made := ChainReaches(links, i + 1, n, world, request, reply, LinkRun(links[i], a.0, request, a.1, checks).checks);
    }
  }

  // When every member before a routing member lets the request pass, and that member has a first registration
  // that matches: its endpoint is called, with the response the members before left and the route's parameters
  // as the match left them, and the chain ends with the endpoint's response, or 404 for a failed one's.
  lemma ChainCalls(links: seq<Link>, n: nat, k: nat, world: World, request: Request, reply: Reply)
    requires n < |links| && LinksIn(links, world) && AllLet(links, n, world, request, reply) && links[n].RoutingLink?
    requires FirstMatches(links[n].routers, k, PassedAll(links, n, world, request, reply).0, request)
    ensures var before := PassedAll(links, n, world, request, reply);
      var called := Called(links[n].routers, k, before.0, request, before.1);
      var r := ChainRun(links, 0, world, request, reply, []);
      && r.world == called.world && r.reply == called.reply && r.flow == Stops && r.dispatched == called.dispatched
      && before.0[links[n].routers[k].route].httpMethod == request.httpMethod
  {
    hide AllLet, FirstMatches, Called, RoutingRun;
    var before := PassedAll(links, n, world, request, reply);
    var made := ChainReaches(links, 0, n, world, request, reply, []);
    RoutingCalls(links[n].routers, k, before.0, request, before.1);
    CalledStops(links[n].routers, k, before.0, request, before.1);
  }

  lemma CalledStops(routers: seq<Registered>, k: nat, world: World, request: Request, reply: Reply)
    requires RoutersIn(routers, world) && FirstMatches(routers, k, world, request)
    ensures Called(routers, k, world, request, reply).flow == Stops && k < |routers|
  {
  }

  // Without a registration that matches, the chain ends with status 404.
  lemma ChainNotFound(links: seq<Link>, n: nat, world: World, request: Request, reply: Reply)
    requires n < |links| && LinksIn(links, world) && AllLet(links, n, world, request, reply) && links[n].RoutingLink?
    requires var w := PassedAll(links, n, world, request, reply).0;
      NoneBefore(links[n].routers, 0, |links[n].routers|, w, request)
    ensures var r := ChainRun(links, 0, world, request, reply, []);
      && r.reply == PassedAll(links, n, world, request, reply).1.(status := Status(404, "Not Found"))
      && r.flow == Stops && r.dispatched == None
  {
    hide AllLet, RoutingRun, NoneBefore;
    var before := PassedAll(links, n, world, request, reply);
    var made := ChainReaches(links, 0, n, world, request, reply, []);
    RoutingCalls(links[n].routers, |links[n].routers|, before.0, request, before.1);
  }

  // A member that does not let the request pass ends the chain; when all do, it runs to its end.
  lemma ChainStops(links: seq<Link>, n: nat, world: World, request: Request, reply: Reply)
    requires n <= |links| && LinksIn(links, world) && AllLet(links, n, world, request, reply)
    requires n < |links| ==> !links[n].RoutingLink? && !Lets(links, n, world, request, reply)
    ensures var before := PassedAll(links, n, world, request, reply);
      var r := ChainRun(links, 0, world, request, reply, []);
      && r.dispatched == None && (r.flow == Goes <==> n == |links|)
      && (n == |links| ==> r.world == before.0 && r.reply == before.1)
      && (n < |links| && links[n].OtherLink? ==> (r.reply, r.flow) == links[n].step(request, before.1))
      && (n < |links| && links[n].AuthLink? ==> exists j ::
            && 0 <= j < |links[n].entries| && AuthPasses(links[n].entries, j, links[n].callback, before.0, request)
            && !EntryPasses(links[n].entries, j, links[n].callback, before.0, request)
            && r.reply == EntryRefusal(links[n].entries, j, links[n].callback, before.0, request, before.1))
  {
    hide AllLet, AuthPasses, EntryPasses, EntryRefusal, AuthRun;
    var before := PassedAll(links, n, world, request, reply);
    var made := ChainReaches(links, 0, n, world, request, reply, []);
    if n < |links| {
      LinkGoesIff(links[n], before.0, request, before.1, made);
      if links[n].AuthLink? { AuthGoesOnIff(links[n].entries, links[n].callback, before.0, request, before.1, made); }
    }
  }

  // The first member that does not let the request pass, if there is one.
  lemma {:induction false} FirstStop(links: seq<Link>, i: nat, world: World, request: Request, reply: Reply) returns (n: nat)
    requires i <= |links| && LinksIn(links, world) && AllLet(links, i, world, request, reply)
    ensures i <= n <= |links| && AllLet(links, n, world, request, reply)
    ensures n < |links| ==> !Lets(links, n, world, request, reply)
    decreases |links| - i
  {
    hide Lets;
    n := i;
    if i < |links| && Lets(links, i, world, request, reply) { n := FirstStop(links, i + 1, world, request, reply); }
  }

  // Exactly when an endpoint is called.
  lemma ChainCallsIff(links: seq<Link>, world: World, request: Request, reply: Reply)
    requires LinksIn(links, world)
    ensures ChainRun(links, 0, world, request, reply, []).dispatched.Some? <==>
      exists n, k ::
        && 0 <= n < |links| && links[n].RoutingLink? && AllLet(links, n, world, request, reply)
        && FirstMatches(links[n].routers, k, PassedAll(links, n, world, request, reply).0, request)
  {
    hide Lets, ChainRun, FirstMatches, Called;
    var r := ChainRun(links, 0, world, request, reply, []);
    forall n: nat, k: nat | n < |links| && links[n].RoutingLink? && AllLet(links, n, world, request, reply) &&
        FirstMatches(links[n].routers, k, PassedAll(links, n, world, request, reply).0, request)
      ensures r.dispatched.Some?
    {
      ChainCalls(links, n, k, world, request, reply);
      var before := PassedAll(links, n, world, request, reply);
      CalledIsSome(links[n].routers, k, before.0, request, before.1);
    }
    if r.dispatched.Some? {
      var n := FirstStop(links, 0, world, request, reply);
      if n == |links| || !links[n].RoutingLink? {
        ChainStops(links, n, world, request, reply);
      } else {
        StoppedByRouting(links, n, world, request, reply);
      }
    }
  }

  lemma CalledIsSome(routers: seq<Registered>, k: nat, world: World, request: Request, reply: Reply)
    requires RoutersIn(routers, world) && FirstMatches(routers, k, world, request)
    ensures k < |routers| && Called(routers, k, world, request, reply).dispatched.Some?
  {
  }

  lemma StoppedByRouting(links: seq<Link>, n: nat, world: World, request: Request, reply: Reply)
    requires n < |links| && LinksIn(links, world) && AllLet(links, n, world, request, reply) && links[n].RoutingLink?
    requires ChainRun(links, 0, world, request, reply, []).dispatched.Some?
    ensures exists k :: FirstMatches(links[n].routers, k, PassedAll(links, n, world, request, reply).0, request)
  {
    hide AllLet, RoutingRun, Outcome, NoneBefore;
    var before := PassedAll(links, n, world, request, reply);
    var made := ChainReaches(links, 0, n, world, request, reply, []);
    FirstMatchWins(links[n].routers, 0, before.0, request, before.1);
    var d := RoutingRun(links[n].routers, 0, before.0, request, before.1).dispatched.value;
    assert FirstMatches(links[n].routers, d.index, before.0, request);
  }

  // Any other member may stand in a chain, whatever the routes; alone it decides the response and how the chain ends.
  lemma OtherMemberAlone(step: Step, world: World, request: Request, reply: Reply)
    ensures var links := [OtherLink(step)];
      LinksIn(links, world) &&
      var r := ChainRun(links, 0, world, request, reply, []);
      (r.reply, r.flow) == step(request, reply) && r.world == world && r.dispatched == None && r.checks == []
  {
    var links, r := [OtherLink(step)], step(request, reply);
    assert LinkRun(links[0], world, request, reply, []) == ChainEnd(world, r.0, r.1, [], None);
    if r.1 == Goes { assert ChainRun(links, 1, world, request, r.0, []) == ChainEnd(world, r.0, Goes, [], None); }
  }
}
