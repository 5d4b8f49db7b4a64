/**
 What the chain guarantees: an endpoint that is called is the first that matches, and with
 authorization before routing, every matching protected route was approved for a non-empty token.
 */
module MiddlewareProofs {
  import opened Text
  import Route
  import opened HttpParser
  import opened HttpResponse
  import opened Middleware

  /* ---- Templates never change ---- */

  lemma TemplatesDecide(world: World, later: World, r: Target, request: Request)
    requires r in world && SameTemplates(world, later)
    ensures TryRoute(later[r], request) == TryRoute(world[r], request)
  {
    hide Route.Try;
  }

  lemma {:induction false} AuthKeepsTemplates(entries: seq<Entry>, i: nat, callback: AuthCallback, world: World,
                                              request: Request, reply: Reply, checks: seq<Check>)
    requires i <= |entries| && EntriesIn(entries, world)
    ensures SameTemplates(world, AuthRun(entries, i, callback, world, request, reply, checks).world)
    decreases |entries| - i
  {
    hide Authorize, TryRoute, Tried, Route.Names;
    if i < |entries| {
      var e := entries[i];
      var world' := Tried(world, e.route, request);
      TriedKeepsTemplates(world, e.route, request);
      var made := Authorize(e, world'[e.route], request, reply, callback).1;
      AuthKeepsTemplates(entries, i + 1, callback, world', request, reply, checks);
      AuthKeepsTemplates(entries, i + 1, callback, world', request, reply, checks + made);
    }
  }

  lemma {:induction false} RoutingKeepsTemplates(routers: seq<Registered>, i: nat, world: World, request: Request, reply: Reply)
    requires i <= |routers| && RoutersIn(routers, world)
    ensures SameTemplates(world, RoutingRun(routers, i, world, request, reply).world)
    decreases |routers| - i
  {
    hide TryRoute, Tried, Route.Names;
    if i < |routers| {
      TriedKeepsTemplates(world, routers[i].route, request);
      RoutingKeepsTemplates(routers, i + 1, Tried(world, routers[i].route, request), request, reply);
    }
  }

  lemma LinkKeepsTemplates(link: Link, world: World, request: Request, reply: Reply, checks: seq<Check>)
    requires LinkIn(link, world)
    ensures SameTemplates(world, LinkRun(link, world, request, reply, checks).world)
  {
    hide AuthRun, RoutingRun;
    match link
    case AuthLink(entries, callback) => AuthKeepsTemplates(entries, 0, callback, world, request, reply, checks);
    case RoutingLink(routers) => RoutingKeepsTemplates(routers, 0, world, request, reply);
    case OtherLink(_) =>
  }

  /* ---- Authorization ---- */

  // The token is what follows the first "Bearer ", wherever in the header that stands.
  lemma TokenFollowsBearer(a: string, token: string)
    requires forall j: nat :: j < |a| ==> !Occurs(a + ("Bearer " + token), "Bearer ", j)
    ensures ExtractToken(a + ("Bearer " + token)) == token
  {
    var header := a + (BEARER + token);
    assert header[|a|..|a| + |BEARER|] == BEARER;
    FindIs(header, BEARER, 0, |a|);
  }

  // The header is looked for under its capitalised name first, and then under the lower-case one.
  lemma HeaderNames(headers: Headers, value: string)
    ensures AuthHeader(headers["Authorization" := value]) == Some(value)
    ensures "Authorization" !in headers ==> AuthHeader(headers["authorization" := value]) == Some(value)
    ensures "Authorization" !in headers && "authorization" !in headers ==> AuthHeader(headers) == None
  {
    NamesDiffer();
  }

  lemma NamesDiffer()
    ensures "Authorization" != "authorization"
  {
    assert "Authorization"[0] != "authorization"[0];
  }

  // A header has a token exactly when it contains "Bearer " with something behind it.
  lemma TokenIff(header: string)
    ensures ExtractToken(header) != "" <==> exists i: nat :: Occurs(header, "Bearer ", i) && i + 7 < |header|
  {
    FindFirst(header, BEARER, 0);
    var at := Find(header, BEARER, 0);
    if at.Some? && at.value + |BEARER| == |header| {
      forall i: nat | Occurs(header, BEARER, i) ensures i + |BEARER| >= |header| { assert i >= at.value; }
    }
  }

  // A check that the callback approved: for this entry, with the request's own non-empty token.
  ghost predicate Cleared(c: Check, e: Entry, world: World, request: Request, callback: AuthCallback)
    requires e.route in world
  {
    var header := AuthHeader(request.headers);
    && c.entry == e && c.state.Fixed() == world[e.route].Fixed()
    && header.Some? && c.token == ExtractToken(header.value) && c.token != ""
    && c.verdict == callback(c.token, c.state, e.level) && c.verdict.Verdict? && c.verdict.success
  }

  ghost predicate IsCleared(checks: seq<Check>, e: Entry, world: World, request: Request, callback: AuthCallback)
    requires e.route in world
  {
    exists c :: c in checks && Cleared(c, e, world, request, callback)
  }

  lemma ClearedStays(checks: seq<Check>, more: seq<Check>, e: Entry, world: World, later: World,
                                        request: Request, callback: AuthCallback)
    requires e.route in world && SameTemplates(world, later) && checks <= more
    requires IsCleared(checks, e, later, request, callback)
    ensures IsCleared(more, e, world, request, callback)
  {
    hide AuthHeader, ExtractToken;
    var c :| c in checks && Cleared(c, e, later, request, callback);
    assert c in more && Cleared(c, e, world, request, callback);
  }

  // One matching entry: it is passed only with an approved check.
  lemma AuthorizedIsCleared(e: Entry, world: World, request: Request, reply: Reply,
                                               callback: AuthCallback, checks: seq<Check>)
    requires e.route in world && Authorize(e, world[e.route], request, reply, callback).0.None?
    ensures IsCleared(checks + Authorize(e, world[e.route], request, reply, callback).1, e, world, request, callback)
  {
    hide AuthHeader, ExtractToken;
    var made := Authorize(e, world[e.route], request, reply, callback).1;
    assert made[0] in checks + made && Cleared(made[0], e, world, request, callback);
  }

  // When authorization lets the chain go on, no attempt raised an exception, and every entry whose
  // route matches has an approved check.
  lemma {:induction false} AuthGoesOn(entries: seq<Entry>, i: nat, callback: AuthCallback, world: World,
                                      request: Request, reply: Reply, checks: seq<Check>)
    requires i <= |entries| && EntriesIn(entries, world)
    ensures var r := AuthRun(entries, i, callback, world, request, reply, checks);
      && checks <= r.checks
      && (r.flow == Goes ==> r.reply == reply)
      && (r.flow == Goes ==> forall j :: i <= j < |entries| ==>
            TryRoute(world[entries[j].route], request).outcome != Route.Throws)
      && (r.flow == Goes ==> forall j :: i <= j < |entries| && Matches(world, entries[j].route, request) ==>
            IsCleared(r.checks, entries[j], world, request, callback))
    decreases |entries| - i
  {
    hide Authorize, TryRoute, Tried, IsCleared;
    if i < |entries| {
      var e := entries[i];
      var world' := Tried(world, e.route, request);
      TriedKeepsTemplates(world, e.route, request);
      var step := Authorize(e, world'[e.route], request, reply, callback);
      var all := checks + if Matches(world, e.route, request) then step.1 else [];
      var r := AuthRun(entries, i, callback, world, request, reply, checks);
      var passes := !Matches(world, e.route, request) || step.0.None?;
      if TryRoute(world[e.route], request).outcome != Route.Throws && passes {
        assert checks + [] == checks;
        AuthGoesOn(entries, i + 1, callback, world', request, reply, all);
        forall j | i < j < |entries| ensures TryRoute(world'[entries[j].route], request) == TryRoute(world[entries[j].route], request) {
          TemplatesDecide(world, world', entries[j].route, request);
        }
        if r.flow == Goes {
          if Matches(world, e.route, request) {
            AuthorizedIsCleared(e, world', request, reply, callback, checks);
            ClearedStays(all, r.checks, e, world, world', request, callback);
          }
          forall j | i < j < |entries| && Matches(world, entries[j].route, request)
            ensures IsCleared(r.checks, entries[j], world, request, callback)
          {
            ClearedStays(r.checks, r.checks, entries[j], world, world', request, callback);
          }
        }
      }
    }
  }

  // When authorization stops the chain, the response says so.
  lemma {:induction false} AuthDenies(entries: seq<Entry>, i: nat, callback: AuthCallback, world: World,
                                      request: Request, reply: Reply, checks: seq<Check>)
    requires i <= |entries| && EntriesIn(entries, world)
    ensures var r := AuthRun(entries, i, callback, world, request, reply, checks);
      r.flow != Goes ==> r.flow == Stops && r.reply.status in {FORBIDDEN, UNAUTHORIZED, INTERNAL_SERVER_ERROR}
    decreases |entries| - i
  {
    hide TryRoute, Tried, ErrorBody;
    if i < |entries| {
      var e := entries[i];
      var world' := Tried(world, e.route, request);
      TriedKeys(world, e.route, request);
      var made := Authorize(e, world'[e.route], request, reply, callback).1;
      AuthDenies(entries, i + 1, callback, world', request, reply, checks);
      AuthDenies(entries, i + 1, callback, world', request, reply, checks + made);
    }
  }

  lemma TriedKeys(world: World, r: Target, request: Request)
    requires r in world
    ensures Tried(world, r, request).Keys == world.Keys
  {
  }

  /* ---- Routing ---- */

  predicate Outcome(world: World, r: Target, request: Request, outcome: Route.Outcome)
    requires r in world
  {
    TryRoute(world[r], request).outcome == outcome
  }

  // No registration from i up to k matches or raises.
  ghost predicate NoneBefore(routers: seq<Registered>, i: nat, k: nat, world: World, request: Request)
    requires k <= |routers| && RoutersIn(routers, world)
  {
    forall j :: i <= j < k ==> Outcome(world, routers[j].route, request, Route.NoMatch)
  }

  // The endpoint called is that of the first registration that matches; an exception leaves routing exactly
  // when the first that does not just fail to match raises one; and without a match the answer is 404.
  lemma {:induction false} FirstMatchWins(routers: seq<Registered>, i: nat, world: World, request: Request, reply: Reply)
    requires i <= |routers| && RoutersIn(routers, world)
    ensures var r := RoutingRun(routers, i, world, request, reply);
      && r.flow != Goes
      && (r.dispatched.Some? ==>
            var d := r.dispatched.value;
            r.flow == Stops && i <= d.index < |routers| && d.route == routers[d.index].route &&
            Outcome(world, d.route, request, Route.Match) && NoneBefore(routers, i, d.index, world, request))
      && (r.flow == Escapes ==>
            exists k :: i <= k < |routers| && Outcome(world, routers[k].route, request, Route.Throws) &&
              NoneBefore(routers, i, k, world, request))
      && (r.flow == Stops && r.dispatched.None? ==>
            NoneBefore(routers, i, |routers|, world, request) && r.reply == reply.(status := NOT_FOUND))
    decreases |routers| - i
  {
    hide TryRoute, Tried;
    if i < |routers| {
      var r, world' := routers[i].route, Tried(world, routers[i].route, request);
      TriedKeepsTemplates(world, r, request);
      forall j | i < j < |routers| ensures TryRoute(world'[routers[j].route], request) == TryRoute(world[routers[j].route], request) {
        TemplatesDecide(world, world', routers[j].route, request);
      }
      if Outcome(world, r, request, Route.NoMatch) { FirstMatchWins(routers, i + 1, world', request, reply); }
    }
  }

  // A failed endpoint's answer leaves routing with status 404, its 500 is lost.
  lemma {:induction false} FailedEndpointIsNotFound(routers: seq<Registered>, i: nat, world: World, request: Request, reply: Reply)
    requires i <= |routers| && RoutersIn(routers, world)
    ensures var r := RoutingRun(routers, i, world, request, reply);
      r.dispatched.Some? ==>
        var d := r.dispatched.value;
        d.index < |routers| &&
        var answer := routers[d.index].endpoint(request, reply, d.params);
        r.reply == if answer.Failed? then answer.reply.(status := NOT_FOUND) else answer.reply
    decreases |routers| - i
  {
    hide TryRoute, Tried;
    if i < |routers| {
      TriedKeys(world, routers[i].route, request);
      FailedEndpointIsNotFound(routers, i + 1, Tried(world, routers[i].route, request), request, reply);
    }
  }

  // A match that binds leaves the route's parameters with this request's values, whatever they were.
  lemma MatchedValues(s: RouteState, request: Request)
    requires TryRoute(s, request).outcome == Route.Match && request.target != s.uri
    ensures var a := TryRoute(s, request);
      var params := Route.Store(s.params, a.values, a.stored);
      |a.values| == |params| && forall k :: 0 <= k < |params| ==> params[k].value == a.values[k] && params[k].name == s.Fixed().names[k]
  {
    hide Route.Substitute, Route.FindPrefix, Route.Values;
  }

  // So an endpoint is never given another request's values, unless the target is the route's bare prefix.
  lemma {:induction false} EndpointGetsOwnValues(routers: seq<Registered>, i: nat, world: World, request: Request, reply: Reply)
    requires i <= |routers| && RoutersIn(routers, world)
    ensures var r := RoutingRun(routers, i, world, request, reply);
      r.dispatched.Some? ==>
        var d := r.dispatched.value;
        d.route in world && (request.target != world[d.route].uri ==>
          var values := TryRoute(world[d.route], request).values;
          |values| == |d.params| && forall k :: 0 <= k < |values| ==> d.params[k].value == values[k])
    decreases |routers| - i
  {
    hide TryRoute;
    if i < |routers| {
      var r, world' := routers[i].route, Tried(world, routers[i].route, request);
      TriedKeepsTemplates(world, r, request);
      if TryRoute(world[r], request).outcome.NoMatch? {
        EndpointGetsOwnValues(routers, i + 1, world', request, reply);
        var end := RoutingRun(routers, i + 1, world', request, reply);
        if end.dispatched.Some? {
          assert end.dispatched.value.route in world by { TriedKeys(world, r, request); }
          TemplatesDecide(world, world', end.dispatched.value.route, request);
        }
      } else if TryRoute(world[r], request).outcome.Match? && request.target != world[r].uri {
        MatchedValues(world[r], request);
      }
    }
  }

  /* ---- The whole chain ---- */

  lemma {:induction false} ChainKeepsChecks(links: seq<Link>, i: nat, world: World, request: Request, reply: Reply, checks: seq<Check>)
    requires i <= |links| && LinksIn(links, world)
    ensures checks <= ChainRun(links, i, world, request, reply, checks).checks
    decreases |links| - i
  {
    hide AuthRun, RoutingRun;
    if i < |links| {
      var link, r := links[i], LinkRun(links[i], world, request, reply, checks);
      if link.AuthLink? { AuthGoesOn(link.entries, 0, link.callback, world, request, reply, checks); }
      KeysStay(link, world, request, reply, checks);
      if r.flow == Goes { ChainKeepsChecks(links, i + 1, r.world, request, r.reply, r.checks); }
    }
  }

  // A called endpoint belongs to a routing member, whose first matching registration it is.
  lemma {:induction false} DispatchedMatches(links: seq<Link>, i: nat, world: World, request: Request, reply: Reply, checks: seq<Check>)
    requires i <= |links| && LinksIn(links, world)
    ensures var r := ChainRun(links, i, world, request, reply, checks);
      r.dispatched.Some? ==> exists k :: i <= k < |links| && IsFirstMatch(links[k], r.dispatched.value, world, request)
    decreases |links| - i
  {
    hide AuthRun, RoutingRun, IsFirstMatch;
    if i < |links| {
      var link, r := links[i], LinkRun(links[i], world, request, reply, checks);
      KeysStay(link, world, request, reply, checks);
      if link.RoutingLink? {
        FirstMatchWins(link.routers, 0, world, request, reply);
        if r.dispatched.Some? { FirstMatch(link, r.dispatched.value, world, request); }
      }
      if r.flow == Goes {
        LinkKeepsTemplates(link, world, request, reply, checks);
        DispatchedMatches(links, i + 1, r.world, request, r.reply, r.checks);
        var end := ChainRun(links, i + 1, r.world, request, r.reply, r.checks);
        if end.dispatched.Some? {
          var k :| i + 1 <= k < |links| && IsFirstMatch(links[k], end.dispatched.value, r.world, request);
          FirstMatchBefore(links[k], end.dispatched.value, world, r.world, request);
        }
      }
    }
  }

  ghost predicate IsFirstMatch(link: Link, d: Dispatch, world: World, request: Request) {
    link.RoutingLink? && LinkIn(link, world) && d.index < |link.routers| && d.route == link.routers[d.index].route &&
    Outcome(world, d.route, request, Route.Match) && NoneBefore(link.routers, 0, d.index, world, request)
  }

  lemma FirstMatch(link: Link, d: Dispatch, world: World, request: Request)
    requires link.RoutingLink? && LinkIn(link, world) && d.index < |link.routers|
    requires d.route == link.routers[d.index].route && Outcome(world, d.route, request, Route.Match)
    requires NoneBefore(link.routers, 0, d.index, world, request)
    ensures IsFirstMatch(link, d, world, request)
  {
  }

  lemma FirstMatchBefore(link: Link, d: Dispatch, world: World, later: World, request: Request)
    requires SameTemplates(world, later) && world.Keys == later.Keys && IsFirstMatch(link, d, later, request)
    ensures IsFirstMatch(link, d, world, request)
  {
    hide TryRoute;
    forall r | r in world ensures TryRoute(later[r], request) == TryRoute(world[r], request) {
      TemplatesDecide(world, later, r, request);
    }
  }

  // With authorization at a and no routing before it, a called endpoint means that every entry of that
  // authorization whose route matches the request was approved for the request's non-empty token.
  lemma {:induction false} ChainGuards(links: seq<Link>, i: nat, a: nat, world: World, request: Request, reply: Reply, checks: seq<Check>)
    requires i <= a < |links| && LinksIn(links, world)
    requires links[a].AuthLink? && forall j :: i <= j < a ==> !links[j].RoutingLink?
    ensures var r := ChainRun(links, i, world, request, reply, checks);
      r.dispatched.Some? ==> forall e :: e in links[a].entries && Matches(world, e.route, request) ==>
        IsCleared(r.checks, e, world, request, links[a].callback)
    decreases a - i
  {
    hide AuthRun, RoutingRun, IsCleared, TryRoute;
    var link, r := links[i], LinkRun(links[i], world, request, reply, checks);
    var end := ChainRun(links, i, world, request, reply, checks);
    KeysStay(link, world, request, reply, checks);
    LinkKeepsTemplates(link, world, request, reply, checks);
    if end.dispatched.Some? {
      var entries, callback := links[a].entries, links[a].callback;
      if i == a {
        AuthGoesOn(entries, 0, callback, world, request, reply, checks);
        ChainKeepsChecks(links, i + 1, r.world, request, r.reply, r.checks);
        forall e | e in entries && Matches(world, e.route, request) ensures IsCleared(end.checks, e, world, request, callback) {
          SameTemplatesRefl(world);
          ClearedStays(r.checks, end.checks, e, world, world, request, callback);
        }
      } else {
        ChainGuards(links, i + 1, a, r.world, request, r.reply, r.checks);
        forall e | e in entries && Matches(world, e.route, request) ensures IsCleared(end.checks, e, world, request, callback) {
          TemplatesDecide(world, r.world, e.route, request);
          ClearedStays(end.checks, end.checks, e, world, r.world, request, callback);
        }
      }
    }
  }

  lemma SameTemplatesRefl(world: World)
    ensures SameTemplates(world, world)
  {
  }

  // Guarded dispatch: when an endpoint is called for a route that is protected by an authorization
  // member standing before all routing, that route's own callback approved the request's token for it.
  lemma GuardedDispatch(links: seq<Link>, a: nat, world: World, request: Request, reply: Reply)
    requires a < |links| && LinksIn(links, world)
    requires links[a].AuthLink? && forall j :: 0 <= j < a ==> !links[j].RoutingLink?
    ensures var r := ChainRun(links, 0, world, request, reply, []);
      r.dispatched.Some? ==>
        && (exists k :: 0 <= k < |links| && IsFirstMatch(links[k], r.dispatched.value, world, request))
        && (forall e :: e in links[a].entries && Matches(world, e.route, request) ==>
              IsCleared(r.checks, e, world, request, links[a].callback))
        && (forall e :: e in links[a].entries && e.route == r.dispatched.value.route ==>
              IsCleared(r.checks, e, world, request, links[a].callback))
  {
    hide ChainRun, IsCleared, NoneBefore;
    var r := ChainRun(links, 0, world, request, reply, []);
    ChainGuards(links, 0, a, world, request, reply, []);
    DispatchedMatches(links, 0, world, request, reply, []);
    if r.dispatched.Some? {
      var k :| 0 <= k < |links| && IsFirstMatch(links[k], r.dispatched.value, world, request);
      assert Matches(world, r.dispatched.value.route, request);
    }
  }
}
