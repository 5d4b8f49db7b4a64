/**
 From the received bytes to the response: a printed request that the chain lets through is answered by the
 endpoint of the first registration that matches it.
 */
module EndToEnd {
  import opened Text
  import Session
  import opened HttpParser
  import opened ParserProofs
  import opened RequestHeaders
  import opened RequestProofs
  import opened HttpResponse
  import opened Middleware
  import opened ChainProofs
  import opened OnReceive

  // The response as it goes into the chain.
  const BLANK := Reply(Status(500, "Internal Server Error"), "", map[])

  // The chain runs exactly when a call of the parser brings a request and no error.
  lemma ServedIff(p: State, mem: string, last: nat, links: seq<Link>, world: World)
    requires last <= |mem| && LinksIn(links, world)
    ensures var call := ParseCall(p, mem, last);
      var d := Decide(call, links, world);
      && (d.Served? <==> call.Call? && call.ec == None && call.request.Some?)
      && (d.Served? ==> d.request == call.request.value && d.end == ChainRun(links, 0, world, d.request, BLANK, []))
      && (d.Faulted? <==> call.CallFault?) && (d.Refused? <==> call.Call? && call.ec.Some?)
      && (d.More? ==> call.s.phase != Finished) && (d.NoRequest? ==> p.phase == Finished)
  {
    hide ParseCall, ChainRun;
    OneCall(p, mem, last);
  }

  // The request that is read from a printed one.
  function Read(m: string, t: string, fields: seq<Field>, body: string): Request {
    Request(ToMethod(m), 11, t, FieldMap(fields, |fields|), body, [])
  }

  // The n-th member is the first that does not let the request pass; it routes, and its k-th registration is the
  // first that matches.
  ghost predicate Leads(links: seq<Link>, world: World, request: Request, n: nat, k: nat)
    requires LinksIn(links, world)
  {
    && n < |links| && links[n].RoutingLink? && AllLet(links, n, world, request, BLANK)
    && FirstMatches(links[n].routers, k, PassedAll(links, n, world, request, BLANK).0, request)
  }

  // What the endpoint it leads to makes of the request and the response the members before left.
  ghost function Result(links: seq<Link>, world: World, request: Request, n: nat, k: nat): RoutingEnd
    requires LinksIn(links, world) && Leads(links, world, request, n, k)
  {
    var before := PassedAll(links, n, world, request, BLANK);
    Called(links[n].routers, k, before.0, request, before.1)
  }

  // The decision on a buffer whose request the chain leads to an endpoint.
  ghost predicate AnsweredBy(d: Decision, request: Request, result: RoutingEnd) {
    && d.Served? && d.request == request && d.end.flow == Stops
    && d.end.reply == result.reply && d.end.dispatched == result.dispatched && d.end.world == result.world
  }

  lemma LedIsAnswered(p: State, mem: string, last: nat, links: seq<Link>, world: World, request: Request, n: nat, k: nat)
    requires last <= |mem| && LinksIn(links, world) && Leads(links, world, request, n, k)
    requires var call := ParseCall(p, mem, last); call.Call? && call.ec == None && call.request == Some(request)
    ensures AnsweredBy(Decide(ParseCall(p, mem, last), links, world), request, Result(links, world, request, n, k))
  {
    hide ParseCall, ChainRun, Called, AllLet, FirstMatches, PassedAll;
    ServedIff(p, mem, last, links, world);
    ChainCalls(links, n, k, world, request, BLANK);
  }

  // A printed request in one buffer, its body behind its blank line or none announced, is answered by the endpoint
  // the chain leads it to.
  lemma PrintedIsAnswered(m: string, t: string, fields: seq<Field>, payload: string, contentType: ContentType,
                          links: seq<Link>, world: World, n: nat, k: nat)
    requires IsMethod(m) && IsTarget(t) && fields != [] && AreFields(fields) && PlainBody(fields)
    requires payload != [] || Announces(fields, 0)
    requires LinksIn(links, world) && Leads(links, world, Read(m, t, fields, CRLF + CRLF + payload), n, k)
    ensures var mem, request := PrintRequest(m, t, fields, payload), Read(m, t, fields, CRLF + CRLF + payload);
      AnsweredBy(Decide(ParseCall(Fresh(contentType), mem, |mem|), links, world), request,
                 Result(links, world, request, n, k))
  {
    hide ParseCall, PrintRequest, AreFields, IsMethod, IsTarget, PlainBody, Announces, Leads, AnsweredBy, Result, FieldMap,
      ToMethod, Decide;
    var mem := PrintRequest(m, t, fields, payload);
    RequestRoundTrip(m, t, fields, payload, 0, contentType);
    LedIsAnswered(Fresh(contentType), mem, |mem|, links, world, Read(m, t, fields, CRLF + CRLF + payload), n, k);
  }

  // Its fields in one buffer and its body in the next: the session reads on after the first, and the second is
  // answered.
  lemma PrintedInTwoIsAnswered(m: string, t: string, fields: seq<Field>, payload: string, length: nat,
                               contentType: ContentType, links: seq<Link>, world: World, n: nat, k: nat)
    requires IsMethod(m) && IsTarget(t) && fields != [] && AreFields(fields) && PlainBody(fields)
    requires Announces(fields, length) && length > 0
    requires LinksIn(links, world) && Leads(links, world, Read(m, t, fields, payload), n, k)
    ensures var mem, request := PrintRequest(m, t, fields, []), Read(m, t, fields, payload);
      var first := ParseCall(Fresh(contentType), mem, |mem|);
      && Decide(first, links, world) == More && first.Call?
      && AnsweredBy(Decide(ParseCall(first.s, payload, |payload|), links, world), request,
                    Result(links, world, request, n, k))
  {
    hide ParseCall, PrintRequest, AreFields, IsMethod, IsTarget, PlainBody, Announces, Leads, AnsweredBy, Result, FieldMap,
      ToMethod;
    var mem := PrintRequest(m, t, fields, []);
    RequestRoundTrip(m, t, fields, [], length, contentType);
    TwoBufferRoundTrip(m, t, fields, payload, length, contentType);
    var first := ParseCall(Fresh(contentType), mem, |mem|);
    LedIsAnswered(first.s, payload, |payload|, links, world, Read(m, t, fields, payload), n, k);
  }

  // The session is told to send a text built from the endpoint's response.
  lemma AnswerIsBuilt(d: Decision, request: Request, result: RoutingEnd, r: Received)
    requires AnsweredBy(d, request, result) && Tells(r, d)
    ensures r.Told? && r.outcome.Answer? && IsBuilt(r.outcome.reply, result.reply)
  {
    hide IsBuilt;
  }

  /* ---- A session's lifetime ---- */

  // A call that answers nothing and does not fault.
  predicate IsQuiet(call: Call) { call.Call? && (call.request.None? || call.ec.Some?) }

  // None of the buffers brings a request without an error.
  ghost predicate AreQuiet(p: State, buffers: seq<Buffer>)
    requires AreBuffers(buffers)
  {
    forall i :: 0 <= i < |buffers| ==> QuietAt(p, buffers, i)
  }

  predicate QuietAt(p: State, buffers: seq<Buffer>, i: nat)
    requires AreBuffers(buffers) && i < |buffers|
  {
    var before := Calls(p, buffers[..i]);
    before.Run? && IsQuiet(ParseCall(before.s, buffers[i].mem, buffers[i].last))
  }

  lemma {:induction false} QuietLifetime(links: seq<Link>, world: World, buffers: seq<Buffer>, p: State)
    requires LinksIn(links, world) && AreBuffers(buffers) && AreQuiet(p, buffers)
    ensures Calls(p, buffers).Run? && Receive(links, world, buffers, p) == Alive(Calls(p, buffers).s, world, 0)
  {
    hide ParseCall, ChainRun;
    if buffers != [] {
      var n := |buffers| - 1;
      forall i | 0 <= i < n ensures QuietAt(p, buffers[..n], i) {
        assert QuietAt(p, buffers, i) && buffers[..n][..i] == buffers[..i];
      }
      QuietLifetime(links, world, buffers[..n], p);
      assert QuietAt(p, buffers, n);
      ServedIff(Calls(p, buffers[..n]).s, buffers[n].mem, buffers[n].last, links, world);
    }
  }

  // A finished parser is left alone by every later buffer, and nothing more is answered.
  lemma {:induction false} FinishedLifetime(links: seq<Link>, world: World, before: seq<Buffer>, later: seq<Buffer>, p: State,
                                            end: Lifetime)
    requires LinksIn(links, world) && AreBuffers(before) && AreBuffers(later)
    requires Receive(links, world, before, p) == end && (end.Alive? ==> end.p.phase == Finished)
    ensures AreBuffers(before + later) && Receive(links, world, before + later, p) == end
    decreases |later|
  {
    hide ParseCall, ChainRun;
    var all := before + later;
    if later == [] {
      assert all == before;
    } else {
      var n := |later| - 1;
      FinishedLifetime(links, world, before, later[..n], p, end);
      assert all[..|all| - 1] == before + later[..n] && all[|all| - 1] == later[n];
      if end.Alive? { StuckStays(end.p, later[n].mem, later[n].last); }
    }
  }

  // The buffer that brings the request is answered by one run of the chain, whose routes and state stay; whatever
  // comes later is not. An exception of the chain ends the session.
  lemma {:induction false} AnsweredOnce(links: seq<Link>, world: World, before: seq<Buffer>, b: Buffer, later: seq<Buffer>, p: State)
    requires LinksIn(links, world) && AreBuffers(before) && b.last <= |b.mem| && AreBuffers(later) && AreQuiet(p, before)
    requires Calls(p, before).Run?
    requires var call := ParseCall(Calls(p, before).s, b.mem, b.last); call.Call? && call.ec == None && call.request.Some?
    ensures AreBuffers(before + [b] + later)
    ensures var call := ParseCall(Calls(p, before).s, b.mem, b.last);
      var end := ChainRun(links, 0, world, call.request.value, BLANK, []);
      Receive(links, world, before + [b] + later, p) ==
        if end.flow == Escapes then Ended else Alive(call.s, end.world, 1)
  {
    hide ParseCall, ChainRun, Calls;
    QuietLifetime(links, world, before, p);
    var s := Calls(p, before).s;
    OneCall(s, b.mem, b.last);
    ServedIff(s, b.mem, b.last, links, world);
    var upto := before + [b];
    assert upto[..|upto| - 1] == before && upto[|upto| - 1] == b;
    FinishedLifetime(links, world, upto, later, p, Receive(links, world, upto, p));
  }
}
