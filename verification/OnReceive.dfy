/**
 One received buffer, from the parser through the middlewares to the response: what a session does
 with it, and that a session answers at most once.
 */
module OnReceive {
  import opened Text
  import Session
  import opened HttpParser
  import opened RequestHeaders
  import opened RequestProofs
  import opened HttpResponse
  import opened Middleware

  // What comes of a buffer: undefined behaviour, an error, a wait, nothing to answer, or a run of the chain.
  datatype Decision = Faulted | Refused(finished: bool) | More | NoRequest | Served(request: Request, end: ChainEnd)

  const NEW_REPLY := Reply(INTERNAL_SERVER_ERROR, "", map[])

  function Decide(call: Call, links: seq<Link>, world: World): Decision
    requires LinksIn(links, world)
  {
    if call.CallFault? then Faulted
    else if call.ec.Some? then Refused(call.s.phase == Finished)
    else if call.s.phase != Finished then More
    else if call.request.None? then NoRequest
    else Served(call.request.value, ChainRun(links, 0, world, call.request.value, NEW_REPLY, []))
  }

  // A text the response may be built as: the order of its headers is not determined.
  ghost predicate IsBuilt(text: string, reply: Reply) {
    var headers := WithLength(reply.headers, reply.body);
    exists order: seq<string> :: IsOrder(order, headers) && text == ResponseText(reply.status, order, headers, reply.body)
  }

  // What a session tells its event loop: undefined behaviour, an exception, or an outcome.
  datatype Received = Undefined | Thrown | Told(outcome: Session.Outcome)

  ghost predicate Tells(r: Received, d: Decision) {
    match d
    case Faulted => r == Undefined
    case Refused(finished) => r == Told(Session.ParseFailed(finished))
    case More => r == Told(Session.NeedMore)
    case NoRequest => r == Told(Session.NoRequest)
    case Served(_, end) =>
      if end.flow == Escapes then r == Thrown
      else r.Told? && r.outcome.Answer? && IsBuilt(r.outcome.reply, end.reply)
  }

  ghost predicate AreLinks(links: seq<Link>, members: seq<Member>)
    reads set m | m in members && m.AuthMember? :: m.auth, set m | m in members && m.RoutingMember? :: m.routing
  {
    |links| == |members| && forall i :: 0 <= i < |members| ==> LinkOf(members[i]) == links[i]
  }

  method RunChain(members: seq<Member>, ghost links: seq<Link>, ghost all: set<Target>, request: Request, response: Response)
    returns (flow: Flow, ghost checks: seq<Check>, ghost dispatched: Option<Dispatch>)
    requires AreLinks(links, members) && LinksIn(links, Snapshot(all))
    modifies all, response`status, response`body, response`headers
    ensures ChainRun(links, 0, old(Snapshot(all)), request, old(ReplyOf(response)), []) ==
      ChainEnd(Snapshot(all), ReplyOf(response), flow, checks, dispatched)
  {
    checks := [];
    for i := 0 to |members|
      invariant AreLinks(links, members) && LinksIn(links, Snapshot(all))
      invariant ChainRun(links, 0, old(Snapshot(all)), request, old(ReplyOf(response)), []) ==
        ChainRun(links, i, Snapshot(all), request, ReplyOf(response), checks)
    {
      flow, checks, dispatched := RunMember(members[i], links[i], all, request, response, checks);
      if flow != Goes { return; }
    }
    return Goes, checks, None;
  }

  method RunMember(m: Member, ghost link: Link, ghost all: set<Target>, request: Request, response: Response,
                   ghost before: seq<Check>)
    returns (flow: Flow, ghost checks: seq<Check>, ghost dispatched: Option<Dispatch>)
    requires LinkOf(m) == link && LinkIn(link, Snapshot(all))
    modifies all, response`status, response`body, response`headers
    ensures LinkRun(link, old(Snapshot(all)), request, old(ReplyOf(response)), before) ==
      ChainEnd(Snapshot(all), ReplyOf(response), flow, checks, dispatched)
  {
    checks, dispatched := before, None;
    match m
    case AuthMember(auth) =>
      var goOn;
      goOn, checks := auth.Execute(all, request, response, before);
      flow := if goOn then Goes else Stops;
    case RoutingMember(routing) =>
      var escapes;
      escapes, dispatched := routing.Execute(all, request, response);
      flow := if escapes then Escapes else Stops;
    case OtherMember(step) =>
      var (reply, next) := step(request, Reply(response.status, response.body, response.headers));
      response.status, response.body, response.headers := reply.status, reply.body, reply.headers;
      flow := next;
  }

  class Receiver {
    const parser: Parser
    const members: seq<Member>

    constructor (parser: Parser, members: seq<Member>)
      ensures this.parser == parser && this.members == members
    {
      this.parser, this.members := parser, members;
    }

    method OnReceive(mem: string, last: nat, ghost links: seq<Link>, ghost all: set<Target>)
      returns (r: Received, ghost checks: seq<Check>, ghost dispatched: Option<Dispatch>)
      requires last <= |mem| && AreLinks(links, members) && LinksIn(links, Snapshot(all))
      modifies parser, all
      ensures var call := ParseCall(old(parser.View()), mem, last);
        var d := Decide(call, links, old(Snapshot(all)));
        && Tells(r, d) && (call.Call? ==> parser.View() == call.s)
        && Snapshot(all) == (if d.Served? then d.end.world else old(Snapshot(all)))
        && (d.Served? ==> checks == d.end.checks && dispatched == d.end.dispatched)
    {
      hide ParseCall, ChainRun, IsBuilt;
      checks, dispatched := [], None;
      var fault, request, ec := parser.Parse(mem, last);
      if fault { return Undefined, [], None; }
      if ec.Some? { return Told(Session.ParseFailed(parser.phase == Finished)), [], None; }
      if parser.phase != Finished { return Told(Session.NeedMore), [], None; }
      if request.None? { return Told(Session.NoRequest), [], None; }
      r, checks, dispatched := Answer(request.value, links, all);
    }

    method Answer(request: Request, ghost links: seq<Link>, ghost all: set<Target>)
      returns (r: Received, ghost checks: seq<Check>, ghost dispatched: Option<Dispatch>)
      requires AreLinks(links, members) && LinksIn(links, Snapshot(all))
      modifies all
      ensures var end := ChainRun(links, 0, old(Snapshot(all)), request, NEW_REPLY, []);
        Tells(r, Served(request, end)) && Snapshot(all) == end.world &&
        checks == end.checks && dispatched == end.dispatched
    {
      hide ChainRun;
      var response := new Response();
      var flow;
      flow, checks, dispatched := RunChain(members, links, all, request, response);
      if flow == Escapes { return Thrown, checks, dispatched; }
      ghost var reply := ReplyOf(response);
      var text;
      ghost var order;
      text, order := response.Build();
      assert IsBuilt(text, reply);
      return Told(Session.Answer(text)), checks, dispatched;
    }
  }

  /* ---- One answer ---- */

  // The session's flag "finished" mirrors the parser's last phase: what a session is told is always
  // something its own protocol allows, and keeps the two in step.
  lemma OutcomesAreLegal(p: State, mem: string, last: nat, links: seq<Link>, world: World, r: Received, s: Session.State)
    requires last <= |mem| && LinksIn(links, world) && s.log.finished == (p.phase == Finished)
    requires Tells(r, Decide(ParseCall(p, mem, last), links, world)) && r.Told?
    ensures Session.Legal(s, Session.ReadData(r.outcome))
    ensures Session.AfterRead(s, Session.ReadData(r.outcome)).log.finished == (ParseCall(p, mem, last).s.phase == Finished)
  {
    hide ParseCall, ChainRun, IsBuilt;
    OneCall(p, mem, last);
  }

  // A run of a session's buffers: the parser, the routes, and how many were answered by the chain.
  datatype Lifetime = Alive(p: State, world: World, answers: nat) | Ended

  function Receive(links: seq<Link>, world: World, buffers: seq<Buffer>, p: State): (r: Lifetime)
    requires LinksIn(links, world) && AreBuffers(buffers)
    ensures r.Alive? ==> r.world.Keys == world.Keys
  {
    if buffers == [] then Alive(p, world, 0)
    else
      var before := Receive(links, world, buffers[..|buffers| - 1], p);
      var b := buffers[|buffers| - 1];
      if before.Ended? then Ended
      else
        var call := ParseCall(before.p, b.mem, b.last);
        var d := Decide(call, links, before.world);
        if d.Faulted? then Ended
        else if !d.Served? then Alive(call.s, before.world, before.answers)
        else if d.end.flow == Escapes then Ended
        else
          ChainKeysStay(links, 0, before.world, call.request.value, NEW_REPLY, []);
          Alive(call.s, d.end.world, before.answers + 1)
  }

  lemma {:induction false} ChainKeysStay(links: seq<Link>, i: nat, world: World, request: Request, reply: Reply, checks: seq<Check>)
    requires i <= |links| && LinksIn(links, world)
    ensures ChainRun(links, i, world, request, reply, checks).world.Keys == world.Keys
    decreases |links| - i
  {
    hide LinkRun;
    if i < |links| {
      var r := LinkRun(links[i], world, request, reply, checks);
      KeysStay(links[i], world, request, reply, checks);
      if r.flow == Goes { ChainKeysStay(links, i + 1, r.world, request, r.reply, r.checks); }
    }
  }

  // Whatever buffers arrive, a session's requests are answered at most once, and only by the buffer
  // that takes the parser to its last phase.
  lemma {:induction false} OneAnswerPerSession(links: seq<Link>, world: World, buffers: seq<Buffer>, contentType: ContentType)
    requires LinksIn(links, world) && AreBuffers(buffers)
    ensures var r := Receive(links, world, buffers, Fresh(contentType));
      r.Alive? ==> r.answers <= if r.p.phase == Finished then 1 else 0
  {
    hide ParseCall, ChainRun;
    if buffers != [] {
      var before, b := buffers[..|buffers| - 1], buffers[|buffers| - 1];
      OneAnswerPerSession(links, world, before, contentType);
      var r := Receive(links, world, before, Fresh(contentType));
      if r.Alive? { OneCall(r.p, b.mem, b.last); }
    }
  }

  // A parsed request's header names are lower-case, so authorization always reads the header of the
  // lower-case name, whatever case the client wrote.
  lemma ParsedAuthHeader(contentType: ContentType, buffers: seq<Buffer>)
    requires AreBuffers(buffers)
    ensures var r := Calls(Fresh(contentType), buffers);
      r.Run? ==> forall q :: q in r.requests ==>
        AuthHeader(q.headers) == if "authorization" in q.headers then Some(q.headers["authorization"]) else None
  {
    hide Calls;
    RunIsLower(Fresh(contentType), buffers);
    UpperIsNotLower();
  }

  lemma UpperIsNotLower()
    ensures !IsLower("Authorization")
  {
    assert "Authorization"[0] == 'A';
  }
}
