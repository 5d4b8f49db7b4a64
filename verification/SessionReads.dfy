/**
 A session goes on reading, answers what it is given to answer, and disconnects when it is asked to.
 */
module SessionReads {
  import opened Session
  import opened SessionRuns
  import opened SessionReply

  /* ---- A connected session always has a read outstanding, or will have ---- */

  ghost predicate Reading(s: State) {
    && (s.connected && s.sys.open ==> s.receiving || TryReceive in s.io || Disconnect in s.io)
    && (s.receiving ==> s.sys.pendingReads == 1)
  }

  lemma PopReading(s: State)
    requires Reading(s) && s.io != [] && s.io[0] != TryReceive && s.io[0] != Disconnect
    ensures Reading(Pop(s))
  {
    assert s.io == [s.io[0]] + s.io[1..];
  }

  lemma PushReading(s: State, t: Task)
    requires Reading(s)
    ensures Reading(Push(s, t))
  {
    assert forall u :: u in s.io ==> u in Push(s, t).io;
  }

  // What a sender changes, a reading session does not look at.
  lemma SendReading(s: State, data: Bytes, onIo: bool)
    requires Reading(s)
    ensures Reading(SendAsync(s, data, onIo))
  {
    PushReading(s, Disconnect);
    PushReading(Accept(s, data), TrySend);
  }

  lemma TaskReading(s: State, closeFails: bool)
    requires Reading(s) && s.io != [] && Replied(s)
    ensures Reading(TaskEffect(s, closeFails))
  {
    match s.io[0]
    case TrySend =>
      PopReading(s);
      PushReading(Pop(s), StartWrite);
    case StartWrite => PopReading(s);
    case Disconnect =>
    case TryReceive =>
    case Reply(data) =>
      PopReading(s);
      SendReading(Pop(s).(log := s.log.(replies := s.log.replies + 1)), data, true);
  }

  lemma ReadReading(s: State, r: Read)
    requires Reading(s) && s.io == [] && s.sys.pendingReads > 0
    ensures Reading(ReadHandler(s, r))
  {
    assert [TryReceive][0] == TryReceive;
    match r
    case ReadError =>
    case ReadNothing =>
    case ReadData(outcome) => match outcome { case _ => }
  }

  lemma WrittenReading(s: State, w: nat)
    requires Reading(s) && w < |s.sys.writes| && s.sys.writes[w].Reported?
    ensures Reading(WriteHandler(s, w))
  {
  }

  lemma PostedReading(s: State, i: nat)
    requires Reading(s) && s.io == [] && i < |s.posted|
    ensures Reading(RunPostedEffect(s, i))
  {
  }

  lemma StepReading(s: State, step: Step)
    requires Reading(s) && Inv(s) && Enabled(s, step)
    ensures Reading(Next(s, step))
  {
    hide Reading, Wakeful, Conserved, Counted, Exclusive, Tasks;
    match step
    case Send(data) => SendReading(s, data, false);
    case AskDisconnect => AskReading(s);
    case RunPosted(i) => PostedReading(s, i);
    case RunTask(closeFails) => TaskReading(s, closeFails);
    case Transfer(w, n, failed) => TransferReading(s, w, n, failed);
    case Written(w) => WrittenReading(s, w);
    case Received(r) => ReadReading(s, r);
  }

  lemma AskReading(s: State)
    requires Reading(s)
    ensures Reading(DisconnectCall(s, false))
  {
  }

  lemma TransferReading(s: State, w: nat, n: nat, failed: bool)
    requires Reading(s) && Enabled(s, Transfer(w, n, failed))
    ensures Reading(TransferEffect(s, w, n, failed))
  {
  }

  lemma {:induction false} RunReading(s: State, steps: seq<Step>)
    requires Reading(s) && Inv(s) && Run(s, steps)
    ensures Reading(After(s, steps))
    decreases |steps|
  {
    hide Reading, Inv;
    if steps != [] {
      StepReading(s, steps[0]);
      NextKeepsInv(s, steps[0]);
      RunReading(Next(s, steps[0]), steps[1..]);
    }
  }

  // Over every run a connected session with an open socket has a read outstanding, or a task is due that
  // starts one or disconnects: it never just stops listening.
  lemma KeepsReading(offset: nat, steps: seq<Step>)
    requires Run(Connected(offset), steps)
    ensures var s := After(Connected(offset), steps);
      && (s.connected && s.sys.open ==> s.receiving || TryReceive in s.io || Disconnect in s.io)
      && (s.receiving ==> s.sys.pendingReads == 1)
  {
    ConnectedInv(offset);
    RunReading(Connected(offset), steps);
  }

  /* ---- What a completed read brings about ---- */

  // An error of the socket or of the request, and a finished parser that is given more.
  predicate IsFatal(r: Read) {
    r.ReadError? || (r.ReadData? && (r.outcome.ParseFailed? || r.outcome.NoRequest?))
  }

  // When the I/O thread comes to a disconnect and closing succeeds, the session is over: the socket is closed,
  // the flags are down and both buffers are empty.
  ghost predicate Over(s: State) {
    && !s.connected && !s.sys.open && !s.sending && !s.receiving
    && s.buf.main == [] && s.buf.flush == [] && s.buf.bytesPending == 0 && s.buf.bytesSending == 0
  }

  lemma DisconnectEnds(s: State)
    requires s.connected && Running(s, Disconnect)
    ensures Over(Next(s, RunTask(false)))
  {
  }

  // After a fatal read the I/O thread disconnects next; after any other it does not: it reads on, or answers
  // and then disconnects.
  lemma FatalReadEnds(s: State, r: Read)
    requires Inv(s) && s.connected && Enabled(s, Received(r))
    ensures var t := Next(s, Received(r));
      && (IsFatal(r) ==> Running(t, Disconnect) && Over(Next(t, RunTask(false))))
      && (r.ReadNothing? || (r.ReadData? && r.outcome.NeedMore?) ==>
            t.io == [TryReceive] && t.connected && Next(t, RunTask(false)).receiving)
  {
    hide Inv;
    var t := Next(s, Received(r));
    if IsFatal(r) { DisconnectEnds(t); }
  }

  // An answer makes the session one that is replying with it, and changes nothing else.
  lemma AnswerIsReplying(s: State, b: Bytes)
    requires Inv(s) && b != [] && Enabled(s, Received(ReadData(Answer(b))))
    ensures var t := Next(s, Received(ReadData(Answer(b))));
      && Replying(t, b) && t.buf == s.buf && t.sending == s.sending && t.connected == s.connected
      && t.sys.open == s.sys.open && t.sys.wire == s.sys.wire && t.log.accepted == s.log.accepted
  {
    hide Inv;
    NextKeepsInv(s, Received(ReadData(Answer(b))));
    assert [Reply(b), Disconnect, TryReceive] + [] == [Reply(b), Disconnect, TryReceive];
  }

  // So exactly when a session that is given an answer can put it on the wire.
  lemma AnswerDeliverableIff(s: State, b: Bytes)
    requires Inv(s) && b != [] && Enabled(s, Received(ReadData(Answer(b))))
    ensures var t := Next(s, Received(ReadData(Answer(b))));
      (exists steps :: Run(t, steps) && Delivered(s, b, After(t, steps))) <==>
        s.sys.open && !s.sending && s.buf.flush == []
  {
    hide Inv, Run, Next;
    AnswerIsReplying(s, b);
    ReplyDeliverableIff(Next(s, Received(ReadData(Answer(b)))), b);
  }

  // A disconnect asked for by another thread: whenever the I/O thread takes it up, the session is over.
  lemma AskedDisconnectEnds(s: State)
    requires s.connected
    ensures var t := Next(s, AskDisconnect); t.posted == s.posted + [Disconnect] && t.connected && t.io == s.io
    ensures s.io == [] ==>
      var u := Next(Next(s, AskDisconnect), RunPosted(|s.posted|));
      Running(u, Disconnect) && Over(Next(u, RunTask(false)))
  {
    if s.io == [] { DisconnectEnds(Next(Next(s, AskDisconnect), RunPosted(|s.posted|))); }
  }

  // A disconnect asked of a session that is not connected is ignored.
  lemma DisconnectIgnored(s: State)
    requires !s.connected
    ensures Next(s, AskDisconnect) == s
  {
  }

  // Sending bytes appends exactly these to what was accepted, and moves nothing on the wire; sending none is asking
  // for a disconnect.
  lemma SendTakesAll(s: State, data: Bytes)
    ensures var t := Next(s, Send(data));
      && (data == [] ==> t == Next(s, AskDisconnect))
      && (data != [] ==> t.log.accepted == s.log.accepted + data && t.buf.main == s.buf.main + data)
      && t.sys == s.sys && t.io == s.io && t.buf.flush == s.buf.flush && t.connected == s.connected
  {
  }

  // A read error and an empty read can come at any time.
  lemma ErrorsAreLegal(s: State)
    ensures Legal(s, ReadError) && Legal(s, ReadNothing)
  {
  }
}
