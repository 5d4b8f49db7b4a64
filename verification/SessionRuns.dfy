/**
 Whole runs of a session: any interleaving of senders, disconnects, reads, the operating system's
 writes and the I/O thread's tasks. The theorems speak of every run from a fresh connection.
 */
module SessionRuns {
  import opened Session

  datatype Step =
    | Send(data: Bytes)                          // another thread calls `send_async`
    | AskDisconnect                              // another thread calls `disconnect`
    | RunPosted(i: nat)                          // the idle I/O thread takes up a posted handler
    | RunTask(closeFails: bool)                  // the I/O thread runs its next task
    | Transfer(w: nat, n: nat, failed: bool)     // the system performs a requested write
    | Written(w: nat)                            // the idle I/O thread runs a completion handler
    | Received(r: Read)                          // the idle I/O thread runs the read handler

  predicate Enabled(s: State, step: Step) {
    match step
    case Send(_) => true
    case AskDisconnect => true
    case RunPosted(i) => s.io == [] && i < |s.posted|
    case RunTask(_) => s.io != []
    case Transfer(w, n, failed) =>
      && w < |s.sys.writes| && s.sys.writes[w].Requested? && n <= |s.sys.writes[w].region|
      && (!s.sys.open ==> n == 0)  // a closed socket transfers nothing
    case Written(w) => s.io == [] && w < |s.sys.writes| && s.sys.writes[w].Reported?
    case Received(r) => s.io == [] && s.sys.pendingReads > 0 && Legal(s, r)
  }

  function TransferEffect(s: State, w: nat, n: nat, failed: bool): State
    requires Enabled(s, Transfer(w, n, failed))
  {
    var region := s.sys.writes[w].region;
    s.(sys := s.sys.(writes := s.sys.writes[w := Reported(region, n, failed)], wire := s.sys.wire + region[..n]))
  }

  function TaskEffect(s: State, closeFails: bool): State
    requires s.io != []
  {
    match s.io[0]
    case TrySend => SwapTask(s)
    case StartWrite => StartWriteTask(s)
    case Disconnect => DisconnectTask(s, closeFails)
    case Reply(_) => ReplyTask(s)
    case TryReceive => TryReceiveTask(s)
  }

  function RunPostedEffect(s: State, i: nat): State
    requires s.io == [] && i < |s.posted|
  {
    s.(io := [s.posted[i]], posted := s.posted[..i] + s.posted[i + 1..])
  }

  function Next(s: State, step: Step): State
    requires Enabled(s, step)
  {
    match step
    case Send(data) => SendAsync(s, data, false)
    case AskDisconnect => DisconnectCall(s, false)
    case RunPosted(i) => RunPostedEffect(s, i)
    case RunTask(closeFails) => TaskEffect(s, closeFails)
    case Transfer(w, n, failed) => TransferEffect(s, w, n, failed)
    case Written(w) => WriteHandler(s, w)
    case Received(r) => ReadHandler(s, r)
  }

  predicate Run(s: State, steps: seq<Step>)
    decreases |steps|
  {
    steps == [] || (Enabled(s, steps[0]) && Run(Next(s, steps[0]), steps[1..]))
  }

  function After(s: State, steps: seq<Step>): State
    requires Run(s, steps)
    decreases |steps|
  {
    if steps == [] then s else After(Next(s, steps[0]), steps[1..])
  }

  /* ---- Every step keeps the invariant ---- */

  lemma RunPostedKeepsInv(s: State, i: nat)
    requires Inv(s) && s.io == [] && i < |s.posted|
    ensures Inv(RunPostedEffect(s, i))
  {
    var s' := RunPostedEffect(s, i);
    assert s'.io[0] == s.posted[i] && Replies(s'.io) == Replies(s.io) by { assert s'.io[1..] == []; }
    assert forall t :: t in s.posted ==> t in s'.posted || t == s.posted[i];
  }

  lemma TransferKeepsInv(s: State, w: nat, n: nat, failed: bool)
    requires Inv(s) && Enabled(s, Transfer(w, n, failed))
    ensures Inv(TransferEffect(s, w, n, failed))
  {
    if s.connected {
      TakeSplits(s.log.accepted, s.sys.wire, s.buf, n);
    } else {
      assert TransferEffect(s, w, n, failed).sys.wire == s.sys.wire;
    }
  }

  lemma NextKeepsInv(s: State, step: Step)
    requires Inv(s) && Enabled(s, step)
    ensures Inv(Next(s, step))
  {
    match step
    case Send(data) => SendKeepsInv(s, data, false);
    case AskDisconnect => DisconnectCallKeepsInv(s, false);
    case RunPosted(i) => RunPostedKeepsInv(s, i);
    case RunTask(closeFails) =>
      match s.io[0] {
        case TrySend => SwapKeepsInv(s);
        case StartWrite => StartWriteKeepsInv(s);
        case Disconnect => DisconnectKeepsInv(s, closeFails);
        case Reply(_) => ReplyKeepsInv(s);
        case TryReceive => TryReceiveKeepsInv(s);
      }
    case Transfer(w, n, failed) => TransferKeepsInv(s, w, n, failed);
    case Written(w) => WriteHandlerKeepsInv(s, w);
    case Received(r) => ReadHandlerKeepsInv(s, r);
  }

  lemma ConnectedInv(offset: nat)
    ensures Inv(Connected(offset))
  {
  }

  lemma {:induction false} RunKeepsInv(s: State, steps: seq<Step>)
    requires Inv(s) && Run(s, steps)
    ensures Inv(After(s, steps))
    decreases |steps|
  {
    if steps != [] {
      NextKeepsInv(s, steps[0]);
      RunKeepsInv(Next(s, steps[0]), steps[1..]);
    }
  }

  /* ---- The main results, for every run from a fresh connection ---- */

  // While connected nothing is lost, duplicated or reordered: the bytes on the wire, then the unsent
  // part of the flush buffer (less what the system has taken but not yet reported), then the main
  // buffer, are exactly the accepted bytes. Over whole runs the wire is a prefix of them.
  lemma StreamConservation(offset: nat, steps: seq<Step>)
    requires Run(Connected(offset), steps)
    ensures var s := After(Connected(offset), steps);
      && s.sys.wire <= s.log.accepted
      && (s.connected ==> Taken(s) <= |s.buf.Unsent()| && s.log.accepted == s.sys.wire + s.buf.Unsent()[Taken(s)..] + s.buf.main)
  {
    ConnectedInv(offset);
    RunKeepsInv(Connected(offset), steps);
  }

  lemma WriteExclusivityAndCounters(offset: nat, steps: seq<Step>)
    requires Run(Connected(offset), steps)
    requires After(Connected(offset), steps).connected
    ensures var s := After(Connected(offset), steps);
      && |s.sys.writes| <= 1 && (s.sending <==> |s.sys.writes| == 1)
      && (s.sending ==> s.sys.writes[0].region == s.buf.Unsent() != [])
      && s.buf.bytesPending == |s.buf.main|
      && s.buf.bytesSending == |s.buf.Unsent()|
      && s.buf.bytesSent == |s.sys.wire| - Taken(s)
  {
    ConnectedInv(offset);
    RunKeepsInv(Connected(offset), steps);
  }

  // At most one read is outstanding and at most one response is enqueued.
  lemma AtMostOneReply(offset: nat, steps: seq<Step>)
    requires Run(Connected(offset), steps)
    ensures var s := After(Connected(offset), steps); s.log.replies <= 1 && s.sys.pendingReads <= 1
  {
    ConnectedInv(offset);
    RunKeepsInv(Connected(offset), steps);
  }

  // What a sender or a handler that starts and ends no write leaves alone.
  ghost predicate SameWrites(s: State, s': State) {
    && s'.sys.writes == s.sys.writes && s'.sys.wire == s.sys.wire && s'.log.stalled == s.log.stalled
    && (s.sending && s'.connected ==> s'.sending && s'.buf.flush == s.buf.flush && s'.buf.offset == s.buf.offset)
    && (s'.connected ==> s.connected)
  }

  lemma SendFrame(s: State, data: Bytes, onIo: bool)
    ensures SameWrites(s, SendAsync(s, data, onIo))
  {
    if data == [] {
    } else if s.buf.main == [] || s.buf.flush == [] {
      assert SameWrites(s, Accept(s, data));
      assert SameWrites(s, Dispatch(Accept(s, data), TrySend, onIo));
    }
  }

  lemma DisconnectFrame(s: State, closeFails: bool)
    requires Running(s, Disconnect)
    ensures SameWrites(s, DisconnectTask(s, closeFails))
  {
  }

  lemma TaskFrame(s: State, closeFails: bool)
    requires s.io != [] && !Running(s, StartWrite)
    ensures SameWrites(s, TaskEffect(s, closeFails))
  {
    match s.io[0]
    case Reply(data) => SendFrame(Pop(s).(log := s.log.(replies := s.log.replies + 1)), data, true);
    case Disconnect => DisconnectFrame(s, closeFails);
    case _ =>
  }

  lemma ReadFrame(s: State, r: Read)
    requires s.sys.pendingReads > 0
    ensures SameWrites(s, ReadHandler(s, r))
  {
    match r
    case ReadData(outcome) => match outcome { case Answer(reply) => case _ => }
    case _ =>
  }

  lemma StepFrame(s: State, step: Step)
    requires Enabled(s, step) && !step.Written? && !step.Transfer?
    requires step.RunTask? ==> !Running(s, StartWrite)
    ensures SameWrites(s, Next(s, step))
  {
    match step
    case RunTask(closeFails) => TaskFrame(s, closeFails);
    case Received(r) => ReadFrame(s, r);
    case _ =>
  }

  lemma StepOnceDisconnected(s: State, step: Step)
    requires Inv(s) && !s.connected && Enabled(s, step)
    ensures !Next(s, step).connected && Next(s, step).sys.wire == s.sys.wire
  {
    match step
    case RunTask(closeFails) => if !Running(s, StartWrite) { TaskFrame(s, closeFails); }
    case Received(r) => ReadFrame(s, r);
    case Written(w) =>
    case Transfer(w, n, failed) =>
    case _ =>
  }

  // Once disconnected a session stays so, and nothing more reaches the wire.
  lemma {:induction false} DisconnectIsFinal(s: State, steps: seq<Step>)
    requires Inv(s) && !s.connected && Run(s, steps)
    ensures !After(s, steps).connected && After(s, steps).sys.wire == s.sys.wire
    decreases |steps|
  {
    if steps != [] {
      NextKeepsInv(s, steps[0]);
      StepOnceDisconnected(s, steps[0]);
      DisconnectIsFinal(Next(s, steps[0]), steps[1..]);
    }
  }

  // A closed socket stays closed and nothing more reaches the wire, also when closing it reported an error
  // and the session still counts as connected.
  lemma {:induction false} ClosedIsFinal(s: State, steps: seq<Step>)
    requires !s.sys.open && Run(s, steps)
    ensures !After(s, steps).sys.open && After(s, steps).sys.wire == s.sys.wire
    decreases |steps|
  {
    if steps != [] {
      StepOnceClosed(s, steps[0]);
      ClosedIsFinal(Next(s, steps[0]), steps[1..]);
    }
  }

  lemma StepOnceClosed(s: State, step: Step)
    requires !s.sys.open && Enabled(s, step)
    ensures !Next(s, step).sys.open && Next(s, step).sys.wire == s.sys.wire
  {
    match step
    case RunTask(closeFails) => if !Running(s, StartWrite) { TaskFrame(s, closeFails); }
    case Received(r) => ReadFrame(s, r);
    case Transfer(w, n, failed) =>
    case _ =>
  }

  // Until it completes or the session disconnects, a write's region does not change.
  lemma WriteRegionStable(s: State, step: Step)
    requires Inv(s) && Enabled(s, step) && s.sending && s.connected
    requires !step.Written? && Next(s, step).connected
    ensures Next(s, step).sending && |Next(s, step).sys.writes| == 1
    ensures Next(s, step).sys.writes[0].region == s.sys.writes[0].region == Next(s, step).buf.Unsent()
  {
    if !step.Transfer? { StepFrame(s, step); }
  }

  /* ---- Wake-ups ---- */

  ghost predicate Pending(s: State) { s.buf.main != [] || s.buf.flush != [] }

  // A write in flight, or a handler that is still to call `try_send` or to disconnect.
  ghost predicate WakeDue(s: State) {
    s.sending || Running(s, StartWrite) || Woken(s)
  }

  predicate SentNothing(s: State, step: Step) {
    step.Written? && Enabled(s, step) && s.sys.writes[step.w].n == 0
  }

  predicate NoEmptyWrite(s: State, steps: seq<Step>)
    requires Run(s, steps)
    decreases |steps|
  {
    steps == [] || (!SentNothing(s, steps[0]) && NoEmptyWrite(Next(s, steps[0]), steps[1..]))
  }

  lemma StallStepNeedsEmptyWrite(s: State, step: Step)
    requires Enabled(s, step) && !SentNothing(s, step) && !s.log.stalled
    ensures !Next(s, step).log.stalled
  {
    match step
    case RunTask(closeFails) => if !Running(s, StartWrite) { TaskFrame(s, closeFails); }
    case Received(r) => ReadFrame(s, r);
    case Written(w) =>
    case Transfer(w, n, failed) =>
    case _ =>
  }

  lemma {:induction false} StallNeedsEmptyWrite(s: State, steps: seq<Step>)
    requires Run(s, steps) && NoEmptyWrite(s, steps) && !s.log.stalled
    ensures !After(s, steps).log.stalled
    decreases |steps|
  {
    if steps != [] {
      StallStepNeedsEmptyWrite(s, steps[0]);
      StallNeedsEmptyWrite(Next(s, steps[0]), steps[1..]);
    }
  }

  // No lost wake-up: unless a write has completed with zero bytes, pending bytes always have
  // something due that will look at them, although `send_async` dispatches nothing when both
  // buffers are already full.
  lemma NoLostWakeup(offset: nat, steps: seq<Step>)
    requires Run(Connected(offset), steps) && NoEmptyWrite(Connected(offset), steps)
    ensures var s := After(Connected(offset), steps);
      s.connected && s.sys.open && Pending(s) ==> WakeDue(s)
  {
    ConnectedInv(offset);
    RunKeepsInv(Connected(offset), steps);
    StallNeedsEmptyWrite(Connected(offset), steps);
  }

  // Exactly when bytes are left behind: with nothing due, bytes are pending if and only if the last
  // write ended with zero bytes.
  lemma LeftBehindIffStalled(offset: nat, steps: seq<Step>)
    requires Run(Connected(offset), steps)
    ensures var s := After(Connected(offset), steps);
      s.connected && s.sys.open && !WakeDue(s) ==> (Pending(s) <==> s.log.stalled)
  {
    ConnectedInv(offset);
    RunKeepsInv(Connected(offset), steps);
  }

  // A stalled session with both buffers full and nothing due: no sender can ever wake it again.
  ghost predicate Stuck(s: State) {
    && s.connected && s.log.stalled && s.buf.main != [] && s.buf.flush != [] && s.sys.writes == []
    && s.io == [] && s.posted == []
  }

  lemma {:induction false} SendersCannotUnstick(s: State, steps: seq<Step>)
    requires Stuck(s) && Run(s, steps)
    requires forall i :: 0 <= i < |steps| ==> !steps[i].AskDisconnect? && !steps[i].Received?
    requires forall i :: 0 <= i < |steps| && steps[i].Send? ==> steps[i].data != []
    ensures Stuck(After(s, steps)) && After(s, steps).sys.wire == s.sys.wire
    decreases |steps|
  {
    if steps != [] {
      assert steps[0].Send?;
      assert forall i :: 0 <= i < |steps[1..]| ==> steps[1..][i] == steps[i + 1];
      SendersCannotUnstick(Next(s, steps[0]), steps[1..]);
    }
  }

  ghost predicate Reaches(s: State, t: State) {
    exists steps :: Run(s, steps) && After(s, steps) == t
  }

  lemma ReachesSelf(s: State)
    ensures Reaches(s, s)
  {
    assert Run(s, []) && After(s, []) == s;
  }

  lemma StepReaches(s: State, step: Step, s': State, t: State)
    requires Enabled(s, step) && Next(s, step) == s' && Reaches(s', t)
    ensures Reaches(s, t)
  {
    var steps :| Run(s', steps) && After(s', steps) == t;
    assert ([step] + steps)[1..] == steps;
    assert Run(s, [step] + steps) && After(s, [step] + steps) == t;
  }

  // A session that has just started to write its first byte.
  function Writing(): State {
    State(true, true, true, Buffers([], "a", 0, 0, 1, 0), [], [],
          System(true, [Requested("a")], 1, []), History("a", false, false, 0))
  }

  lemma FirstByteReaches(offset: nat, t: State)
    requires Reaches(Writing(), t)
    ensures Reaches(Connected(offset), t)
  {
    var s0, task := Connected(offset), RunTask(false);
    var s1 := s0.(buf := Buffers("a", [], offset, 1, 0, 0), posted := [TrySend], log := s0.log.(accepted := "a"));
    var s2 := s1.(io := [TrySend], posted := []);
    var s3 := s2.(io := [StartWrite], buf := Buffers([], "a", 0, 0, 1, 0));
    StepReaches(s3, task, Writing(), t);
    StepReaches(s2, task, s3, t);
    StepReaches(s1, RunPosted(0), s2, t);
    StepReaches(s0, Send("a"), s1, t);
  }

  // That write reports zero bytes, with or without an error, while a second byte waits: the wake-up is lost.
  lemma EmptyWriteLosesWakeup(offset: nat, failed: bool)
    ensures exists t :: Reaches(Connected(offset), t) && Stuck(t)
  {
    var s4, task := Writing(), RunTask(false);
    var s5 := s4.(buf := Buffers("b", "a", 0, 1, 1, 0), posted := [TrySend], log := s4.log.(accepted := "ab"));
    var s6 := s5.(io := [TrySend], posted := []);
    var s7 := s6.(io := []);
    var s8 := s7.(sys := s7.sys.(writes := [Reported("a", 0, failed)]));
    var s9 := s8.(sending := false, sys := s7.sys.(writes := []), log := s8.log.(stalled := true));
    ReachesSelf(s9);
    StepReaches(s8, Written(0), s9, s9);
    StepReaches(s7, Transfer(0, 0, failed), s8, s9);
    StepReaches(s6, task, s7, s9);
    StepReaches(s5, RunPosted(0), s6, s9);
    StepReaches(s4, Send("b"), s5, s9);
    FirstByteReaches(offset, s9);
  }

  // The hypothesis of an open socket is needed: after a write that failed part way and a close that reports an
  // error, a connected session keeps unsent bytes with nothing due, and no write was empty.
  ghost predicate Abandoned(s: State) {
    s.connected && !s.sys.open && !s.log.stalled && s.buf.Unsent() != [] && !WakeDue(s)
  }

  // A run without empty writes from s to t.
  ghost predicate Moves(s: State, t: State) {
    exists steps :: Run(s, steps) && NoEmptyWrite(s, steps) && After(s, steps) == t
  }

  lemma MovesSelf(s: State)
    ensures Moves(s, s)
  {
    assert Run(s, []) && NoEmptyWrite(s, []) && After(s, []) == s;
  }

  lemma StepMoves(s: State, step: Step, s': State, t: State)
    requires Enabled(s, step) && Next(s, step) == s' && !SentNothing(s, step) && Moves(s', t)
    ensures Moves(s, t)
  {
    var steps :| Run(s', steps) && NoEmptyWrite(s', steps) && After(s', steps) == t;
    assert ([step] + steps)[1..] == steps;
    assert Run(s, [step] + steps) && NoEmptyWrite(s, [step] + steps) && After(s, [step] + steps) == t;
  }

  // Two bytes being written.
  function WritingTwo(): State {
    State(true, true, true, Buffers([], "ab", 0, 0, 2, 0), [], [],
          System(true, [Requested("ab")], 1, []), History("ab", false, false, 0))
  }

  lemma TwoBytesMove(offset: nat, t: State)
    requires Moves(WritingTwo(), t)
    ensures Moves(Connected(offset), t)
  {
    hide Moves;
    var s0, task := Connected(offset), RunTask(true);
    var s1 := s0.(buf := Buffers("ab", [], offset, 2, 0, 0), posted := [TrySend], log := s0.log.(accepted := "ab"));
    var s2 := s1.(io := [TrySend], posted := []);
    var s3 := s2.(io := [StartWrite], buf := Buffers([], "ab", 0, 0, 2, 0));
    StepMoves(s3, task, WritingTwo(), t);
    StepMoves(s2, task, s3, t);
    StepMoves(s1, RunPosted(0), s2, t);
    StepMoves(s0, Send("ab"), s1, t);
  }

  // The write moves one byte and fails, and closing the socket fails too.
  function AfterFailedClose(): State {
    WritingTwo().(sending := false, buf := Buffers([], "ab", 1, 0, 1, 1), sys := System(false, [], 1, "a"))
  }

  lemma FailedWriteMoves(t: State)
    requires Moves(AfterFailedClose(), t)
    ensures Moves(WritingTwo(), t)
  {
    hide Moves;
    var s4, s7 := WritingTwo(), AfterFailedClose();
    var s5 := s4.(sys := System(true, [Reported("ab", 1, true)], 1, "a"));
    var s6 := s7.(io := [Disconnect], sys := System(true, [], 1, "a"));
    assert s6.io[1..] == [];
    StepMoves(s6, RunTask(true), s7, t);
    FailedWriteEnds(s5, s6);
    StepMoves(s5, Written(0), s6, t);
    FailedTransfer(s4, s5);
    StepMoves(s4, Transfer(0, 1, true), s5, t);
  }

  lemma FailedTransfer(s4: State, s5: State)
    requires s4 == WritingTwo() && s5 == s4.(sys := System(true, [Reported("ab", 1, true)], 1, "a"))
    ensures Enabled(s4, Transfer(0, 1, true)) && Next(s4, Transfer(0, 1, true)) == s5
  {
    assert "" + "ab"[..1] == "a";
  }

  lemma FailedWriteEnds(s5: State, s6: State)
    requires s5 == WritingTwo().(sys := System(true, [Reported("ab", 1, true)], 1, "a"))
    requires s6 == AfterFailedClose().(io := [Disconnect], sys := System(true, [], 1, "a"))
    ensures WriteHandler(s5, 0) == s6
  {
    assert s5.sys.writes[..0] + s5.sys.writes[1..] == [];
    assert s5.buf.Advance(1) == s6.buf;
  }

  lemma FailedCloseLosesWakeup(offset: nat)
    ensures exists t :: Moves(Connected(offset), t) && Abandoned(t)
  {
    hide Moves;
    var t := AfterFailedClose();
    MovesSelf(t);
    FailedWriteMoves(t);
    TwoBytesMove(offset, t);
    assert t.buf.Unsent() == "b";
  }

  // A response can be enqueued and still never reach the wire: the disconnect that `on_receive` asks
  // for right after `send_async` runs inline, and clears the flush buffer under the started write.
  ghost predicate Lost(s: State) {
    !s.connected && s.log.replies == 1 && s.log.accepted == "r" && s.sys.wire == []
  }

  // The session that is about to run `send_async` on the response, and one that has.
  function Answering(offset: nat): State {
    Connected(offset).(receiving := false, io := [Reply("r"), Disconnect, TryReceive],
                       sys := System(true, [], 0, []), log := History([], false, true, 0))
  }

  function Answered(offset: nat): State {
    Answering(offset).(io := [TrySend, Disconnect, TryReceive], buf := Buffers("r", [], offset, 1, 0, 0),
                       log := History("r", false, true, 1))
  }

  lemma AnsweredIsLost(offset: nat)
    ensures exists t :: Reaches(Answered(offset), t) && Lost(t)
  {
    var s2, task := Answered(offset), RunTask(false);
    var s3 := s2.(io := [StartWrite, Disconnect, TryReceive], buf := Buffers([], "r", 0, 0, 1, 0));
    var s4 := s3.(io := [Disconnect, TryReceive], sending := true,
                  sys := System(true, [Requested("r")], 0, []));
    var s5 := Next(s4, task);
    ReachesSelf(s5);
    StepReaches(s4, task, s5, s5);
    StepReaches(s3, task, s4, s5);
    StepReaches(s2, task, s3, s5);
  }

  lemma ResponseMayBeLost(offset: nat)
    ensures exists t :: Reaches(Connected(offset), t) && Lost(t)
  {
    AnsweredIsLost(offset);
    var t :| Reaches(Answered(offset), t) && Lost(t);
    assert Pop(Answering(offset)).io == [Disconnect, TryReceive];
    StepReaches(Answering(offset), RunTask(false), Answered(offset), t);
    StepReaches(Connected(offset), Received(ReadData(Answer("r"))), Answering(offset), t);
  }
}
