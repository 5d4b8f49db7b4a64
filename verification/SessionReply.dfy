/**
 When a response reaches the wire. `on_receive` enqueues it and asks for a disconnect at once, so on the
 I/O thread nothing but `try_send` can run between the two: the response goes out in one write, or not at all.
 */
module SessionReply {
  import opened Session
  import opened SessionRuns

  // The session that `on_receive` has just given a response to.
  ghost predicate Replying(s: State, b: Bytes) {
    Inv(s) && s.io == [Reply(b), Disconnect, TryReceive] && b != []
  }

  // Everything accepted before and the whole response are on the wire.
  predicate Delivered(s: State, b: Bytes, t: State) { s.log.accepted + b <= t.sys.wire }

  /* ---- A write in flight, or a flush buffer that still holds bytes, keeps the response back ---- */

  // The bytes that may still reach the wire: those on it and the unsent flush buffer.
  function Reach(s: State): int { |s.sys.wire| + |s.buf.Unsent()| - Taken(s) }

  const REST: seq<Task> := [Disconnect, TryReceive]

  // What runs on the I/O thread before the disconnect does.
  predicate Ahead(io: seq<Task>) {
    io == REST || (io != [] && io[1..] == REST && (io[0] == TrySend || io[0] == StartWrite || (io[0].Reply? && io[0].bytes != [])))
  }

  // Until the socket is closed no more than n bytes can reach the wire.
  ghost predicate Held(s: State, n: int) {
    |s.sys.wire| <= n && (s.sys.open ==> s.connected && s.buf.flush != [] && Reach(s) == n && Ahead(s.io))
  }

  ghost predicate Blocked(s: State, n: int) { Inv(s) && Held(s, n) }

  lemma HeldReply(s: State, n: int)
    requires Held(s, n) && s.sys.open && s.io != [] && s.io[0].Reply?
    ensures Held(ReplyTask(s), n)
  {
    assert s.io[1..] == REST;
    assert ([TrySend] + REST)[1..] == REST;
  }

  lemma HeldSwap(s: State, n: int)
    requires Held(s, n) && s.sys.open && Running(s, TrySend)
    ensures Held(SwapTask(s), n)
  {
    assert s.io[1..] == REST;
    assert ([StartWrite] + REST)[1..] == REST;
  }

  lemma HeldStart(s: State, n: int)
    requires Held(s, n) && s.sys.open && Running(s, StartWrite) && s.sys.writes == []
    ensures Held(StartWriteTask(s), n)
  {
    assert s.io[1..] == REST;
  }

  lemma HeldDisconnect(s: State, n: int, closeFails: bool)
    requires Held(s, n) && Running(s, Disconnect)
    ensures Held(DisconnectTask(s, closeFails), n)
  {
  }

  lemma HeldTask(s: State, n: int, closeFails: bool)
    requires Blocked(s, n) && s.sys.open
    ensures Held(TaskEffect(s, closeFails), n)
  {
    hide Held, Conserved, Counted, Replied, Wakeful, SwapTask, StartWriteTask, DisconnectTask, ReplyTask;
    assert Ahead(s.io) by { HeldAhead(s, n); }
    match s.io[0]
    case TrySend => HeldSwap(s, n);
    case StartWrite => HeldStart(s, n);
    case Disconnect => HeldDisconnect(s, n, closeFails);
    case Reply(_) => HeldReply(s, n);
    case TryReceive => assert false;
  }

  lemma HeldAhead(s: State, n: int)
    requires Held(s, n) && s.sys.open
    ensures Ahead(s.io) && s.connected
  {
  }

  lemma HeldTransfer(s: State, n: int, w: nat, k: nat, failed: bool)
    requires Held(s, n) && s.sys.open && Exclusive(s) && Enabled(s, Transfer(w, k, failed))
    ensures Held(TransferEffect(s, w, k, failed), n)
  {
  }

  // What other threads may do leaves the flush buffer, the I/O thread and the system alone.
  lemma OthersKeep(s: State, step: Step)
    requires step.Send? || step.AskDisconnect?
    ensures var t := Next(s, step);
      && t.connected == s.connected && t.io == s.io && t.sys == s.sys
      && t.buf.flush == s.buf.flush && t.buf.offset == s.buf.offset
  {
  }

  lemma HeldSend(s: State, n: int, step: Step)
    requires Held(s, n) && s.sys.open && (step.Send? || step.AskDisconnect?)
    ensures Held(Next(s, step), n)
  {
    hide Next, Ahead;
    OthersKeep(s, step);
  }

  lemma BlockedStep(s: State, n: int, step: Step)
    requires Blocked(s, n) && Enabled(s, step)
    ensures Blocked(Next(s, step), n)
  {
    hide Core, Wakeful, Next;
    NextKeepsInv(s, step);
    if s.sys.open { OpenStep(s, n, step); } else { ClosedStep(s, n, step); }
  }

  lemma ClosedStep(s: State, n: int, step: Step)
    requires Held(s, n) && !s.sys.open && Enabled(s, step)
    ensures Held(Next(s, step), n)
  {
    hide Next;
    StepOnceClosed(s, step);
  }

  lemma OpenStep(s: State, n: int, step: Step)
    requires Blocked(s, n) && s.sys.open && Enabled(s, step)
    ensures Held(Next(s, step), n)
  {
    hide Held, Conserved, Counted, Replied, Wakeful, TaskEffect, TransferEffect, SendAsync, DisconnectCall;
    HeldAhead(s, n);
    assert s.io != [];
    match step
    case RunTask(closeFails) => HeldTask(s, n, closeFails);
    case Transfer(w, k, failed) => HeldTransfer(s, n, w, k, failed);
    case Send(data) => HeldSend(s, n, step);
    case AskDisconnect => HeldSend(s, n, step);
    case RunPosted(i) => assert false;
    case Written(w) => assert false;
    case Received(r) => assert false;
  }

  lemma {:induction false} BlockedRun(s: State, n: int, steps: seq<Step>)
    requires Blocked(s, n) && Run(s, steps)
    ensures Blocked(After(s, steps), n)
    decreases |steps|
  {
    if steps != [] {
      BlockedStep(s, n, steps[0]);
      BlockedRun(Next(s, steps[0]), n, steps[1..]);
    }
  }

  // With a write in flight, or bytes of an earlier write left to send, no byte of the response ever reaches
  // the wire, whatever the system and the other threads do.
  lemma NothingOfReplySent(s: State, b: Bytes, steps: seq<Step>)
    requires Replying(s, b) && (!s.sys.open || s.sending || s.buf.flush != []) && Run(s, steps)
    ensures After(s, steps).sys.wire <= s.log.accepted
  {
    var n := if s.sys.open then Reach(s) else |s.sys.wire|;
    assert s.io[1..] == REST;
    BlockedRun(s, n, steps);
    AcceptedGrows(s, steps);
    var t := After(s, steps);
    assert t.sys.wire == t.log.accepted[..|t.sys.wire|] == s.log.accepted[..|t.sys.wire|];
  }

  lemma {:induction false} AcceptedGrows(s: State, steps: seq<Step>)
    requires Run(s, steps)
    ensures s.log.accepted <= After(s, steps).log.accepted
    decreases |steps|
  {
    if steps != [] {
      AcceptedStep(s, steps[0]);
      AcceptedGrows(Next(s, steps[0]), steps[1..]);
    }
  }

  lemma AcceptedStep(s: State, step: Step)
    requires Enabled(s, step)
    ensures s.log.accepted <= Next(s, step).log.accepted
  {
    match step
    case RunTask(closeFails) => AcceptedTask(s, closeFails);
    case Received(r) => AcceptedRead(s, r);
    case _ =>
  }

  lemma AcceptedTask(s: State, closeFails: bool)
    requires s.io != []
    ensures s.log.accepted <= TaskEffect(s, closeFails).log.accepted
  {
  }

  lemma AcceptedRead(s: State, r: Read)
    requires s.sys.pendingReads > 0
    ensures s.log.accepted == ReadHandler(s, r).log.accepted
  {
  }

  /* ---- Otherwise one write carries it ---- */

  // The response is in the main buffer and `try_send` is about to look at it.
  ghost predicate Queued(s: State) {
    && Inv(s) && s.connected && s.sys.open && !s.sending && s.buf.flush == []
    && s.io == [TrySend, Disconnect, TryReceive]
  }

  // From the reply to that point: the main buffer ends with the response.
  lemma ReplyIsQueued(s: State, b: Bytes, closeFails: bool)
    requires Replying(s, b) && s.sys.open && !s.sending && s.buf.flush == []
    ensures var q := Next(s, RunTask(closeFails));
      && Queued(q) && q.log.accepted == s.log.accepted + b && q.buf.main == s.buf.main + b
      && q.sys.wire + q.buf.main == q.log.accepted
  {
    hide Wakeful, Replied, Counted;
    NextKeepsInv(s, RunTask(closeFails));
    var q := Next(s, RunTask(closeFails));
    assert s.io[1..] == REST && [TrySend] + REST == [TrySend, Disconnect, TryReceive];
    assert q.buf.Unsent()[Taken(q)..] == [];
  }

  // The write of the whole main buffer, if nothing comes in between.
  lemma WholeWrite(q: State, closeFails: bool) returns (steps: seq<Step>)
    requires Queued(q) && q.buf.main != []
    ensures Run(q, steps) && After(q, steps).sys.wire == q.sys.wire + q.buf.main
  {
    var task, n := RunTask(closeFails), |q.buf.main|;
    var q1 := SwapTask(q);
    assert q.io[1..] == REST && q1.io[0] == StartWrite;
    var q2 := StartWriteTask(q1);
    assert q.sys.writes == [] && q2.sys.writes == [Requested(q.buf.main)];
    var q3 := TransferEffect(q2, 0, n, false);
    assert q.buf.main[..n] == q.buf.main;
    var last := [Transfer(0, n, false)];
    assert Run(q3, []) && After(q3, []) == q3 && last == [Transfer(0, n, false)] + [];
    OneMore(q2, Transfer(0, n, false), q3, []);
    OneMore(q1, task, q2, last);
    OneMore(q, task, q1, [task] + last);
    return [task] + ([task] + last);
  }

  lemma OneMore(s: State, step: Step, s': State, steps: seq<Step>)
    requires Enabled(s, step) && Next(s, step) == s' && Run(s', steps)
    ensures Run(s, [step] + steps) && After(s, [step] + steps) == After(s', steps)
  {
    assert ([step] + steps)[1..] == steps;
  }

  // Exactly when a response can reach the wire: the socket is open, no write is in flight, and no bytes of an
  // earlier write are left. Otherwise not one byte of it does.
  lemma ReplyDeliverableIff(s: State, b: Bytes)
    requires Replying(s, b)
    ensures (exists steps :: Run(s, steps) && Delivered(s, b, After(s, steps))) <==>
      s.sys.open && !s.sending && s.buf.flush == []
  {
    if s.sys.open && !s.sending && s.buf.flush == [] {
      ReplyIsQueued(s, b, false);
      var q := Next(s, RunTask(false));
      var steps := WholeWrite(q, false);
      OneMore(s, RunTask(false), q, steps);
      assert Delivered(s, b, After(s, [RunTask(false)] + steps));
    } else {
      forall steps | Run(s, steps) ensures !Delivered(s, b, After(s, steps)) { NothingOfReplySent(s, b, steps); }
    }
  }

  // How often the system moves bytes in a run, and how many.
  function Transfers(steps: seq<Step>): nat {
    if steps == [] then 0 else (if steps[0].Transfer? && steps[0].n > 0 then 1 else 0) + Transfers(steps[1..])
  }

  function Moved(steps: seq<Step>): nat {
    if steps == [] then 0 else (if steps[0].Transfer? then steps[0].n else 0) + Moved(steps[1..])
  }

  // Whether bytes can still be moved before the socket is closed.
  predicate Idle(s: State) { s.sys.writes == [] && !s.sending }

  ghost predicate Stage(s: State, k: nat) {
    s.sys.open ==>
      && s.connected && Exclusive(s)
      && ((k == 1 && Idle(s) && s.io != [] && s.io[1..] == REST && (s.io[0] == TrySend || s.io[0] == StartWrite)) ||
          (s.io == REST && (k == 1 || forall w :: w in s.sys.writes ==> w.Reported?)))
  }

  lemma StageStep(s: State, k: nat, step: Step)
    requires Inv(s) && Stage(s, k) && k <= 1 && Enabled(s, step)
    ensures var moves := step.Transfer? && step.n > 0;
      (moves ==> k == 1) && Stage(Next(s, step), if moves then 0 else k)
  {
    hide Conserved, Counted, Replied, Wakeful;
    if !s.sys.open {
      StepOnceClosed(s, step);
    } else {
      StageOpen(s, k, step);
    }
  }

  lemma StageOpen(s: State, k: nat, step: Step)
    requires Inv(s) && Stage(s, k) && k <= 1 && Enabled(s, step) && s.sys.open
    ensures var moves := step.Transfer? && step.n > 0;
      (moves ==> k == 1) && Stage(Next(s, step), if moves then 0 else k)
  {
    hide Conserved, Counted, Replied, Wakeful;
    NextKeepsInv(s, step);
    match step
    case RunTask(closeFails) => assert ([StartWrite] + REST)[1..] == REST;
    case Transfer(w, n, failed) =>
    case _ =>
  }

  lemma {:induction false} OneTransfer(s: State, k: nat, steps: seq<Step>)
    requires Inv(s) && Stage(s, k) && k <= 1 && Run(s, steps)
    ensures Transfers(steps) <= k
    decreases |steps|
  {
    hide Inv, Stage;
    if steps != [] {
      var moves := steps[0].Transfer? && steps[0].n > 0;
      StageStep(s, k, steps[0]);
      NextKeepsInv(s, steps[0]);
      OneTransfer(Next(s, steps[0]), if moves then 0 else k, steps[1..]);
    }
  }

  lemma {:induction false} WireGrowsByMoved(s: State, steps: seq<Step>)
    requires Run(s, steps)
    ensures s.sys.wire <= After(s, steps).sys.wire && |After(s, steps).sys.wire| == |s.sys.wire| + Moved(steps)
    decreases |steps|
  {
    hide Enabled, Next;
    if steps != [] {
      WireStep(s, steps[0]);
      WireGrowsByMoved(Next(s, steps[0]), steps[1..]);
    }
  }

  lemma WireStep(s: State, step: Step)
    requires Enabled(s, step)
    ensures var n := if step.Transfer? then step.n else 0;
      s.sys.wire <= Next(s, step).sys.wire && |Next(s, step).sys.wire| == |s.sys.wire| + n
  {
    match step
    case RunTask(closeFails) => if !Running(s, StartWrite) { TaskFrame(s, closeFails); }
    case Received(r) => ReadFrame(s, r);
    case _ =>
  }

  // A response that can be sent is sent by one transfer: no completion handler runs before the disconnect, so
  // the system moves bytes at most once, and the response is whole if and only if that once it moves
  // everything the main buffer held up to the response's end.
  lemma OneTransferDecides(q: State, steps: seq<Step>)
    requires Queued(q) && q.buf.main != [] && Run(q, steps)
    ensures Transfers(steps) <= 1
    ensures q.log.accepted <= After(q, steps).sys.wire <==> Moved(steps) >= |q.buf.main|
  {
    assert q.io[1..] == REST;
    OneTransfer(q, 1, steps);
    WireGrowsByMoved(q, steps);
    AcceptedGrows(q, steps);
    RunKeepsInv(q, steps);
    assert q.buf.Unsent()[Taken(q)..] == [];
    var t := After(q, steps);
    if Moved(steps) >= |q.buf.main| {
      assert t.sys.wire == t.log.accepted[..|t.sys.wire|];
    }
  }
}
