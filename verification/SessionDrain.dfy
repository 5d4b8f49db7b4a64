/**
 Draining: with no further senders, no disconnect, and every write moving at least one byte without
 error, the session sends everything it has accepted, in a bounded number of completions, however
 many reads complete meanwhile.
 */
module SessionDrain {
  import opened Session
  import opened SessionRuns

  // A session whose only remaining work is its own writer's, and reading on.
  ghost predicate Draining(s: State) {
    && Inv(s) && s.connected && s.sys.open && !s.log.stalled
    && (forall t :: t in s.io ==> t == TrySend || t == StartWrite || t == TryReceive)
    && (forall t :: t in s.posted ==> t == TrySend)
    && (forall w :: w in s.sys.writes && w.Reported? ==> w.n > 0 && !w.failed)
  }

  // A step of the writer, of the system on its behalf, or of the I/O thread.
  predicate WriterStep(step: Step) {
    match step
    case RunPosted(_) => true
    case RunTask(_) => true
    case Transfer(_, n, failed) => n > 0 && !failed
    case Written(_) => true
    case _ => false
  }

  // A read that completes and neither asks for a disconnect nor answers.
  predicate QuietRead(step: Step) {
    step.Received? && (step.r.ReadNothing? || (step.r.ReadData? && step.r.outcome.NeedMore?))
  }

  predicate DrainStep(step: Step) { WriterStep(step) || QuietRead(step) }

  // Bytes accepted but not yet reported as sent.
  function Backlog(s: State): nat { |s.buf.Unsent()| + |s.buf.main| }

  function TaskCost(io: seq<Task>): nat {
    if io == [] then 0
    else (if io[0] == TrySend then 4 else if io[0] == StartWrite then 3 else 1) + TaskCost(io[1..])
  }

  function WriteCost(writes: seq<Write>): nat {
    if writes == [] then 0 else (if writes[0].Requested? then 2 else 1) + WriteCost(writes[1..])
  }

  // A bound on the writer's steps left.
  function Rank(s: State): nat {
    4 * Backlog(s) + 5 * |s.posted| + TaskCost(s.io) + WriteCost(s.sys.writes)
  }

  // One step of the writer: the state stays draining, with fewer steps left.
  ghost predicate DrainsTo(s: State, s': State) {
    Draining(s') && Rank(s') < Rank(s) && s'.log.accepted == s.log.accepted
  }

  lemma DrainSwap(s: State)
    requires Draining(s) && Running(s, TrySend)
    ensures DrainsTo(s, SwapTask(s)) && Backlog(SwapTask(s)) == Backlog(s)
  {
    SwapKeepsInv(s);
    assert forall t :: t in Pop(s).io ==> t in s.io;
    assert s.io == [TrySend] + Pop(s).io;
    if !s.sending {
      assert SwapTask(s).io[1..] == Pop(s).io;
      if s.buf.flush == [] { SwapSplits(s.log.accepted, s.sys.wire, s.buf); }
    }
  }

  lemma DrainStart(s: State)
    requires Draining(s) && Running(s, StartWrite)
    ensures DrainsTo(s, StartWriteTask(s)) && Backlog(StartWriteTask(s)) == Backlog(s)
  {
    StartWriteKeepsInv(s);
    assert forall t :: t in Pop(s).io ==> t in s.io;
    assert s.io == [StartWrite] + Pop(s).io;
    assert s.sys.writes == [] && [Requested(s.buf.Unsent())][1..] == [];
    assert s.buf.flush != [] ==> StartWriteTask(s).sys.writes == [Requested(s.buf.Unsent())];
  }

  lemma DrainPosted(s: State, i: nat)
    requires Draining(s) && s.io == [] && i < |s.posted|
    ensures DrainsTo(s, RunPostedEffect(s, i)) && Backlog(RunPostedEffect(s, i)) == Backlog(s)
  {
    var s' := RunPostedEffect(s, i);
    RunPostedKeepsInv(s, i);
    assert s.posted[i] in s.posted;
    assert forall t :: t in s'.posted ==> t in s.posted;
    assert s'.io[1..] == [];
  }

  lemma DrainTransfer(s: State, w: nat, n: nat)
    requires Draining(s) && Enabled(s, Transfer(w, n, false)) && n > 0
    ensures var s' := TransferEffect(s, w, n, false); DrainsTo(s, s') && Backlog(s') == Backlog(s)
  {
    var s' := TransferEffect(s, w, n, false);
    TransferKeepsInv(s, w, n, false);
    assert w == 0 && s.sys.writes[1..] == [] && s'.sys.writes[1..] == [];
  }

  // Each completion strictly shortens what is left to send.
  lemma DrainWritten(s: State, w: nat)
    requires Draining(s) && Enabled(s, Written(w))
    ensures var s' := WriteHandler(s, w);
      DrainsTo(s, s') && Backlog(s') == Backlog(s) - s.sys.writes[w].n < Backlog(s)
  {
    var s' := WriteHandler(s, w);
    WriteHandlerKeepsInv(s, w);
    assert s.sys.writes[w] in s.sys.writes;
    assert w == 0 && s.sys.writes[1..] == [] && s'.sys.writes == [];
    assert s'.io == [TrySend] && s'.io[1..] == [];
    AdvanceSplits(s.log.accepted, s.sys.wire, s.buf, s.sys.writes[0].n);
  }

  lemma DrainReceive(s: State)
    requires Draining(s) && Running(s, TryReceive)
    ensures DrainsTo(s, TryReceiveTask(s)) && Backlog(TryReceiveTask(s)) == Backlog(s)
  {
    TryReceiveKeepsInv(s);
    assert forall t :: t in Pop(s).io ==> t in s.io;
    assert s.io == [TryReceive] + Pop(s).io;
  }

  // A quiet read leaves the buffers alone and makes one task more, which reads on.
  lemma DrainRead(s: State, step: Step)
    requires Draining(s) && QuietRead(step) && Enabled(s, step)
    ensures var s' := Next(s, step);
      Draining(s') && Rank(s') == Rank(s) + 1 && Backlog(s') == Backlog(s) && s'.log.accepted == s.log.accepted
  {
    NextKeepsInv(s, step);
    assert Next(s, step).io == [TryReceive] && [TryReceive][1..] == [];
  }

  // If bytes are left, some step of the writer can be taken.
  lemma DrainProgress(s: State) returns (step: Step)
    requires Draining(s) && Backlog(s) > 0
    ensures WriterStep(step) && Enabled(s, step)
  {
    if s.io != [] {
      step := RunTask(false);
    } else if s.sending {
      step := if s.sys.writes[0].Requested? then Transfer(0, 1, false) else Written(0);
    } else {
      assert Disconnect !in s.io && TrySend in s.posted;
      step := RunPosted(0);
    }
  }

  // Every step of a draining session: only a completion changes the backlog, by the bytes it reports.
  lemma DrainNext(s: State, step: Step)
    requires Draining(s) && DrainStep(step) && Enabled(s, step)
    ensures var s' := Next(s, step);
      && Draining(s') && s'.log.accepted == s.log.accepted
      && (WriterStep(step) ==> Rank(s') < Rank(s)) && (QuietRead(step) ==> Rank(s') == Rank(s) + 1)
      && (if step.Written? then Backlog(s') < Backlog(s) else Backlog(s') == Backlog(s))
  {
    match step
    case RunPosted(i) => DrainPosted(s, i);
    case RunTask(_) =>
      assert s.io[0] in s.io;
      match s.io[0] {
        case TrySend => DrainSwap(s);
        case StartWrite => DrainStart(s);
        case TryReceive => DrainReceive(s);
        case _ => assert false;
      }
    case Transfer(w, n, _) => DrainTransfer(s, w, n);
    case Written(w) => DrainWritten(s, w);
    case Received(_) => DrainRead(s, step);
  }

  // Without a backlog everything accepted has been sent.
  lemma NoBacklog(s: State)
    requires Draining(s) && Backlog(s) == 0
    ensures s.buf.main == [] && s.buf.flush == [] && s.sys.wire == s.log.accepted
  {
    assert s.buf.Unsent()[Taken(s)..] == [];
  }

  function Completions(steps: seq<Step>): nat {
    if steps == [] then 0 else (if steps[0].Written? then 1 else 0) + Completions(steps[1..])
  }

  function Reads(steps: seq<Step>): nat {
    if steps == [] then 0 else (if steps[0].Received? then 1 else 0) + Reads(steps[1..])
  }

  // Every draining run has at most as many completions as there were bytes left, and between two reads only
  // a bounded number of steps; when no bytes are left, or no step of the writer can be taken, both buffers
  // are empty and everything accepted is on the wire.
  lemma {:induction false} Drain(s: State, steps: seq<Step>)
    requires Draining(s) && Run(s, steps) && forall i :: 0 <= i < |steps| ==> DrainStep(steps[i])
    ensures var s' := After(s, steps);
      && Draining(s') && s'.log.accepted == s.log.accepted
      && Completions(steps) + Backlog(s') <= Backlog(s)
      && |steps| + Rank(s') <= Rank(s) + 2 * Reads(steps)
      && (Backlog(s') == 0 || (forall step :: WriterStep(step) ==> !Enabled(s', step)) ==>
            s'.buf.main == [] && s'.buf.flush == [] && s'.sys.wire == s.log.accepted)
    decreases |steps|
  {
    if steps == [] {
      if Backlog(s) == 0 {
        NoBacklog(s);
      } else {
        var step := DrainProgress(s);
      }
    } else {
      DrainNext(s, steps[0]);
      assert forall i :: 0 <= i < |steps[1..]| ==> steps[1..][i] == steps[i + 1];
      Drain(Next(s, steps[0]), steps[1..]);
    }
  }
}
