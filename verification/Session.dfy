/**
 The session's double-buffered asynchronous writer: the state it keeps, the effect of each of
 its handlers on that state, and the class whose methods are those handlers.

 The runtime around a session is explicit. `io` is the continuation stack of the single thread that
 runs the I/O context: a handler dispatched from that thread runs inline, so it is pushed. `posted`
 holds the handlers dispatched from other threads. Anything another thread may do can happen
 between two tasks of the I/O thread.
 */
module Session {

  // One char stands for one byte.
  type Bytes = string

  // What is left to run on the I/O thread. `try_send` is two tasks, so that another thread may
  // enqueue between the swap and the start of the write.
  datatype Task = TrySend | StartWrite | Disconnect | Reply(bytes: Bytes) | TryReceive

  // An asynchronous write: requested by the session, then reported by the operating system, which
  // has then put the first n bytes of the region on the wire.
  datatype Write = Requested(region: Bytes) | Reported(region: Bytes, n: nat, failed: bool)

  // What one completed read makes of the session: a receive error, an empty read, or received bytes
  // with what the request parser and the middlewares made of them.
  datatype Read = ReadError | ReadNothing | ReadData(outcome: Outcome)
  datatype Outcome = ParseFailed(finished: bool) | NeedMore | NoRequest | Answer(reply: Bytes)

  // The two send buffers, the flush offset and the counters kept beside them.
  datatype Buffers = Buffers(main: Bytes, flush: Bytes, offset: nat,
                             bytesPending: int, bytesSending: int, bytesSent: int)
  {
    // The part of the flush buffer that no completed write has covered.
    function Unsent(): Bytes {
      if offset <= |flush| then flush[offset..] else []
    }

    // Accepting bytes at the end of the main buffer.
    function Append(data: Bytes): Buffers {
      this.(main := main + data, bytesPending := |main + data|)
    }

    // An empty flush buffer takes over the main buffer.
    function Swap(): Buffers {
      Buffers([], main, 0, 0, bytesSending + |main|, bytesSent)
    }

    // Taking note of n bytes sent by a write that has completed.
    function Advance(n: nat): Buffers {
      var whole := offset + n == |flush|;
      Buffers(main, if whole then [] else flush, if whole then 0 else offset + n,
              bytesPending, bytesSending - n, bytesSent + n)
    }

    function Clear(): Buffers { this.(main := [], flush := [], bytesPending := 0, bytesSending := 0) }
  }

  // What the operating system holds for the session.
  datatype System = System(open: bool, writes: seq<Write>, pendingReads: nat, wire: Bytes)

  // History: bytes accepted, whether the last write ended with nothing sent, whether the parser has
  // finished, and the number of responses enqueued.
  datatype History = History(accepted: Bytes, stalled: bool, finished: bool, replies: nat)

  datatype State = State(connected: bool, sending: bool, receiving: bool, buf: Buffers,
                         io: seq<Task>, posted: seq<Task>, sys: System, log: History)

  // The state `connect` leaves. The source never initialises the flush offset.
  function Connected(offset: nat): State {
    State(true, false, true, Buffers([], [], offset, 0, 0, 0), [], [],
          System(true, [], 1, []), History([], false, false, 0))
  }

  /* ---- Effects of the handlers ---- */

  function Push(s: State, t: Task): State { s.(io := [t] + s.io) }

  function Pop(s: State): State
    requires s.io != []
  {
    s.(io := s.io[1..])
  }

  function Dispatch(s: State, t: Task, onIo: bool): State {
    if onIo then Push(s, t) else s.(posted := s.posted + [t])
  }

  function DisconnectCall(s: State, onIo: bool): State {
    if s.connected then Dispatch(s, Disconnect, onIo) else s
  }

  function Accept(s: State, data: Bytes): State {
    s.(buf := s.buf.Append(data), log := s.log.(accepted := s.log.accepted + data))
  }

  function SendAsync(s: State, data: Bytes, onIo: bool): State {
    if data == [] then DisconnectCall(s, onIo)
    else if s.buf.main == [] || s.buf.flush == [] then Dispatch(Accept(s, data), TrySend, onIo)
    else Accept(s, data)
  }

  predicate Running(s: State, t: Task) { s.io != [] && s.io[0] == t }

  function SwapTask(s: State): State
    requires Running(s, TrySend)
  {
    if s.sending then Pop(s)
    else if s.buf.flush == [] then Push(Pop(s).(buf := s.buf.Swap()), StartWrite)
    else Push(Pop(s), StartWrite)
  }

  function StartWriteTask(s: State): State
    requires Running(s, StartWrite)
  {
    if s.buf.flush == [] then Pop(s)
    else Pop(s).(sending := true, log := s.log.(stalled := false),
                 sys := s.sys.(writes := s.sys.writes + [Requested(s.buf.Unsent())]))
  }

  function WriteHandler(s: State, w: nat): State
    requires w < |s.sys.writes| && s.sys.writes[w].Reported?
  {
    var n := s.sys.writes[w].n;
    var s1 := s.(sending := false, sys := s.sys.(writes := s.sys.writes[..w] + s.sys.writes[w + 1..]));
    if n == 0 then s1.(log := s.log.(stalled := true))
    else if s.sys.writes[w].failed then DisconnectCall(s1.(buf := s.buf.Advance(n)), true)
    else Push(s1.(buf := s.buf.Advance(n)), TrySend)
  }

  // closeFails: closing the socket reports an error, and the session stays marked as connected.
  function DisconnectTask(s: State, closeFails: bool): State
    requires Running(s, Disconnect)
  {
    var s1 := Pop(s).(sys := s.sys.(open := false));
    if !s.connected || closeFails then s1
    else s1.(connected := false, receiving := false, sending := false, buf := s.buf.Clear())
  }

  function TryReceiveTask(s: State): State
    requires Running(s, TryReceive)
  {
    if s.receiving || !s.connected then Pop(s)
    else Pop(s).(receiving := true, sys := s.sys.(pendingReads := s.sys.pendingReads + 1))
  }

  function ReplyTask(s: State): State
    requires s.io != [] && s.io[0].Reply?
  {
    SendAsync(Pop(s).(log := s.log.(replies := s.log.replies + 1)), s.io[0].bytes, true)
  }

  function ReadHandler(s: State, r: Read): State
    requires s.sys.pendingReads > 0
  {
    AfterRead(s.(receiving := false, sys := s.sys.(pendingReads := s.sys.pendingReads - 1)), r)
  }

  function AfterRead(s: State, r: Read): State {
    match r
    case ReadError => DisconnectCall(s, true)
    case ReadNothing => Push(s, TryReceive)
    case ReadData(ParseFailed(finished)) =>
      DisconnectCall(Push(s.(log := s.log.(finished := finished)), TryReceive), true)
    case ReadData(NeedMore) => Push(s, TryReceive)
    case ReadData(NoRequest) => DisconnectCall(Push(s, TryReceive), true)
    case ReadData(Answer(reply)) =>
      s.(io := [Reply(reply), Disconnect, TryReceive] + s.io, log := s.log.(finished := true))
  }

  /* ---- The invariant every handler and every other event keeps ---- */

  // Bytes the operating system has already taken from the write in flight.
  function Taken(s: State): nat {
    if |s.sys.writes| == 1 && s.sys.writes[0].Reported? then s.sys.writes[0].n else 0
  }

  // A connected session has one write in flight when `sending`, over exactly the unsent bytes.
  ghost predicate Exclusive(s: State) {
    s.connected ==>
      && |s.sys.writes| == (if s.sending then 1 else 0)
      && (s.buf.flush != [] ==> s.buf.offset < |s.buf.flush|)
      && (s.sending ==> s.buf.flush != [] && s.sys.writes[0].region == s.buf.Unsent())
      && Taken(s) <= |s.buf.Unsent()|
  }

  // The accepted bytes are those on the wire, then the unsent ones the system has not taken, then
  // the main buffer.
  ghost predicate Split(accepted: Bytes, wire: Bytes, buf: Buffers, taken: nat) {
    taken <= |buf.Unsent()| && accepted == wire + buf.Unsent()[taken..] + buf.main
  }

  ghost predicate Conserved(s: State) {
    && s.sys.wire <= s.log.accepted
    && (s.connected ==> Split(s.log.accepted, s.sys.wire, s.buf, Taken(s)))
  }

  ghost predicate Counted(s: State) {
    s.connected ==>
      && s.buf.bytesPending == |s.buf.main|
      && s.buf.bytesSending == |s.buf.Unsent()|
      && s.buf.bytesSent == |s.sys.wire| - Taken(s)
  }

  ghost predicate Tasks(s: State) {
    && (!s.connected ==> !s.sys.open)
    && (forall i :: 0 < i < |s.io| ==> s.io[i] != StartWrite)
    && (forall i :: 0 <= i < |s.posted| ==> s.posted[i] == TrySend || s.posted[i] == Disconnect)
    && (Running(s, StartWrite) && s.connected ==> !s.sending)
  }

  // Something that will look at the buffers again is still to run.
  ghost predicate Woken(s: State) {
    TrySend in s.posted || TrySend in s.io || Disconnect in s.io
  }

  ghost predicate Wakeful(s: State) {
    s.connected && s.sys.open ==>
      && (s.buf.flush == [] && s.buf.main != [] ==> Woken(s))
      && (s.buf.flush != [] ==> s.log.stalled || s.sending || Running(s, StartWrite) || Woken(s))
      && StallShape(s)
  }

  ghost predicate StallShape(s: State) {
    s.connected && s.sys.open && s.log.stalled ==> s.buf.flush != [] && !s.sending
  }

  function Replies(io: seq<Task>): nat {
    if io == [] then 0 else (if io[0].Reply? then 1 else 0) + Replies(io[1..])
  }

  ghost predicate Replied(s: State) {
    && s.log.replies + Replies(s.io) <= (if s.log.finished then 1 else 0)
    && s.sys.pendingReads <= 1
    && (s.receiving ==> s.sys.pendingReads == 1)
    && (s.connected && s.sys.pendingReads == 1 ==> s.receiving)
  }

  ghost predicate Core(s: State) {
    Exclusive(s) && Conserved(s) && Counted(s) && Tasks(s) && Replied(s)
  }

  ghost predicate Inv(s: State) { Core(s) && Wakeful(s) }

  // What the parser may report, given whether it has already finished.
  predicate Legal(s: State, r: Read) {
    match r
    case ReadData(Answer(_)) => !s.log.finished
    case ReadData(NeedMore) => !s.log.finished
    case ReadData(NoRequest) => s.log.finished
    case ReadData(ParseFailed(finished)) => s.log.finished ==> finished
    case _ => true
  }

  /* ---- Buffers ---- */

  lemma AppendSplits(accepted: Bytes, wire: Bytes, buf: Buffers, taken: nat, data: Bytes)
    requires Split(accepted, wire, buf, taken)
    ensures Split(accepted + data, wire, buf.Append(data), taken)
  {
  }

  lemma SwapSplits(accepted: Bytes, wire: Bytes, buf: Buffers)
    requires Split(accepted, wire, buf, 0) && buf.flush == []
    ensures Split(accepted, wire, buf.Swap(), 0) && buf.Swap().Unsent() == buf.main && buf.Unsent() == []
  {
    assert buf.Swap().Unsent()[0..] == buf.main;
    assert buf.Unsent()[0..] == [];
  }

  lemma AdvanceSplits(accepted: Bytes, wire: Bytes, buf: Buffers, n: nat)
    requires Split(accepted, wire, buf, n) && buf.offset < |buf.flush| && 0 < n
    ensures Split(accepted, wire, buf.Advance(n), 0) && buf.Advance(n).Unsent() == buf.Unsent()[n..]
  {
    var buf' := buf.Advance(n);
    assert buf.flush[buf.offset + n..] == buf.Unsent()[n..];
    assert buf'.Unsent()[0..] == buf'.Unsent();
  }

  lemma TakeSplits(accepted: Bytes, wire: Bytes, buf: Buffers, n: nat)
    requires Split(accepted, wire, buf, 0) && n <= |buf.Unsent()|
    ensures Split(accepted, wire + buf.Unsent()[..n], buf, n)
    ensures wire + buf.Unsent()[..n] <= accepted
  {
    assert buf.Unsent()[0..] == buf.Unsent()[..n] + buf.Unsent()[n..];
  }

  /* ---- Tasks and posted handlers ---- */

  lemma PopKeepsCore(s: State)
    requires Core(s) && s.io != []
    ensures Core(Pop(s)) && !Running(Pop(s), StartWrite)
    ensures forall u :: u in s.io && u != s.io[0] ==> u in Pop(s).io
    ensures s.io[0].Reply? ==> s.log.replies + Replies(Pop(s).io) < (if s.log.finished then 1 else 0)
  {
    assert s.io == [s.io[0]] + s.io[1..];
  }

  lemma PushKeepsCore(s: State, t: Task)
    requires Core(s) && !Running(s, StartWrite) && !t.Reply?
    requires t == StartWrite && s.connected ==> !s.sending
    ensures Core(Push(s, t)) && Running(Push(s, t), t)
    ensures forall u :: u in s.io || u == t ==> u in Push(s, t).io
  {
    var io := Push(s, t).io;
    assert io[0] == t && io[1..] == s.io;
    assert forall i :: 0 < i < |io| ==> io[i] == s.io[i - 1];
  }

  // Waking the writer, or asking to disconnect, restores the whole invariant.
  lemma PushKeepsInv(s: State, t: Task)
    requires Core(s) && !Running(s, StartWrite) && StallShape(s)
    requires t == TrySend || t == Disconnect || (t == TryReceive && Wakeful(s))
    ensures Inv(Push(s, t))
  {
    PushKeepsCore(s, t);
  }

  lemma PostKeepsInv(s: State, t: Task)
    requires Core(s) && StallShape(s)
    requires t == TrySend || (t == Disconnect && Wakeful(s))
    ensures Inv(Dispatch(s, t, false))
  {
    var s' := Dispatch(s, t, false);
    assert s'.posted[|s.posted|] == t;
    assert forall i :: 0 <= i < |s.posted| ==> s'.posted[i] == s.posted[i];
    assert forall u :: u in s.posted ==> u in s'.posted;
  }

  /* ---- Each handler keeps the invariant ---- */

  lemma AcceptKeepsCore(s: State, data: Bytes)
    requires Core(s)
    ensures Core(Accept(s, data))
  {
    if s.connected { AppendSplits(s.log.accepted, s.sys.wire, s.buf, Taken(s), data); }
  }

  lemma SendKeepsInv(s: State, data: Bytes, onIo: bool)
    requires Inv(s) && (onIo ==> !Running(s, StartWrite))
    ensures Inv(SendAsync(s, data, onIo))
  {
    AcceptKeepsCore(s, data);
    var needed := s.buf.main == [] || s.buf.flush == [];
    if data == [] {
      DisconnectCallKeepsInv(s, onIo);
    } else if needed && onIo {
      PushKeepsInv(Accept(s, data), TrySend);
    } else if needed {
      PostKeepsInv(Accept(s, data), TrySend);
    }
  }

  lemma DisconnectCallKeepsInv(s: State, onIo: bool)
    requires Inv(s) && (onIo ==> !Running(s, StartWrite))
    ensures Inv(DisconnectCall(s, onIo))
  {
    if s.connected && onIo {
      PushKeepsInv(s, Disconnect);
    } else if s.connected {
      PostKeepsInv(s, Disconnect);
    }
  }

  lemma SwapKeepsInv(s: State)
    requires Inv(s) && Running(s, TrySend)
    ensures Inv(SwapTask(s))
  {
    PopKeepsCore(s);
    if !s.sending {
      var s1 := if s.buf.flush == [] then Pop(s).(buf := s.buf.Swap()) else Pop(s);
      if s.connected && s.buf.flush == [] { SwapSplits(s.log.accepted, s.sys.wire, s.buf); }
      assert Core(s1);
      PushKeepsCore(s1, StartWrite);
    }
  }

  lemma StartWriteKeepsInv(s: State)
    requires Inv(s) && Running(s, StartWrite)
    ensures Inv(StartWriteTask(s))
  {
    PopKeepsCore(s);
  }

  lemma WriteHandlerKeepsInv(s: State, w: nat)
    requires Inv(s) && s.io == [] && w < |s.sys.writes| && s.sys.writes[w].Reported?
    ensures Inv(WriteHandler(s, w))
  {
    var n := s.sys.writes[w].n;
    var s1 := s.(sending := false, sys := s.sys.(writes := s.sys.writes[..w] + s.sys.writes[w + 1..]));
    var s2 := s1.(buf := s.buf.Advance(n));
    if s.connected {
      assert w == 0 && s1.sys.writes == [] && n == Taken(s);
      if n > 0 { AdvanceSplits(s.log.accepted, s.sys.wire, s.buf, n); }
    }
    if n > 0 {
      assert Core(s2);
      if !s.sys.writes[w].failed {
        PushKeepsInv(s2, TrySend);
      } else if s.connected {
        PushKeepsInv(s2, Disconnect);
      }
    }
  }

  lemma DisconnectKeepsInv(s: State, closeFails: bool)
    requires Inv(s) && Running(s, Disconnect)
    ensures Inv(DisconnectTask(s, closeFails))
  {
    PopKeepsCore(s);
  }

  lemma TryReceiveKeepsInv(s: State)
    requires Inv(s) && Running(s, TryReceive)
    ensures Inv(TryReceiveTask(s))
  {
    PopKeepsCore(s);
  }

  lemma CountReplyKeepsInv(s: State)
    requires Inv(s) && s.io != [] && s.io[0].Reply?
    ensures var s1 := Pop(s).(log := s.log.(replies := s.log.replies + 1));
      Inv(s1) && !Running(s1, StartWrite)
  {
    PopKeepsCore(s);
  }

  lemma ReplyKeepsInv(s: State)
    requires Inv(s) && s.io != [] && s.io[0].Reply?
    ensures Inv(ReplyTask(s))
  {
    CountReplyKeepsInv(s);
    var s1 := Pop(s).(log := s.log.(replies := s.log.replies + 1));
    SendKeepsInv(s1, s.io[0].bytes, true);
    assert ReplyTask(s) == SendAsync(s1, s.io[0].bytes, true);
  }

  // After a read: a task to read again, then perhaps a disconnect.
  lemma AfterReadKeepsInv(s: State)
    requires Inv(s) && s.io == []
    ensures Inv(Push(s, TryReceive)) && Inv(DisconnectCall(Push(s, TryReceive), true))
    ensures Inv(DisconnectCall(s, true))
  {
    PushKeepsInv(s, TryReceive);
    DisconnectCallKeepsInv(Push(s, TryReceive), true);
    DisconnectCallKeepsInv(s, true);
  }

  lemma AnswerKeepsInv(s: State, reply: Bytes)
    requires Inv(s) && s.io == [] && !s.log.finished
    ensures Inv(AfterRead(s, ReadData(Answer(reply))))
  {
    var io := [Reply(reply), Disconnect, TryReceive];
    assert io + s.io == io;
    assert io[1..] == [Disconnect, TryReceive] && io[1..][1..] == [TryReceive];
    assert Replies(io) == 1 by { assert Replies([TryReceive]) == Replies([Disconnect, TryReceive]) == 0; }
  }

  lemma ReadHandlerKeepsInv(s: State, r: Read)
    requires Inv(s) && s.io == [] && s.sys.pendingReads > 0 && Legal(s, r)
    ensures Inv(ReadHandler(s, r))
  {
    var s1 := s.(receiving := false, sys := s.sys.(pendingReads := s.sys.pendingReads - 1));
    assert Core(s1) && Wakeful(s1);
    if r.ReadData? && r.outcome.Answer? {
      AnswerKeepsInv(s1, r.outcome.reply);
    } else if r.ReadData? && r.outcome.ParseFailed? {
      AfterReadKeepsInv(s1.(log := s1.log.(finished := r.outcome.finished)));
    } else {
      AfterReadKeepsInv(s1);
    }
  }

  /* ---- The session object: each method has exactly the effect of its handler above ---- */

  class WebSession {
    var connected: bool
    var sending: bool
    var receiving: bool
    var sendBufferMain: Bytes
    var sendBufferFlush: Bytes
    var sendBufferFlushOffset: nat
    var bytesPending: int
    var bytesSending: int
    var bytesSent: int

    // The runtime and the history, which the session itself does not hold.
    ghost var io: seq<Task>
    ghost var posted: seq<Task>
    ghost var sys: System
    ghost var log: History

    ghost function Buf(): Buffers
      reads this
    {
      Buffers(sendBufferMain, sendBufferFlush, sendBufferFlushOffset, bytesPending, bytesSending, bytesSent)
    }

    ghost function View(): State
      reads this
    {
      State(connected, sending, receiving, Buf(), io, posted, sys, log)
    }

    // `connect`, on a fresh session whose flush offset holds anything.
    constructor (offset: nat)
      ensures View() == Connected(offset)
    {
      connected, sending, receiving := true, false, true;
      sendBufferMain, sendBufferFlush, sendBufferFlushOffset := [], [], offset;
      bytesPending, bytesSending, bytesSent := 0, 0, 0;
      io, posted := [], [];
      sys, log := System(true, [], 1, []), History([], false, false, 0);
    }

    ghost method DispatchTask(t: Task, onIo: bool)
      modifies `io, `posted
      ensures View() == Dispatch(old(View()), t, onIo)
    {
      if onIo { io := [t] + io; } else { posted := posted + [t]; }
    }

    // Called from any thread; onIo says whether that is the I/O thread.
    method DisconnectSession(ghost onIo: bool) returns (accepted: bool)
      modifies `io, `posted
      ensures View() == DisconnectCall(old(View()), onIo)
      ensures accepted == connected
    {
      if !connected { return false; }
      DispatchTask(Disconnect, onIo);
      return true;
    }

    method SendBytes(data: Bytes, ghost onIo: bool) returns (accepted: bool)
      modifies this
      ensures View() == SendAsync(old(View()), data, onIo)
      ensures accepted <==> data != []
    {
      if |data| == 0 {
        var _ := DisconnectSession(onIo);
        return false;
      }
      var sendRequired := |sendBufferMain| == 0 || |sendBufferFlush| == 0;
      sendBufferMain := sendBufferMain + data;
      bytesPending := |sendBufferMain|;
      log := log.(accepted := log.accepted + data);
      if sendRequired { DispatchTask(TrySend, onIo); }
      return true;
    }

    // `try_send` up to the end of its locked section.
    method TrySendSwap()
      requires Running(View(), TrySend)
      modifies this
      ensures View() == SwapTask(old(View()))
    {
      io := io[1..];
      if sending { return; }
      if |sendBufferFlush| == 0 {
        sendBufferFlush, sendBufferMain := sendBufferMain, sendBufferFlush;
        sendBufferFlushOffset := 0;
        bytesPending := 0;
        bytesSending := bytesSending + |sendBufferFlush|;
      }
      DispatchTask(StartWrite, true);
    }

    // The rest of `try_send`.
    method TrySendStart()
      requires Running(View(), StartWrite)
      modifies this
      ensures View() == StartWriteTask(old(View()))
    {
      io := io[1..];
      if |sendBufferFlush| == 0 { return; }
      sending := true;
      log := log.(stalled := false);
      sys := sys.(writes := sys.writes + [Requested(Buf().Unsent())]);
    }

    // The completion handler's bookkeeping: statistics, offset, and clearing a flushed buffer.
    method TakeNote(size: nat)
      modifies this
      ensures View() == old(View()).(buf := old(Buf()).Advance(size))
    {
      bytesSending := bytesSending - size;
      bytesSent := bytesSent + size;
      sendBufferFlushOffset := sendBufferFlushOffset + size;
      if sendBufferFlushOffset == |sendBufferFlush| {
        sendBufferFlush := [];
        sendBufferFlushOffset := 0;
      }
    }

    // The completion handler of write w, called with the error and the size the system reports.
    method OnWritten(ghost w: nat, failed: bool, size: nat)
      requires w < |sys.writes| && sys.writes[w].Reported?
      requires sys.writes[w].n == size && sys.writes[w].failed == failed
      modifies this
      ensures View() == WriteHandler(old(View()), w)
    {
      sys := sys.(writes := sys.writes[..w] + sys.writes[w + 1..]);
      sending := false;
      if size == 0 {
        log := log.(stalled := true);
        return;
      }
      TakeNote(size);
      if !failed {
        DispatchTask(TrySend, true);
      } else {
        var _ := DisconnectSession(true);
      }
    }

    method ClearBuffers()
      modifies this
      ensures View() == old(View()).(buf := old(Buf()).Clear())
    {
      sendBufferMain := [];
      sendBufferFlush := [];
      bytesPending := 0;
      bytesSending := 0;
    }

    // The handler `disconnect` dispatches; closeFails is what closing the socket reports.
    method DisconnectHandler(closeFails: bool)
      requires Running(View(), Disconnect)
      modifies this
      ensures View() == DisconnectTask(old(View()), closeFails)
    {
      io := io[1..];
      sys := sys.(open := false);
      if !connected || closeFails { return; }
      connected := false;
      receiving := false;
      sending := false;
      ClearBuffers();
    }

    method TryReceiveNext()
      requires Running(View(), TryReceive)
      modifies this
      ensures View() == TryReceiveTask(old(View()))
    {
      io := io[1..];
      if receiving || !connected { return; }
      receiving := true;
      sys := sys.(pendingReads := sys.pendingReads + 1);
    }

    // The completion handler of a read, up to `on_receive`.
    method OnReadDone(r: Read)
      requires sys.pendingReads > 0
      modifies this
      ensures View() == ReadHandler(old(View()), r)
    {
      ghost var before := View();
      sys := sys.(pendingReads := sys.pendingReads - 1);
      receiving := false;
      assert View() == before.(receiving := false, sys := sys);
      ContinueReading(r);
    }

    // What the read handler and `on_receive` go on to run, in order.
    method ContinueReading(r: Read)
      modifies `io, `posted, `log
      ensures View() == AfterRead(old(View()), r)
    {
      match r {
        case ReadError => var _ := DisconnectSession(true);
        case ReadNothing => DispatchTask(TryReceive, true);
        case ReadData(outcome) =>
          match outcome {
            case NeedMore =>
              DispatchTask(TryReceive, true);
            case Answer(reply) =>
              io := [Reply(reply), Disconnect, TryReceive] + io;
              log := log.(finished := true);
            case ParseFailed(finished) =>
              log := log.(finished := finished);
              DispatchTask(TryReceive, true);
              var _ := DisconnectSession(true);
            case NoRequest =>
              DispatchTask(TryReceive, true);
              var _ := DisconnectSession(true);
          }
      }
    }
  }
}
