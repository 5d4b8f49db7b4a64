/**
 Whole requests: printing a request and parsing it, in one buffer or in two, gives it back; and over
 any sequence of buffers a parser yields one request or none.
 */
module RequestProofs {
  import opened Text
  import opened CharClasses
  import opened Route
  import opened HttpParser
  import opened ParserProofs
  import opened RequestHeaders

  predicate IsMethod(m: string) { m != [] && forall x :: 0 <= x < |m| ==> IsAlpha(m[x]) }

  predicate IsTarget(t: string) { t != [] && forall x :: 0 <= x < |t| ==> IsPathChar(t[x]) }

  predicate AreFields(fields: seq<Field>) { forall j :: 0 <= j < |fields| ==> IsField(fields[j]) }

  /* ---- The start line ---- */

  lemma BlankEnds(c: char)
    requires c == ' '
    ensures !IsTokenChar(c)
  {
  }

  lemma MethodReads(m: string, rest: string, mem: string)
    requires IsMethod(m) && mem == m + (" " + rest) && rest != []
    ensures MethodAt(mem, |mem|, 0) == Ok(m, |m| + 1)
  {
    assert mem == [] + (m + (" " + rest));
    SkipOver(IsAlpha, [], m, " " + rest, mem);
    TextAt([], m, " " + rest, mem);
    TextAt(m, " ", rest, mem);
    assert mem[0] == m[0] && IsAlpha(m[0]) && mem[|m| + 0] == ' ';
    BlankEnds(mem[|m|]);
    assert SkipWhile(IsAlpha, mem, 0, |mem|) == |m| && mem[0..|m|] == m;
  }

  lemma TargetReads(a: string, t: string, rest: string, mem: string)
    requires IsTarget(t) && mem == a + (t + (" " + rest)) && rest != []
    ensures TargetAt(mem, |mem|, |a|) == Ok(t, |a| + |t| + 1)
  {
    SkipOver(IsPathChar, a, t, " " + rest, mem);
    TextAt(a, t, " " + rest, mem);
    Shift(a, t, " " + rest, mem);
    TextAt(a + t, " ", rest, mem);
    assert mem[|a| + 0] == t[0] && mem[|a + t| + 0] == ' ';
  }

  lemma ProtocolReads(a: string, rest: string, mem: string)
    requires mem == a + ("HTTP/1.1" + rest)
    ensures ProtocolAt(mem, |mem|, |a|) == Ok(11, |a| + 8)
  {
    TextAt(a, "HTTP/1.1", rest, mem);
    assert mem[|a|..|a| + 5] == "HTTP/1.1"[..5];
    assert mem[|a| + 5] == '1' && mem[|a| + 6] == '.' && mem[|a| + 7] == '1';
  }

  // After the start line: the header block decides.
  lemma ProtocolOn(a: string, rest: string, mem: string, s: State)
    requires mem == a + ("HTTP/1.1" + (CRLF + rest))
    ensures AfterTarget(s, mem, |mem|, |a|) ==
      AfterProtocol(s.(phase := ProtocolDone, version := 11), HeaderBlock(mem, |mem|, |a| + 10, s.headers, None))
  {
    hide HeaderBlock, AfterProtocol, ProtocolAt;
    ProtocolReads(a, CRLF + rest, mem);
    Shift(a, "HTTP/1.1", CRLF + rest, mem);
    CrlfAt(a + "HTTP/1.1", rest, mem);
  }

  lemma TargetOn(a: string, t: string, rest: string, mem: string, s: State)
    requires IsTarget(t) && mem == a + (t + (" " + ("HTTP/1.1" + (CRLF + rest))))
    ensures AfterMethod(s, mem, |mem|, |a|) ==
      AfterProtocol(s.(target := t, phase := ProtocolDone, version := 11),
                    HeaderBlock(mem, |mem|, |a| + |t| + 11, s.headers, None))
  {
    hide HeaderBlock, AfterProtocol, AfterTarget, TargetAt, IsTarget;
    TargetReads(a, t, "HTTP/1.1" + (CRLF + rest), mem);
    Shift(a, t, " " + ("HTTP/1.1" + (CRLF + rest)), mem);
    Shift(a + t, " ", "HTTP/1.1" + (CRLF + rest), mem);
    ProtocolOn(a + t + " ", rest, mem, s.(target := t));
  }

  lemma StartLineReads(m: string, t: string, rest: string, mem: string, s: State)
    requires IsMethod(m) && IsTarget(t)
    requires mem == m + (" " + (t + (" " + ("HTTP/1.1" + (CRLF + rest)))))
    ensures StartLine(s, mem, |mem|) ==
      AfterProtocol(s.(httpMethod := m, target := t, phase := ProtocolDone, version := 11),
                    HeaderBlock(mem, |mem|, |m| + |t| + 12, s.headers, None))
  {
    hide HeaderBlock, AfterProtocol, AfterMethod, MethodAt, IsMethod, IsTarget;
    MethodReads(m, t + (" " + ("HTTP/1.1" + (CRLF + rest))), mem);
    Shift(m, " ", t + (" " + ("HTTP/1.1" + (CRLF + rest))), mem);
    TargetOn(m + " ", t, rest, mem, s.(httpMethod := m));
  }

  /* ---- What a start line that is accepted looks like ---- */

  lemma MethodAccepted(mem: string, last: nat)
    requires last <= |mem| && MethodAt(mem, last, 0).Ok?
    ensures var r := MethodAt(mem, last, 0);
      IsMethod(r.value) && r.it == |r.value| + 1 <= last && mem[..r.it] == r.value + " "
  {
    Skipped(IsAlpha, mem, 0, last);
    var e := SkipWhile(IsAlpha, mem, 0, last);
    assert mem[..e + 1] == mem[0..e] + [mem[e]];
  }

  lemma TargetAccepted(mem: string, last: nat, it: nat)
    requires it <= last <= |mem| && TargetAt(mem, last, it).Ok?
    ensures var r := TargetAt(mem, last, it);
      IsTarget(r.value) && r.it == it + |r.value| + 1 <= last && mem[..r.it] == mem[..it] + r.value + " "
  {
    Skipped(IsPathChar, mem, it, last);
    var e := SkipWhile(IsPathChar, mem, it, last);
    assert mem[..e + 1] == mem[..it] + mem[it..e] + [mem[e]];
  }

  lemma ProtocolAccepted(mem: string, last: nat, it: nat)
    requires it <= last <= |mem| && ProtocolAt(mem, last, it) == Ok(11, it + 8)
    ensures it + 8 <= last && mem[..it + 8] == mem[..it] + "HTTP/1.1"
  {
    assert mem[it..it + 8] == mem[it..it + 5] + [mem[it + 5], mem[it + 6], mem[it + 7]];
    assert mem[..it + 8] == mem[..it] + mem[it..it + 8];
  }

  // Whatever the buffer: if the start line is accepted, the buffer begins with a method, a blank, a target,
  // a blank and HTTP/1.1, these are what the parser keeps, and one half of a CRLF follows: the source
  // rejects only when both its characters are wrong.
  lemma StartLineAccepted(s: State, mem: string, last: nat)
    requires last <= |mem|
    ensures var r := StartLine(s, mem, last);
      r.Stage? && r.s.phase == ContentTypeDone ==>
        var line := r.s.httpMethod + " " + r.s.target + " " + "HTTP/1.1";
        && IsMethod(r.s.httpMethod) && IsTarget(r.s.target) && r.s.version == 11
        && |line| + 2 <= last && mem[..|line|] == line && (mem[|line|] == '\r' || mem[|line| + 1] == '\n')
  {
    hide MethodAt, TargetAt, HeaderBlock, ContentTypeOf, IsMethod, IsTarget;
    var m := MethodAt(mem, last, 0);
    var r := StartLine(s, mem, last);
    if r.Stage? && r.s.phase == ContentTypeDone {
      MethodAccepted(mem, last);
      TargetAccepted(mem, last, m.it);
      var t := TargetAt(mem, last, m.it);
      ProtocolAccepted(mem, last, t.it);
    }
  }

  /* ---- One buffer ---- */

  // The parser once it has read a request's start line and its fields.
  function Started(m: string, t: string, fields: seq<Field>, contentType: ContentType): State {
    var headers := FieldMap(fields, |fields|);
    Fresh(contentType).(httpMethod := m, target := t, version := 11, headers := headers,
                        contentType := ContentTypeOf(headers), phase := ContentTypeDone)
  }

  lemma StartsRequest(m: string, t: string, fields: seq<Field>, payload: string, contentType: ContentType)
    requires IsMethod(m) && IsTarget(t) && fields != [] && AreFields(fields)
    ensures var mem := PrintRequest(m, t, fields, payload);
      |payload| + 4 <= |mem| && mem[|mem| - |payload| - 4..] == CRLF + CRLF + payload &&
      StartLine(Fresh(contentType), mem, |mem|) ==
        AfterProtocol(Fresh(contentType).(httpMethod := m, target := t, phase := ProtocolDone, version := 11),
                      Block(FieldMap(fields, |fields|), |mem| - |payload| - 4, None))
  {
    hide StartLine, AfterProtocol, HeaderBlock, IsMethod, IsTarget;
    var mem, rest := PrintRequest(m, t, fields, payload), PrintFields(fields, 0, CRLF + payload);
    StartLineReads(m, t, rest, mem, Fresh(contentType));
    var a := m + " " + t + " " + "HTTP/1.1" + CRLF;
    assert mem == a + rest;
    BlockRoundTrip(a, fields, payload, mem, None);
    BlockEnds(a, fields, payload, mem);
  }

  // A printed block of fields is followed by a blank line and the payload.
  lemma BlockEnds(a: string, fields: seq<Field>, payload: string, mem: string)
    requires fields != [] && mem == a + PrintFields(fields, 0, CRLF + payload)
    ensures |payload| + 4 <= |mem| && mem[|mem| - |payload| - 4..] == CRLF + CRLF + payload
  {
    var n := |fields|;
    FieldsSplit(a, fields, n, CRLF + payload, mem);
    assert mem == Upto(a, fields, n - 1) + Head(fields[n - 1]) + CRLF + (CRLF + payload);
    assert mem == (Upto(a, fields, n - 1) + Head(fields[n - 1])) + (CRLF + CRLF + payload);
  }

  // The call on a printed request whose body is taken as it is, by what the parser makes of its length.
  lemma BodyCall(m: string, t: string, fields: seq<Field>, payload: string, contentType: ContentType)
    requires IsMethod(m) && IsTarget(t) && fields != [] && AreFields(fields) && PlainBody(fields)
    ensures var mem, s := PrintRequest(m, t, fields, payload), Started(m, t, fields, contentType);
      var length := ContentLength(s.headers);
      ParseCall(Fresh(contentType), mem, |mem|) ==
        if length.Some? && length.value > 0 && payload == [] then Call(s.(phase := BodyPending), None, None)
        else Call(s.(phase := Finished),
                  Some(Request(ToMethod(m), 11, t, s.headers, CRLF + CRLF + payload, [])), None)
  {
    hide StartLine, PrintRequest, AreFields, IsMethod, IsTarget, FieldMap, ContentTypeOf, ContentLength, PlainBody, MediaBody;
    TypeDecided(fields);
    StartsRequest(m, t, fields, payload, contentType);
    var mem := PrintRequest(m, t, fields, payload);
    var it := |mem| - |payload| - 4;
    assert StartLine(Fresh(contentType), mem, |mem|) == Stage(Started(m, t, fields, contentType), it, None);
    assert mem[it..|mem|] == mem[it..];
  }

  // Printing a request and parsing it as one buffer: all of it comes back, the body behind its blank line. When
  // its fields announce a body and there is none, the parser waits for it.
  lemma RequestRoundTrip(m: string, t: string, fields: seq<Field>, payload: string, n: nat, contentType: ContentType)
    requires IsMethod(m) && IsTarget(t) && fields != [] && AreFields(fields) && PlainBody(fields)
    requires payload != [] || Announces(fields, n)
    ensures var mem, s := PrintRequest(m, t, fields, payload), Started(m, t, fields, contentType);
      ParseCall(Fresh(contentType), mem, |mem|) ==
        if payload == [] && n > 0 then Call(s.(phase := BodyPending), None, None)
        else Call(s.(phase := Finished),
                  Some(Request(ToMethod(m), 11, t, FieldMap(fields, |fields|), CRLF + CRLF + payload, [])), None)
  {
    hide ParseCall, PrintRequest, AreFields, IsMethod, IsTarget, FieldMap, ContentTypeOf, ContentLength, PlainBody, ToMethod;
    BodyCall(m, t, fields, payload, contentType);
    if payload == [] { AnnouncedLength(fields, n); }
  }

  // The method of a request is the one its text names, and any other text is an unknown method.
  function MethodText(m: Method): string
    requires m != Unknown
  {
    match m
    case Get => "GET"
    case Post => "POST"
    case Delete => "DELETE"
    case Options => "OPTIONS"
    case Patch => "PATCH"
  }

  lemma MethodIff(text: string, m: Method)
    requires m != Unknown
    ensures ToMethod(text) == m <==> text == MethodText(m)
  {
  }

  /* ---- Two buffers ---- */

  // When the fields announce a body and the first buffer ends with them, the second buffer is the body.
  lemma TwoBufferRoundTrip(m: string, t: string, fields: seq<Field>, payload: string, n: nat, contentType: ContentType)
    requires IsMethod(m) && IsTarget(t) && fields != [] && AreFields(fields) && PlainBody(fields)
    requires Announces(fields, n) && n > 0
    ensures var mem := PrintRequest(m, t, fields, []);
      var first := ParseCall(Fresh(contentType), mem, |mem|);
      first.Call? && first.request == None &&
      ParseCall(first.s, payload, |payload|) ==
        Call(first.s.(phase := Finished),
             Some(Request(ToMethod(m), 11, t, FieldMap(fields, |fields|), payload, [])), None)
  {
    hide StartLine, PrintRequest, AreFields, IsMethod, IsTarget, FieldMap, ContentTypeOf, ContentLength, PlainBody,
      Announces, MediaBody;
    TypeDecided(fields);
    RequestRoundTrip(m, t, fields, [], n, contentType);
    assert payload[0..|payload|] == payload;
  }

  // A buffer: the memory behind it, of which the first `last` bytes were received.
  datatype Buffer = Buffer(mem: string, last: nat)

  predicate AreBuffers(buffers: seq<Buffer>) { forall j :: 0 <= j < |buffers| ==> buffers[j].last <= |buffers[j].mem| }

  // The parser after one call per buffer, and the requests it has yielded; nothing after a fault.
  datatype Run = Run(s: State, requests: seq<Request>) | RunFault

  function Requested(r: Call): seq<Request>
    requires r.Call?
  {
    if r.request.Some? then [r.request.value] else []
  }

  function Calls(s: State, buffers: seq<Buffer>): Run
    requires AreBuffers(buffers)
  {
    if buffers == [] then Run(s, [])
    else
      var before := Calls(s, buffers[..|buffers| - 1]);
      var b := buffers[|buffers| - 1];
      if before.RunFault? then RunFault
      else
        var r := ParseCall(before.s, b.mem, b.last);
        if r.CallFault? then RunFault
        else Run(r.s, before.requests + Requested(r))
  }

  // A parser in such a state never changes again and never yields a request.
  predicate Stuck(s: State) {
    match s.phase
    case NotStarted | ContentTypeDone | MediaNeedMore | MediaFinished => false
    case BodyPending => !IsBodyType(s.contentType)
    case _ => true
  }

  lemma StuckStays(s: State, mem: string, last: nat)
    requires last <= |mem|
    ensures Stuck(s) ==> ParseCall(s, mem, last) == Call(s, None, None)
  {
    if s.phase == BodyPending && Stuck(s) { assert !IsBodyType(s.contentType); }
  }

  // Cut inside its payload a request is not waited for: what the first buffer holds of the payload is the whole
  // body, and the rest is never read.
  lemma CutPayloadIsTruncated(m: string, t: string, fields: seq<Field>, payload: string, k: nat,
                              contentType: ContentType, later: seq<Buffer>)
    requires IsMethod(m) && IsTarget(t) && fields != [] && AreFields(fields) && 0 < k <= |payload|
    requires PlainBody(fields) && AreBuffers(later)
    ensures var mem := PrintRequest(m, t, fields, payload[..k]);
      AreBuffers([Buffer(mem, |mem|)] + later) &&
      var r := Calls(Fresh(contentType), [Buffer(mem, |mem|)] + later);
      r.Run? && r.requests ==
        [Request(ToMethod(m), 11, t, FieldMap(fields, |fields|), CRLF + CRLF + payload[..k], [])]
  {
    hide PrintRequest, AreFields, IsMethod, IsTarget, FieldMap, ContentTypeOf, ContentLength, ParseCall, Calls, ToMethod, PlainBody;
    var mem := PrintRequest(m, t, fields, payload[..k]);
    RequestRoundTrip(m, t, fields, payload[..k], 0, contentType);
    CallsFrom(Fresh(contentType), Buffer(mem, |mem|), later);
    FruitlessRun(ParseCall(Fresh(contentType), mem, |mem|).s, later);
  }

  // No later call yields a request: the parser is stuck, or does not know the content type.
  predicate Fruitless(s: State) {
    Stuck(s) || (s.phase in {ContentTypeDone, BodyPending} && s.contentType == UnknownType)
  }

  lemma FruitlessStays(s: State, mem: string, last: nat)
    requires last <= |mem| && Fruitless(s)
    ensures var r := ParseCall(s, mem, last); r.Call? && r.request == None && Fruitless(r.s)
  {
    hide ContentLength;
    StuckStays(s, mem, last);
  }

  lemma {:induction false} FruitlessRun(s: State, buffers: seq<Buffer>)
    requires AreBuffers(buffers) && Fruitless(s)
    ensures var r := Calls(s, buffers); r.Run? && r.requests == [] && Fruitless(r.s)
  {
    if buffers != [] {
      FruitlessRun(s, buffers[..|buffers| - 1]);
      var before, b := Calls(s, buffers[..|buffers| - 1]), buffers[|buffers| - 1];
      FruitlessStays(before.s, b.mem, b.last);
    }
  }

  // Any other content type is reported, and no call ever yields a request.
  lemma UnknownTypeRejected(m: string, t: string, fields: seq<Field>, payload: string, contentType: ContentType)
    requires IsMethod(m) && IsTarget(t) && fields != [] && AreFields(fields)
    requires !PlainBody(fields) && !MediaBody(fields)
    ensures var mem := PrintRequest(m, t, fields, payload);
      var r := ParseCall(Fresh(contentType), mem, |mem|);
      r.Call? && r.request == None && r.ec == Some(ContentTypeNotImplemented) && Fruitless(r.s)
  {
    hide StartLine, PrintRequest, AreFields, IsMethod, IsTarget, FieldMap, ContentTypeOf, ContentLength, PlainBody, MediaBody;
    TypeDecided(fields);
    StartsRequest(m, t, fields, payload, contentType);
  }

  // A media request whose first buffer ends with its header fields is lost: the parser is stuck.
  lemma MediaAfterHeadersIsLost(m: string, t: string, fields: seq<Field>, n: nat, contentType: ContentType)
    requires IsMethod(m) && IsTarget(t) && fields != [] && AreFields(fields) && MediaBody(fields)
    requires Announces(fields, n) && n > 0
    ensures var mem := PrintRequest(m, t, fields, []);
      var first := ParseCall(Fresh(contentType), mem, |mem|);
      first.Call? && first.request == None && first.ec == None && Stuck(first.s)
  {
    hide StartLine, PrintRequest, AreFields, IsMethod, IsTarget, FieldMap, ContentTypeOf, ContentLength, MediaFirst,
      PlainBody, MediaBody, Announces;
    TypeDecided(fields);
    AnnouncedSome(fields, n);
    AnnouncedLength(fields, n);
    StartsRequest(m, t, fields, [], contentType);
  }

  lemma AnnouncedSome(fields: seq<Field>, n: nat)
    requires Announces(fields, n) && n > 0
    ensures ValueOf(fields, LENGTH).Some?
  {
  }

  // A run that begins with a buffer is that buffer's call, and a run from where it leaves the parser.
  lemma {:induction false} CallsFrom(s: State, b: Buffer, later: seq<Buffer>)
    requires AreBuffers([b] + later) && AreBuffers(later) && b.last <= |b.mem|
    ensures var r := ParseCall(s, b.mem, b.last);
      Calls(s, [b] + later) ==
        if r.CallFault? then RunFault
        else
          var rest := Calls(r.s, later);
          if rest.RunFault? then RunFault else Run(rest.s, Requested(r) + rest.requests)
    decreases |later|
  {
    hide ParseCall, Requested;
    var all := [b] + later;
    if ParseCall(s, b.mem, b.last).CallFault? {
      FaultFrom(s, b, later);
    } else if later == [] {
      assert all == [b] && all[..0] == [];
    } else {
      var n := |later| - 1;
      assert all[..|all| - 1] == [b] + later[..n] && all[|all| - 1] == later[n];
      CallsFrom(s, b, later[..n]);
      var r, mid := ParseCall(s, b.mem, b.last), Calls(ParseCall(s, b.mem, b.last).s, later[..n]);
      if mid.Run? {
        var last := ParseCall(mid.s, later[n].mem, later[n].last);
        if last.Call? { assert Requested(r) + mid.requests + Requested(last) == Requested(r) + (mid.requests + Requested(last)); }
      }
    }
  }

  lemma {:induction false} FaultFrom(s: State, b: Buffer, later: seq<Buffer>)
    requires AreBuffers([b] + later) && b.last <= |b.mem| && ParseCall(s, b.mem, b.last).CallFault?
    ensures Calls(s, [b] + later) == RunFault
    decreases |later|
  {
    hide ParseCall;
    var all := [b] + later;
    if later == [] {
      assert all == [b] && all[..0] == [];
    } else {
      assert all[..|all| - 1] == [b] + later[..|later| - 1];
      FaultFrom(s, b, later[..|later| - 1]);
    }
  }

  /* ---- A start line cut short ---- */

  function RequestLine(m: string, t: string): string { m + " " + t + " " + "HTTP/1.1" + CRLF }

  // The first k bytes of the memory are those of the text.
  predicate Agrees(mem: string, text: string, k: nat) {
    k <= |mem| && k <= |text| && forall i :: 0 <= i < k ==> mem[i] == text[i]
  }

  lemma MethodCut(m: string, t: string, mem: string, k: nat)
    requires IsMethod(m) && IsTarget(t) && 0 < k && Agrees(mem, RequestLine(m, t), k)
    ensures MethodAt(mem, k, 0) == if k < |m| + 2 then Error(IncompleteStartLine) else Ok(m, |m| + 1)
  {
    var line := RequestLine(m, t);
    assert line[..|m|] == m && line[|m|] == ' ';
    assert forall i :: 0 <= i < |m| ==> line[i] == m[i];
    assert IsAlpha(m[0]) && mem[0] == m[0];
    SkipIs(IsAlpha, mem, 0, k, if k <= |m| then k else |m|);
    if k > |m| {
      BlankEnds(mem[|m|]);
      assert mem[0..|m|] == m;
    }
  }

  lemma TargetCut(m: string, t: string, mem: string, k: nat)
    requires IsMethod(m) && IsTarget(t) && |m| + 2 <= k && Agrees(mem, RequestLine(m, t), k)
    ensures TargetAt(mem, k, |m| + 1) ==
      if k < |m| + |t| + 3 then Error(IncompleteStartLine) else Ok(t, |m| + |t| + 2)
  {
    var line, a := RequestLine(m, t), |m| + 1;
    var end := a + |t|;
    assert forall i :: a <= i < end ==> line[i] == t[i - a];
    assert line[end] == ' ' && mem[a] == t[0];
    SkipIs(IsPathChar, mem, a, k, if k <= end then k else end);
    if k > end { assert mem[a..end] == t; }
  }

  lemma ProtocolCut(m: string, t: string, mem: string, k: nat)
    requires |m| + |t| + 3 <= k && Agrees(mem, RequestLine(m, t), k)
    ensures ProtocolAt(mem, k, |m| + |t| + 2) ==
      if k < |m| + |t| + 10 then Error(IncompleteStartLine) else Ok(11, |m| + |t| + 10)
  {
    var line, a := RequestLine(m, t), |m| + |t| + 2;
    if k >= a + 8 {
      assert line[a..a + 8] == "HTTP/1.1";
      assert forall i :: a <= i < a + 8 ==> line[i] == "HTTP/1.1"[i - a];
      assert mem[a..a + 5] == "HTTP/1.1"[..5];
    }
  }

  lemma LineCut(m: string, t: string, mem: string, k: nat, s: State)
    requires IsMethod(m) && IsTarget(t) && 0 < k < |RequestLine(m, t)| && Agrees(mem, RequestLine(m, t), k)
    ensures var r := StartLine(s, mem, k);
      r.Stage? && r.ec == Some(IncompleteStartLine) && r.s.phase in {InMethod, InTarget, ProtocolDone, InProtocol}
  {
    hide MethodAt, TargetAt, ProtocolAt, IsMethod, IsTarget, HeaderBlock, AfterProtocol;
    MethodCut(m, t, mem, k);
    if k >= |m| + 2 {
      TargetCut(m, t, mem, k);
      if k >= |m| + |t| + 3 { ProtocolCut(m, t, mem, k); }
    }
  }

  // Wherever behind its first byte a start line is cut, the first buffer is reported as incomplete, and no
  // later buffers ever bring a request.
  lemma BrokenStartLineIsLost(m: string, t: string, k: nat, mem: string, contentType: ContentType, later: seq<Buffer>)
    requires IsMethod(m) && IsTarget(t) && 0 < k < |RequestLine(m, t)| && Agrees(mem, RequestLine(m, t), k)
    requires AreBuffers(later)
    ensures var r := ParseCall(Fresh(contentType), mem, k);
      r.Call? && r.request == None && r.ec == Some(IncompleteStartLine) && Stuck(r.s)
    ensures AreBuffers([Buffer(mem, k)] + later)
    ensures var run := Calls(Fresh(contentType), [Buffer(mem, k)] + later); run.Run? && run.requests == []
  {
    hide StartLine, MediaMore, MediaFirst, ContentLength, Calls, IsMethod, IsTarget;
    LineCut(m, t, mem, k, Fresh(contentType));
    var r := ParseCall(Fresh(contentType), mem, k);
    assert r.Call? && r.request == None && r.ec == Some(IncompleteStartLine) && Stuck(r.s);
    CallsFrom(Fresh(contentType), Buffer(mem, k), later);
    FruitlessRun(r.s, later);
  }

  /* ---- A header block without fields ---- */

  lemma {:induction false} ErrorStays(mem: string, last: nat, block: Block)
    requires last <= |mem| && (block.Block? ==> block.ec.Some?)
    ensures var r := Fields(mem, last, block); r.Block? ==> r.ec.Some?
    decreases if block.Block? && block.it < last then last - block.it else 0
  {
    if block.Block? && block.it < last {
      var round := OneField(mem, last, block.it, block.headers, block.ec);
      OneFieldKeepsError(mem, last, block.it, block.headers, block.ec);
      if round.more { ErrorStays(mem, last, round.block); }
    }
  }

  lemma OneFieldKeepsError(mem: string, last: nat, it: nat, headers: Headers, ec: Option<HttpError>)
    requires it < last <= |mem| && (ec.Some? || (mem[it] != ':' && !IsValidToken(mem[it])))
    ensures var r := OneField(mem, last, it, headers, ec).block; r.Block? ==> r.ec.Some?
  {
    hide FieldValue, SkipWhile;
    var name := FieldName(mem, last, it);
    if ec.None? { NoName(mem, last, it); }
  }

  lemma NoName(mem: string, last: nat, it: nat)
    requires it < last <= |mem| && mem[it] != ':' && !IsValidToken(mem[it])
    ensures FieldName(mem, last, it) == Piece("", it, Some(BadField))
  {
    assert SkipWhile(IsValidToken, mem, it, last) == it;
  }

  // The blank line right after the start line, where the first field should be, is an error.
  lemma NoFieldsIsAnError(mem: string, last: nat, it: nat, headers: Headers, ec: Option<HttpError>)
    requires it + 2 <= last <= |mem| && mem[it] == '\r'
    ensures var r := HeaderBlock(mem, last, it, headers, ec); r.Block? ==> r.ec.Some?
  {
    hide OneField;
    OneFieldKeepsError(mem, last, it, headers, ec);
    ErrorStays(mem, last, OneField(mem, last, it, headers, ec).block);
  }

  // So a request without fields either reports an error or reads outside its buffer.
  lemma RequestNeedsFields(m: string, t: string, payload: string, contentType: ContentType)
    requires IsMethod(m) && IsTarget(t)
    ensures var mem := PrintRequest(m, t, [], payload);
      var r := ParseCall(Fresh(contentType), mem, |mem|);
      r.CallFault? || r.ec.Some?
  {
    hide HeaderBlock, IsMethod, IsTarget, StartLine, ContentTypeOf, ContentLength;
    var mem := PrintRequest(m, t, [], payload);
    StartLineReads(m, t, CRLF + payload, mem, Fresh(contentType));
    var a := m + " " + t + " " + "HTTP/1.1" + CRLF;
    assert mem == a + (CRLF + payload);
    CrlfAt(a, payload, mem);
    NoFieldsIsAnError(mem, |mem|, |a|, map[], None);
    hide MediaFirst, MediaMore;
    LaterKeepsError(StartLine(Fresh(contentType), mem, |mem|), mem, |mem|);
  }

  lemma LaterKeepsError(stage: Stage, mem: string, last: nat)
    requires last <= |mem| && (stage.Stage? ==> stage.ec.Some?)
    ensures var r := AfterStartLine(stage, mem, last); r.Call? ==> r.ec.Some?
  {
    hide ContentLength, MediaMore, MediaBegin;
    if stage.Stage? {
      BeginKeepsError(stage, mem, last);
      var begun := MediaBegin(stage, mem, last);
      if begun.Stage? {
        MoreKeepsError(begun, mem, last);
        var more := MediaMore(begun, mem, last);
        if more.Stage? { MoreKeepsError(more, mem, last); }
      }
      MoreKeepsError(stage, mem, last);
    }
  }

  lemma MoreKeepsError(stage: Stage, mem: string, last: nat)
    requires last <= |mem| && stage.Stage?
    ensures var r := MediaMore(stage, mem, last); r.Stage? ==> r.ec == stage.ec
  {
    hide Consume, ContentLength, AsSize;
  }

  lemma BeginKeepsError(stage: Stage, mem: string, last: nat)
    requires last <= |mem| && stage.Stage? && stage.ec.Some?
    ensures var r := MediaBegin(stage, mem, last); r.Stage? ==> r.ec.Some?
  {
    hide OpeningLine, BoundaryOf, Fields;
    forall s: State, it: nat ensures var r := PartHeaders(s, mem, last, it, stage.ec); r.Stage? ==> r.ec.Some? {
      ErrorStays(mem, last, Block(map[], it, stage.ec));
    }
  }

  /* ---- Any sequence of buffers ---- */

  // A call yields a request exactly when it takes the parser to its last phase, which is never left.
  lemma OneCall(s: State, mem: string, last: nat)
    requires last <= |mem|
    ensures var r := ParseCall(s, mem, last);
      && (r.Call? ==> (r.request.Some? <==> s.phase != Finished && r.s.phase == Finished))
      && (r.Call? && s.phase == Finished ==> r.s == s)
  {
    hide StartLine, ContentLength, MediaMore, MediaBegin;
    PhaseAfterStart(s, mem, last);
    if s.phase == Finished { StuckStays(s, mem, last); }
    MediaPhases(mem, last);
  }

  lemma PhaseAfterStart(s: State, mem: string, last: nat)
    requires last <= |mem|
    ensures var r := StartLine(s, mem, last); r.Stage? ==> r.s.phase != Finished
  {
    hide MethodAt, TargetAt, ProtocolAt, HeaderBlock, ContentTypeOf;
  }

  lemma MediaPhases(mem: string, last: nat)
    requires last <= |mem|
    ensures forall stage: Stage :: stage.Stage? ==>
      var r := MediaMore(stage, mem, last); r.Stage? ==> r.s.phase == Finished ==> stage.s.phase == Finished
    ensures forall stage: Stage :: stage.Stage? ==>
      var r := MediaBegin(stage, mem, last); r.Stage? ==> r.s.phase != Finished
  {
    hide Consume, ContentLength, AsSize, OpeningLine, BoundaryOf, HeaderBlock;
  }

  lemma {:induction false} OneRequestPerRun(s: State, buffers: seq<Buffer>)
    requires AreBuffers(buffers) && s.phase != Finished
    ensures var r := Calls(s, buffers);
      r.Run? ==> |r.requests| == if r.s.phase == Finished then 1 else 0
  {
    if buffers != [] {
      OneRequestPerRun(s, buffers[..|buffers| - 1]);
      var before, b := Calls(s, buffers[..|buffers| - 1]), buffers[|buffers| - 1];
      if before.Run? { OneCall(before.s, b.mem, b.last); }
    }
  }

  /* ---- Header names ---- */

  predicate AreLower(headers: Headers) { forall name :: name in headers ==> IsLower(name) }

  lemma RoundIsLower(mem: string, last: nat, it: nat, headers: Headers, ec: Option<HttpError>)
    requires it < last <= |mem| && AreLower(headers)
    ensures var r := OneField(mem, last, it, headers, ec).block; r.Block? ==> AreLower(r.headers)
  {
    hide FieldName, FieldValue, IsLower;
    var name := FieldName(mem, last, it);
    if name.Piece? { LowerIsLower(name.text); }
  }

  lemma {:induction false} FieldsAreLower(mem: string, last: nat, block: Block)
    requires last <= |mem| && (block.Block? ==> AreLower(block.headers))
    ensures var r := Fields(mem, last, block); r.Block? ==> AreLower(r.headers)
    decreases if block.Block? && block.it < last then last - block.it else 0
  {
    hide OneField, AreLower;
    if block.Block? && block.it < last {
      RoundIsLower(mem, last, block.it, block.headers, block.ec);
      var round := OneField(mem, last, block.it, block.headers, block.ec);
      if round.more { FieldsAreLower(mem, last, round.block); }
    }
  }

  lemma StartIsLower(s: State, mem: string, last: nat)
    requires last <= |mem| && AreLower(s.headers)
    ensures var r := StartLine(s, mem, last); r.Stage? ==> AreLower(r.s.headers)
  {
    hide MethodAt, TargetAt, ProtocolAt, Fields, ContentTypeOf, AreLower;
    forall it: nat ensures var r := HeaderBlock(mem, last, it, s.headers, None); r.Block? ==> AreLower(r.headers) {
      FieldsAreLower(mem, last, Block(s.headers, it, None));
    }
  }

  // After the start line no step of a call changes the header map, and the request carries it.
  lemma CallKeepsHeaders(stage: Stage, mem: string, last: nat)
    requires last <= |mem| && stage.Stage?
    ensures var r := AfterStartLine(stage, mem, last);
      r.Call? ==> r.s.headers == stage.s.headers && (r.request.Some? ==> r.request.value.headers == stage.s.headers)
  {
    hide ContentLength, MediaMore, MediaBegin;
    MediaKeepsHeaders(mem, last);
  }

  lemma MediaKeepsHeaders(mem: string, last: nat)
    requires last <= |mem|
    ensures forall stage: Stage :: stage.Stage? ==>
      var r := MediaMore(stage, mem, last); r.Stage? ==> r.s.headers == stage.s.headers
    ensures forall stage: Stage :: stage.Stage? ==>
      var r := MediaBegin(stage, mem, last); r.Stage? ==> r.s.headers == stage.s.headers
  {
    hide Consume, ContentLength, AsSize, OpeningLine, BoundaryOf, HeaderBlock;
  }

  // Over any run every header name, in the parser and in its requests, is in lower case.
  lemma {:induction false} RunIsLower(s: State, buffers: seq<Buffer>)
    requires AreBuffers(buffers) && AreLower(s.headers)
    ensures var r := Calls(s, buffers);
      r.Run? ==> AreLower(r.s.headers) && forall q :: q in r.requests ==> AreLower(q.headers)
  {
    hide AreLower, ParseCall;
    if buffers != [] {
      RunIsLower(s, buffers[..|buffers| - 1]);
      var before, b := Calls(s, buffers[..|buffers| - 1]), buffers[|buffers| - 1];
      if before.Run? { CallIsLower(before.s, b.mem, b.last); }
    }
  }

  lemma CallIsLower(s: State, mem: string, last: nat)
    requires last <= |mem| && AreLower(s.headers)
    ensures var r := ParseCall(s, mem, last);
      r.Call? ==> AreLower(r.s.headers) && (r.request.Some? ==> AreLower(r.request.value.headers))
  {
    hide AreLower, StartLine, AfterStartLine;
    StartIsLower(s, mem, last);
    var stage := if s.phase == NotStarted then StartLine(s, mem, last) else Stage(s, 0, None);
    if stage.Stage? {
      CallKeepsHeaders(stage, mem, last);
    } else {
      assert AfterStartLine(stage, mem, last).CallFault? by { FaultStays(mem, last); }
    }
  }

  lemma FaultStays(mem: string, last: nat)
    requires last <= |mem|
    ensures AfterStartLine(StageFault, mem, last) == CallFault
  {
  }
}
