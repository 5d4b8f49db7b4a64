/**
 A multipart request received in several buffers. It is delivered when the first buffer reaches the part's
 data; wherever before that it is cut, the part's upload never comes out.
 */
module MultipartCuts {
  import opened Text
  import opened CharClasses
  import opened HttpParser
  import opened ParserProofs
  import opened RequestHeaders
  import opened RequestProofs
  import opened Locality
  import opened Multipart

  // What is printed: the request's method, target and fields, and a part's dashes, boundary and fields.
  datatype Form = Form(m: string, t: string, fields: seq<Field>, d: string, b: string, part: seq<Field>)

  ghost predicate IsForm(f: Form) {
    && IsAnnounced(f) && IsBoundary(f.b) && AreDashes(f.d)
    && f.part != [] && AreFields(f.part) && ValueOf(f.part, TYPE).Some?
  }

  // Its request's own fields announce it.
  ghost predicate IsAnnounced(f: Form) {
    IsMethod(f.m) && IsTarget(f.t) && f.fields != [] && AreFields(f.fields) && AnnouncesMedia(f.fields, f.b)
  }

  // The request up to its blank line; up to the part's boundary; up to the part's data; and all of it.
  function Top(f: Form): string { PrintRequest(f.m, f.t, f.fields, "") }

  function Dashed(f: Form): string { Top(f) + f.d }

  function Printed(f: Form, rest: string): string { PrintRequest(f.m, f.t, f.fields, PrintPart(f.d, f.b, f.part, rest)) }

  // Where the part's data starts.
  function DataStart(f: Form): nat { |Printed(f, "")| }

  /* ---- The text ---- */

  lemma {:induction false} FieldsThen(fields: seq<Field>, i: nat, rest: string, more: string)
    requires i <= |fields|
    ensures PrintFields(fields, i, rest + more) == PrintFields(fields, i, rest) + more
    decreases |fields| - i
  {
    if i < |fields| {
      FieldsThen(fields, i + 1, rest, more);
      FieldThen(fields[i], PrintFields(fields, i + 1, rest), more);
    }
  }

  lemma FieldThen(f: Field, rest: string, more: string)
    ensures PrintField(f, rest + more) == PrintField(f, rest) + more
  {
  }

  lemma RequestThen(m: string, t: string, fields: seq<Field>, payload: string, more: string)
    ensures PrintRequest(m, t, fields, payload + more) == PrintRequest(m, t, fields, payload) + more
  {
    hide PrintFields;
    FieldsThen(fields, 0, CRLF + payload, more);
    assert CRLF + payload + more == CRLF + (payload + more);
  }

  lemma PartThen(d: string, b: string, part: seq<Field>, rest: string, more: string)
    ensures PrintPart(d, b, part, rest + more) == PrintPart(d, b, part, rest) + more
  {
    hide PrintFields;
    FieldsThen(part, 0, CRLF + rest, more);
    assert CRLF + rest + more == CRLF + (rest + more);
  }

  // The printed request, taken apart at its places.
  lemma PrintedParts(f: Form, rest: string)
    ensures Printed(f, rest) == Top(f) + PrintPart(f.d, f.b, f.part, rest)
    ensures Printed(f, rest) == Dashed(f) + (f.b + (CRLF + PrintFields(f.part, 0, CRLF + rest)))
    ensures Printed(f, rest) == Printed(f, "") + rest
  {
    hide PrintRequest, PrintFields;
    var p := PrintPart(f.d, f.b, f.part, rest);
    assert "" + p == p && "" + rest == rest;
    RequestThen(f.m, f.t, f.fields, "", p);
    PartThen(f.d, f.b, f.part, "", rest);
    RequestThen(f.m, f.t, f.fields, PrintPart(f.d, f.b, f.part, ""), rest);
  }

  lemma AgreesWith(mem: string, text: string, k: nat, i: nat, j: nat)
    requires Agrees(mem, text, k) && i <= j <= k
    ensures mem[i..j] == text[i..j]
  {
  }

  // Agreeing with a text is agreeing with its beginnings.
  lemma AgreesFront(mem: string, front: string, more: string, k: nat)
    requires Agrees(mem, front + more, k)
    ensures Agrees(mem, front, if k < |front| then k else |front|)
  {
  }

  lemma FormParts(f: Form)
    requires IsForm(f)
    ensures IsAnnounced(f) && IsBoundary(f.b) && f.b != [] && AreDashes(f.d)
    ensures var headers := FieldMap(f.fields, |f.fields|);
      IsMediaType(ContentTypeOf(headers)) && "content-length" in headers && "content-type" in headers &&
      BoundaryOf(headers["content-type"]) == Some(f.b)
    ensures "content-type" in FieldMap(f.part, |f.part|)
  {
    hide FieldMap, ContentTypeOf, BoundaryOf, AnnouncesMedia, ValueOf;
    MediaKeys(f.fields, f.b);
    TypeKey(f.part);
  }

  /* ---- The start line and the fields ---- */

  // The parser behind the blank line.
  function Ready(f: Form, contentType: ContentType): Stage {
    Stage(Started(f.m, f.t, f.fields, contentType), if |Top(f)| < 4 then 0 else |Top(f)| - 4, None)
  }

  lemma TopReads(f: Form, contentType: ContentType)
    requires IsAnnounced(f)
    ensures |Top(f)| >= 4 && Top(f)[|Top(f)| - 4..] == CRLF + CRLF
    ensures StartLine(Fresh(contentType), Top(f), |Top(f)|) == Ready(f, contentType)
  {
    hide StartLine, PrintRequest, FieldMap, ContentTypeOf, BoundaryOf, AreFields, IsMethod, IsTarget, IsBoundary,
      AreDashes, AnnouncesMedia, ValueOf;
    MediaKeys(f.fields, f.b);
    StartsRequest(f.m, f.t, f.fields, "", contentType);
    assert CRLF + CRLF + "" == CRLF + CRLF;
  }

  lemma StartReads(f: Form, mem: string, k: nat, contentType: ContentType)
    requires IsAnnounced(f) && Agrees(mem, Top(f), |Top(f)|) && |Top(f)| <= k <= |mem|
    ensures StartLine(Fresh(contentType), mem, k) == Ready(f, contentType)
  {
    hide StartLine, IsAnnounced, Top;
    TopReads(f, contentType);
    StartLocal(Top(f), |Top(f)|, mem, k, Fresh(contentType));
  }

  // Cut before its blank line ends, a header block never ends four bytes before the cut.
  lemma StartCut(f: Form, mem: string, k: nat, contentType: ContentType)
    requires IsForm(f) && k < |Top(f)| && Agrees(mem, Top(f), k)
    ensures var r := StartLine(Fresh(contentType), mem, k);
      r.Stage? && r.s.phase == ContentTypeDone ==> r.it + 4 > k
  {
    hide StartLine, IsForm, IsAnnounced, Top;
    FormParts(f);
    TopReads(f, contentType);
    var r := StartLine(Fresh(contentType), mem, k);
    if r.Stage? && r.s.phase == ContentTypeDone && r.it + 4 <= k {
      StartLocal(mem, k, Top(f), |Top(f)|, Fresh(contentType));
    }
  }

  /* ---- The part's opening ---- */

  lemma BeginOn(mem: string, k: nat, stage: Stage, b: string, it: nat)
    requires stage.Stage? && stage.it + 4 <= k <= |mem| && mem[stage.it..stage.it + 4] == "\r\n\r\n"
    requires "content-type" in stage.s.headers && BoundaryOf(stage.s.headers["content-type"]) == Some(b)
    requires SkipWhile(IsDash, mem, stage.it + 4, k) == it
    ensures MediaBegin(stage, mem, k) ==
      BoundaryHeader(stage.s.(phase := InMediaType, media := stage.s.media.(boundary := b, boundaryLength := |b|)),
                     mem, k, it, stage.ec)
  {
    hide BoundaryHeader, BoundaryOf, SkipWhile;
  }

  // The dashes are skipped, as far as they were received.
  lemma DashesSkipped(f: Form, mem: string, k: nat)
    requires IsBoundary(f.b) && AreDashes(f.d) && |Top(f)| <= k && Agrees(mem, Printed(f, ""), k)
    ensures SkipWhile(IsDash, mem, |Top(f)|, k) == if k < |Dashed(f)| then k else |Dashed(f)|
  {
    hide Top, Printed, PrintFields;
    PrintedParts(f, "");
    var text, end := Printed(f, ""), |Dashed(f)|;
    assert forall i :: |Top(f)| <= i < end ==> text[i] == f.d[i - |Top(f)|];
    assert text[end] == f.b[0];
    SkipIs(IsDash, mem, |Top(f)|, k, if k < end then k else end);
  }

  // Behind the dashes stands the boundary's line.
  lemma BoundaryStands(f: Form, mem: string, k: nat)
    requires Agrees(mem, Printed(f, ""), k) && |Dashed(f)| + |f.b| <= k
    ensures Occurs(mem, f.b, |Dashed(f)|)
    ensures |Dashed(f)| + |f.b| + 2 <= k ==> LineEnds(mem, k, |Dashed(f)| + |f.b|)
    ensures forall i :: |Dashed(f)| <= i < |Dashed(f)| + |f.b| ==> mem[i] == f.b[i - |Dashed(f)|]
  {
    hide Dashed, Printed, PrintFields;
    PrintedParts(f, "");
    var a, text := Dashed(f), Printed(f, "");
    var tail := PrintFields(f.part, 0, CRLF + "");
    TextAt(a, f.b, CRLF + tail, text);
    AgreesWith(mem, text, k, |a|, |a| + |f.b|);
    Shift(a, f.b, CRLF + tail, text);
    CrlfAt(a + f.b, tail, text);
  }

  lemma OpeningOn(f: Form, mem: string, k: nat, media: Media)
    requires IsBoundary(f.b) && Agrees(mem, Printed(f, ""), |Dashed(f)| + |f.b| + 2)
    requires |Dashed(f)| + |f.b| + 2 <= k <= |mem| && media.boundary == f.b && media.boundaryLength == |f.b|
    ensures OpeningLine(mem, k, |Dashed(f)|, media) == Found(true, |Dashed(f)| + |f.b|)
  {
    hide FindBoundary, BoundaryLine, Dashed, Printed, Occurs;
    var q, b := |Dashed(f)|, f.b;
    BoundaryStands(f, mem, q + |b| + 2);
    FirstBoundary(mem, k, q, b, q);
    assert |b| >= 2 ==> mem[q + |b| - 2] == b[|b| - 2] && mem[q + |b| - 1] == b[|b| - 1];
    OpeningEnd(mem, k, q, q + |b|);
    assert mem[q..q + |b|] == b;
  }

  // Wherever the cut: an opening line that is found is the boundary's own, behind the dashes.
  lemma OpeningIsOwn(f: Form, mem: string, k: nat, it: nat, media: Media)
    requires IsBoundary(f.b) && Agrees(mem, Printed(f, ""), k) && media.boundary == f.b && media.boundaryLength == |f.b|
    requires it == if k < |Dashed(f)| then k else |Dashed(f)|
    requires OpeningLine(mem, k, it, media).Found? && OpeningLine(mem, k, it, media).found
    ensures it == |Dashed(f)| && OpeningLine(mem, k, it, media).it == |Dashed(f)| + |f.b| <= k
  {
    hide FindBoundary, BoundaryLine, Dashed, Printed, Occurs;
    var e := OpeningLine(mem, k, it, media).it;
    assert e <= k && e >= it + |f.b|;
    BoundaryStands(f, mem, k);
    FirstBoundary(mem, k, it, f.b, it);
  }

  // The part's fields, from behind the boundary's line.
  lemma PartBlock(f: Form, rest: string)
    requires IsForm(f)
    ensures |Dashed(f)| + |f.b| + 4 <= |Printed(f, rest)| == DataStart(f) + |rest| && 4 <= DataStart(f)
    ensures HeaderBlock(Printed(f, rest), |Printed(f, rest)|, |Dashed(f)| + |f.b| + 2, map[], None) ==
      Block(FieldMap(f.part, |f.part|), DataStart(f) - 4, None)
  {
    hide Dashed, Printed, HeaderBlock, PrintFields, FieldMap, AreFields, IsMethod, IsTarget, ContentTypeOf,
      BoundaryOf;
    PrintedParts(f, rest);
    PartFieldsRead(Dashed(f), f.b, f.part, rest, Printed(f, rest));
    PrintedParts(f, "");
    PartFieldsRead(Dashed(f), f.b, f.part, "", Printed(f, ""));
  }

  // Cut before the part's data, the part's headers are not kept, or the cursor is past the end.
  lemma HeadersCut(f: Form, mem: string, k: nat, s: State)
    requires IsForm(f) && k < DataStart(f) && Agrees(mem, Printed(f, ""), k)
    ensures var r := PartHeaders(s, mem, k, |Dashed(f)| + |f.b| + 2, None);
      r.Stage? ==> r.it > k || r.s.media == s.media
  {
    hide HeaderBlock, Printed, Dashed, IsForm;
    PartBlock(f, "");
    var it, text := |Dashed(f)| + |f.b| + 2, Printed(f, "");
    var block := HeaderBlock(mem, k, it, map[], None);
    if block.Block? && block.it + 4 <= k { BlockLocal(mem, k, text, |text|, it, map[], None); }
  }

  lemma BoundaryCut(f: Form, mem: string, k: nat, it: nat, s: State)
    requires IsForm(f) && k < DataStart(f) && Agrees(mem, Printed(f, ""), k)
    requires it == (if k < |Dashed(f)| then k else |Dashed(f)|)
    requires s.media.boundary == f.b && s.media.boundaryLength == |f.b|
    ensures var r := BoundaryHeader(s, mem, k, it, None);
      r.Stage? ==> r.it > k || r.s.media == s.media
  {
    hide OpeningLine, PartHeaders, Printed, Dashed, IsForm, IsAnnounced, IsBoundary, DataStart, AreDashes, FieldMap,
      ContentTypeOf, BoundaryOf;
    FormParts(f);
    var line := OpeningLine(mem, k, it, s.media);
    if line.Found? && line.found {
      OpeningIsOwn(f, mem, k, it, s.media);
      HeadersCut(f, mem, k, s);
    }
  }

  /* ---- Cuts before the part's data ---- */

  // No upload with a content type of its own, nor a parser that could still make one.
  predicate Headless(s: State) {
    && s.phase != NotStarted && (s.phase == ContentTypeDone ==> s.contentType == UnknownType)
    && "content-type" !in s.media.uploadHeaders && AreHeadless(s.media.uploads)
  }

  predicate AreHeadless(uploads: seq<Upload>) { forall u :: u in uploads ==> "content-type" !in u.headers }

  predicate HeadlessCall(r: Call) {
    r.Call? ==> Headless(r.s) && (r.request.Some? ==> AreHeadless(r.request.value.uploads))
  }

  lemma MoreHeadless(stage: Stage, mem: string, last: nat)
    requires last <= |mem| && stage.Stage? && Headless(stage.s) && stage.s.phase != ContentTypeDone
    ensures var r := MediaMore(stage, mem, last);
      r.Stage? ==> Headless(r.s) && r.s.phase != ContentTypeDone
  {
    hide Consume, ContentLength, AsSize;
  }

  lemma MediaHeadless(stage: Stage, mem: string, last: nat)
    requires last <= |mem| && (stage.Stage? ==> Headless(stage.s))
    ensures HeadlessCall(AfterMedia(stage, mem, last))
  {
    hide MediaMore;
    if stage.Stage? && stage.s.phase == MediaNeedMore { MoreHeadless(stage, mem, last); }
  }

  lemma HeadlessStays(s: State, mem: string, last: nat)
    requires last <= |mem| && Headless(s)
    ensures HeadlessCall(ParseCall(s, mem, last))
  {
    hide MediaMore, MediaFirst, AfterMedia, ContentLength;
    MediaHeadless(Stage(s, 0, None), mem, last);
  }

  lemma {:induction false} HeadlessRun(s: State, buffers: seq<Buffer>)
    requires AreBuffers(buffers) && Headless(s)
    ensures var r := Calls(s, buffers);
      r.Run? ==> Headless(r.s) && forall q :: q in r.requests ==> AreHeadless(q.uploads)
  {
    hide ParseCall, Headless, AreHeadless;
    if buffers != [] {
      HeadlessRun(s, buffers[..|buffers| - 1]);
      var before, b := Calls(s, buffers[..|buffers| - 1]), buffers[|buffers| - 1];
      if before.Run? { HeadlessStays(before.s, b.mem, b.last); }
    }
  }

  // What opening the media leaves: nothing of a part, or a cursor past the end.
  predicate Unopened(stage: Stage, last: nat) {
    stage.Stage? ==>
      && stage.s.phase !in {NotStarted, ContentTypeDone}
      && ((stage.it > last && "content-length" in stage.s.headers) ||
          (stage.s.media.uploadHeaders == map[] && stage.s.media.uploads == []))
  }

  // Too short behind the fields, the media is not opened.
  lemma BeginShort(stage: Stage, mem: string, last: nat)
    requires last <= |mem| && stage.Stage? && stage.it + 4 > last
    requires stage.s.media.uploadHeaders == map[] && stage.s.media.uploads == []
    ensures Unopened(MediaBegin(stage, mem, last), last)
  {
    hide BoundaryOf, BoundaryHeader;
  }

  lemma BeginCut(f: Form, mem: string, k: nat, contentType: ContentType)
    requires IsForm(f) && |Top(f)| <= k < DataStart(f) && Agrees(mem, Printed(f, ""), k)
    ensures Unopened(MediaBegin(Ready(f, contentType), mem, k), k)
  {
    hide MediaBegin, BoundaryHeader, BoundaryOf, ContentTypeOf, FieldMap, IsForm, IsAnnounced, IsBoundary, AreDashes,
      Top, Dashed, Printed, AreFields, SkipWhile;
    FormParts(f);
    var stage := Ready(f, contentType);
    TopReads(f, contentType);
    PrintedParts(f, "");
    TopInText(f, mem, k);
    DashesSkipped(f, mem, k);
    var it := if k < |Dashed(f)| then k else |Dashed(f)|;
    BeginOn(mem, k, stage, f.b, it);
    var s := stage.s.(phase := InMediaType, media := stage.s.media.(boundary := f.b, boundaryLength := |f.b|));
    BoundaryCut(f, mem, k, it, s);
    PhaseMoves(s, mem, k, it);
    MediaKeepsHeaders(mem, k);
  }

  lemma PhaseMoves(s: State, mem: string, k: nat, it: nat)
    requires it <= k <= |mem| && s.phase == InMediaType && s.media.boundaryLength <= |s.media.boundary|
    ensures var r := BoundaryHeader(s, mem, k, it, None); r.Stage? ==> r.s.phase in {InMediaType, InHeaders, HeadersDone}
  {
    hide OpeningLine, HeaderBlock;
  }

  // The blank line as received.
  lemma TopInText(f: Form, mem: string, k: nat)
    requires |Top(f)| >= 4 && Top(f)[|Top(f)| - 4..] == CRLF + CRLF && |Top(f)| <= k && Agrees(mem, Printed(f, ""), k)
    ensures mem[|Top(f)| - 4..|Top(f)|] == "\r\n\r\n" && Agrees(mem, Top(f), |Top(f)|)
  {
    hide Top, Printed, PrintPart;
    PrintedParts(f, "");
    AgreesFront(mem, Top(f), PrintPart(f.d, f.b, f.part, ""), k);
    AgreesWith(mem, Top(f), |Top(f)|, |Top(f)| - 4, |Top(f)|);
  }

  lemma FirstUnopened(stage: Stage, mem: string, k: nat)
    requires k <= |mem| && stage.Stage? && Unopened(MediaBegin(stage, mem, k), k)
    ensures var r := MediaFirst(stage, mem, k); r.Stage? ==> Headless(r.s)
  {
    hide MediaBegin, Consume, Atoi, AsSize;
    var begun := MediaBegin(stage, mem, k);
    if begun.Stage? && begun.it <= k { MoreHeadless(begun, mem, k); }
  }

  // The rest of a first call that has a complete header block but no part.
  lemma UnopenedCall(stage: Stage, mem: string, k: nat)
    requires stage.Stage? && k <= |mem| && stage.s.phase == ContentTypeDone
    requires stage.s.media.uploadHeaders == map[] && stage.s.media.uploads == []
    requires IsMediaType(stage.s.contentType) ==> Unopened(MediaBegin(stage, mem, k), k)
    ensures HeadlessCall(AfterStartLine(stage, mem, k))
  {
    hide MediaBegin, MediaMore, AfterMedia, Atoi;
    if IsMediaType(stage.s.contentType) {
      FirstUnopened(stage, mem, k);
      MediaHeadless(MediaFirst(stage, mem, k), mem, k);
    } else if stage.s.contentType == UnknownType {
      MediaHeadless(stage, mem, k);
    }
  }

  lemma StartKeepsMedia(mem: string, last: nat, contentType: ContentType)
    requires last <= |mem|
    ensures var r := StartLine(Fresh(contentType), mem, last);
      r.Stage? ==> r.s.media == Fresh(contentType).media && r.s.phase in {InMethod, InTarget, InProtocol, ProtocolDone, ContentTypeDone}
  {
    hide MethodAt, TargetAt, ProtocolAt, HeaderBlock, ContentTypeOf;
  }

  // The first call on a request cut before the part's data.
  lemma CutCall(f: Form, k: nat, mem: string, contentType: ContentType)
    requires IsForm(f) && 0 < k < DataStart(f) && Agrees(mem, Printed(f, ""), k)
    ensures HeadlessCall(ParseCall(Fresh(contentType), mem, k))
  {
    hide StartLine, AfterStartLine, MediaBegin, IsForm, IsAnnounced, Top, Printed, HeadlessCall, Unopened, DataStart;
    FormParts(f);
    var stage := StartLine(Fresh(contentType), mem, k);
    PrintedParts(f, "");
    AgreesFront(mem, Top(f), PrintPart(f.d, f.b, f.part, ""), k);
    StartKeepsMedia(mem, k, contentType);
    if stage.StageFault? {
      FaultStays(mem, k);
      FaultIsHeadless();
    } else if stage.s.phase != ContentTypeDone {
      EarlyCall(stage, mem, k);
    } else {
      if k < |Top(f)| {
        StartCut(f, mem, k, contentType);
        BeginShort(stage, mem, k);
      } else {
        StartReads(f, mem, k, contentType);
        BeginCut(f, mem, k, contentType);
      }
      UnopenedCall(stage, mem, k);
    }
  }

  lemma FaultIsHeadless()
    ensures HeadlessCall(CallFault)
  {
  }

  lemma EarlyCall(stage: Stage, mem: string, k: nat)
    requires stage.Stage? && k <= |mem| && stage.s.phase in {InMethod, InTarget, InProtocol, ProtocolDone}
    requires stage.s.media.uploadHeaders == map[] && stage.s.media.uploads == []
    ensures HeadlessCall(AfterStartLine(stage, mem, k))
  {
    hide MediaMore, MediaFirst, Atoi;
  }

  // Wherever a multipart request is cut before its part's data, whatever lies behind the received bytes and
  // whatever is received next: no upload ever comes out that has a content type, as the part's own has.
  lemma CutBeforeDataIsLost(f: Form, k: nat, mem: string, contentType: ContentType, later: seq<Buffer>)
    requires IsForm(f) && 0 < k < DataStart(f) && Agrees(mem, Printed(f, ""), k) && AreBuffers(later)
    ensures AreBuffers([Buffer(mem, k)] + later)
    ensures var r := Calls(Fresh(contentType), [Buffer(mem, k)] + later);
      r.Run? ==> forall q, u :: q in r.requests && u in q.uploads ==>
        "content-type" !in u.headers && u.headers != FieldMap(f.part, |f.part|)
  {
    hide ParseCall, Headless, Printed, Calls, FieldMap, IsForm, IsAnnounced, DataStart;
    CutCall(f, k, mem, contentType);
    var r := ParseCall(Fresh(contentType), mem, k);
    CallsFrom(Fresh(contentType), Buffer(mem, k), later);
    if r.Call? { HeadlessRun(r.s, later); }
    PartHasType(f);
  }

  lemma PartHasType(f: Form)
    requires IsForm(f)
    ensures "content-type" in FieldMap(f.part, |f.part|)
  {
    FormParts(f);
  }

  /* ---- A first buffer that reaches the part's data ---- */

  // The parser that stands at the part's data and waits for it.
  function Waiting(f: Form, contentType: ContentType): State {
    Opened(Started(f.m, f.t, f.fields, contentType), f.b, f.part).(phase := MediaNeedMore)
  }

  // What a buffer holds behind a place.
  function Behind(b: Buffer, k: nat): Buffer
    requires k <= b.last <= |b.mem|
  {
    Buffer(b.mem[k..], b.last - k)
  }

  lemma HeadersOn(f: Form, mem: string, k: nat, s: State)
    requires IsForm(f) && DataStart(f) <= k <= |mem| && Agrees(mem, Printed(f, ""), DataStart(f))
    requires s.media.boundary == f.b && s.media.boundaryLength == |f.b|
    ensures |Dashed(f)| <= k
    ensures BoundaryHeader(s, mem, k, |Dashed(f)|, None) == Stage(Opened(s, f.b, f.part), DataStart(f), None)
  {
    hide OpeningLine, HeaderBlock, BoundaryHeader, Printed, Dashed, IsForm, IsAnnounced, FieldMap, IsBoundary,
      DataStart, AreDashes, ContentTypeOf, BoundaryOf;
    FormParts(f);
    PartHasType(f);
    PartBlock(f, "");
    var it, text := |Dashed(f)| + |f.b| + 2, Printed(f, "");
    OpeningOn(f, mem, k, s.media);
    BlockLocal(text, |text|, mem, k, it, map[], None);
    HeaderOn(mem, k, s, |Dashed(f)|, it - 2, FieldMap(f.part, |f.part|), |text| - 4);
  }

  lemma BeginReads(f: Form, mem: string, k: nat, contentType: ContentType)
    requires IsForm(f) && DataStart(f) <= k <= |mem| && Agrees(mem, Printed(f, ""), DataStart(f))
    ensures |Top(f)| <= k && Agrees(mem, Top(f), |Top(f)|)
    ensures MediaBegin(Ready(f, contentType), mem, k) ==
      Stage(Waiting(f, contentType).(phase := HeadersDone), DataStart(f), None)
  {
    hide MediaBegin, BoundaryHeader, BoundaryOf, ContentTypeOf, FieldMap, IsForm, IsAnnounced, IsBoundary, AreDashes,
      Top, Dashed, Printed, AreFields, SkipWhile;
    FormParts(f);
    var stage, n := Ready(f, contentType), DataStart(f);
    TopReads(f, contentType);
    PrintedParts(f, "");
    PartBlock(f, "");
    TopInText(f, mem, n);
    DashesSkipped(f, mem, n);
    SkipLocal(IsDash, mem, n, mem, k, |Top(f)|);
    BeginOn(mem, k, stage, f.b, |Dashed(f)|);
    var s := stage.s.(phase := InMediaType, media := stage.s.media.(boundary := f.b, boundaryLength := |f.b|));
    HeadersOn(f, mem, k, s);
  }

  /* ---- Reading on from a place is reading what lies behind it ---- */

  lemma {:induction false} CountShift(mem: string, k: nat, it: nat, b: string, c: nat, count: nat)
    requires k <= |mem| && c <= |b| && k + it + |b| <= |mem|
    ensures MatchCount(mem, k + it, b, |b|, c, count) == MatchCount(mem[k..], it, b, |b|, c, count)
    decreases |b| - c
  {
    if c < |b| {
      assert mem[k..][it + c] == mem[k + it + c] && mem[k..][it] == mem[k + it];
      CountShift(mem, k, it, b, c + 1, 0);
      CountShift(mem, k, it, b, c + 1, count);
      CountShift(mem, k, it, b, c + 1, count + 1);
    }
  }

  function Shifted(r: Found, k: nat): Found {
    if r.FoundFault? then FoundFault else Found(r.found, r.it + k)
  }

  lemma {:induction false} ScanShift(mem: string, last: nat, k: nat, it: nat, b: string)
    requires k <= last <= |mem|
    ensures FindBoundary(mem, last, k + it, b, |b|) == Shifted(FindBoundary(mem[k..], last - k, it, b, |b|), k)
    decreases last - it
  {
    hide MatchCount;
    if k + it < last && k + it + |b| <= |mem| {
      CountShift(mem, k, it, b, 0, 0);
      ScanShift(mem, last, k, it + 1, b);
    }
  }

  lemma {:induction false} EndShift(mem: string, last: nat, k: nat, it: nat)
    requires k <= last <= |mem| && k + it <= last
    ensures var (end, complete) := DelimiterEnd(mem[k..], last - k, it);
      DelimiterEnd(mem, last, k + it) == (end + k, complete)
    decreases last - it
  {
    if k + it < last {
      assert mem[k..][it] == mem[k + it];
      if k + it + 2 <= last { assert mem[k..][it + 1] == mem[k + it + 1]; }
      EndShift(mem, last, k, it + 1);
    }
  }

  lemma ConsumeShift(mem: string, last: nat, k: nat, media: Media)
    requires k <= last <= |mem| && media.boundaryLength == |media.boundary|
    ensures var r := Consume(mem[k..], last - k, 0, media);
      Consume(mem, last, k, media) == if r.ConsumedFault? then ConsumedFault else Consumed(r.end + k, r.complete)
  {
    hide FindBoundary, DelimiterEnd;
    ScanShift(mem, last, k, 0, media.boundary);
    var found := FindBoundary(mem[k..], last - k, 0, media.boundary, media.boundaryLength);
    if found.Found? && found.found { EndShift(mem, last, k, found.it); }
  }

  lemma SliceShift(mem: string, k: nat, end: nat)
    requires k <= |mem| && k + end <= |mem|
    ensures mem[k..k + end] == mem[k..][0..end]
  {
  }

  // The first call's share of the part is what a call on the buffer behind the part's opening would take.
  lemma MoreShift(s: State, mem: string, last: nat, k: nat, phase: Phase)
    requires k <= last <= |mem| && s.media.boundaryLength == |s.media.boundary| && "content-length" in s.headers
    ensures var r := MediaMore(Stage(s.(phase := MediaNeedMore), 0, None), mem[k..], last - k);
      MediaMore(Stage(s.(phase := phase), k, None), mem, last) ==
        if r.StageFault? then StageFault else Stage(r.s, r.it + k, None)
  {
    hide Consume, AsSize, Atoi;
    ConsumeShift(mem, last, k, s.media);
    var c := Consume(mem[k..], last - k, 0, s.media);
    if c.Consumed? { SliceShift(mem, k, c.end); }
  }

  // Nothing is left of a buffer after which more is needed.
  lemma MoreTwice(stage: Stage, mem: string, last: nat)
    requires last <= |mem| && stage.Stage? && stage.it <= last && "content-length" in stage.s.headers
    ensures var r := MediaMore(stage, mem, last);
      r.Stage? && r.s.phase == MediaNeedMore ==> r.it == last && MediaMore(r, mem, last) == r
  {
    hide FindBoundary, DelimiterEnd, AsSize, Atoi;
    if stage.s.media.boundaryLength <= |stage.s.media.boundary| {
      var found := FindBoundary(mem, last, stage.it, stage.s.media.boundary, stage.s.media.boundaryLength);
      if found.Found? && found.it <= last { EndIsLineEnd(mem, last, found.it); }
    }
  }

  lemma CallsAgree(mem: string, last: nat, k: nat, begun: Stage, stage: Stage, s: State)
    requires k <= last <= |mem| && stage.Stage? && begun == Stage(s.(phase := HeadersDone), k, None)
    requires stage.s.phase == ContentTypeDone && IsMediaType(stage.s.contentType) && stage.it + 4 < last
    requires MediaBegin(stage, mem, last) == begun
    requires s.phase == MediaNeedMore && s.media.boundaryLength == |s.media.boundary| && "content-length" in s.headers
    ensures AfterStartLine(stage, mem, last) == ParseCall(s, mem[k..], last - k)
  {
    hide MediaBegin, MediaMore, Atoi, ToMethod;
    MoreShift(s, mem, last, k, HeadersDone);
    MoreTwice(begun, mem, last);
    MoreKeepsError(Stage(s, 0, None), mem[k..], last - k);
    assert s.(phase := MediaNeedMore) == s;
  }

  // A first buffer that reaches the part's data does to the parser what the buffer behind the part's opening
  // does to a parser that waits for that data.
  lemma FirstBufferIsChunk(f: Form, first: Buffer, contentType: ContentType)
    requires IsForm(f) && DataStart(f) <= first.last <= |first.mem| && Agrees(first.mem, Printed(f, ""), DataStart(f))
    ensures Collecting(Waiting(f, contentType)) && Waiting(f, contentType).media.buffer == ""
    ensures var chunk := Behind(first, DataStart(f));
      ParseCall(Fresh(contentType), first.mem, first.last) == ParseCall(Waiting(f, contentType), chunk.mem, chunk.last)
  {
    hide StartLine, AfterStartLine, MediaBegin, IsForm, IsAnnounced, Printed, FieldMap, ContentTypeOf, Top,
      BoundaryOf, PrintPart, Dashed;
    FormParts(f);
    TopReads(f, contentType);
    PrintedParts(f, "");
    PartIsNotEmpty(f.d, f.b, f.part, "");
    BeginReads(f, first.mem, first.last, contentType);
    StartReads(f, first.mem, first.last, contentType);
    CallsAgree(first.mem, first.last, DataStart(f), MediaBegin(Ready(f, contentType), first.mem, first.last),
               Ready(f, contentType), Waiting(f, contentType));
  }

  lemma FirstRunIsChunkRun(f: Form, first: Buffer, contentType: ContentType, later: seq<Buffer>)
    requires IsForm(f) && DataStart(f) <= first.last <= |first.mem| && Agrees(first.mem, Printed(f, ""), DataStart(f))
    requires AreBuffers(later)
    ensures var chunk := Behind(first, DataStart(f));
      AreBuffers([first] + later) && AreBuffers([chunk] + later) &&
      Calls(Fresh(contentType), [first] + later) == Calls(Waiting(f, contentType), [chunk] + later)
  {
    hide ParseCall, Calls, Waiting, IsForm, IsAnnounced, DataStart, Printed;
    var chunk := Behind(first, DataStart(f));
    FirstBufferIsChunk(f, first, contentType);
    CallsFrom(Fresh(contentType), first, later);
    CallsFrom(Waiting(f, contentType), chunk, later);
  }

  /* ---- A cut that goes unnoticed ---- */

  // Cut right behind the opening dashes, the request is answered without an error, but with a wrong upload: no
  // headers, and for bytes the boundary's own line.
  lemma CutBehindDashes(f: Form, tail: string, contentType: ContentType)
    requires IsForm(f) && f.d != []
    ensures var second := f.b + (CRLF + tail);
      var r1 := ParseCall(Fresh(contentType), Dashed(f), |Dashed(f)|);
      && r1.Call? && r1.request == None && r1.ec == None
      && var r2 := ParseCall(r1.s, second, |second|);
         r2.Call? && r2.ec == None && r2.request.Some? && r2.request.value.uploads == [Upload(map[], f.b + CRLF)]
  {
    hide ParseCall, IsForm, IsAnnounced, IsBoundary, AreDashes, Dashed, FieldMap, BoundaryOf, Consume, Atoi, AsSize,
      ToMethod;
    var s := NotOpened(f, contentType);
    FormParts(f);
    DashedCall(f, contentType);
    var second := Buffer(f.b + (CRLF + tail), |f.b + (CRLF + tail)|);
    LineTaken(f.b, tail, second.mem, s.media);
    CollectOne(s, second);
    assert "" + (f.b + CRLF) == f.b + CRLF;
  }

  // The parser has the boundary, and nothing of the part.
  function NotOpened(f: Form, contentType: ContentType): State {
    var s := Started(f.m, f.t, f.fields, contentType);
    s.(phase := MediaNeedMore, media := s.media.(boundary := f.b, boundaryLength := |f.b|))
  }

  lemma DashedCall(f: Form, contentType: ContentType)
    requires IsForm(f) && f.d != []
    ensures ParseCall(Fresh(contentType), Dashed(f), |Dashed(f)|) == Call(NotOpened(f, contentType), None, None)
  {
    hide StartLine, MediaBegin, BoundaryHeader, IsForm, IsAnnounced, IsBoundary, AreDashes, Top, Printed, FieldMap,
      BoundaryOf, ContentTypeOf, SkipWhile, Atoi;
    var mem, k := Dashed(f), |Dashed(f)|;
    FormParts(f);
    TopReads(f, contentType);
    PrintedParts(f, "");
    assert Agrees(mem, Printed(f, ""), k) && Agrees(mem, Top(f), |Top(f)|);
    TopInText(f, mem, k);
    StartReads(f, mem, k, contentType);
    DashesSkipped(f, mem, k);
    BeginOn(mem, k, Ready(f, contentType), f.b, k);
    NothingLeft(NotOpened(f, contentType).(phase := InMediaType), mem);
  }

  lemma NothingLeft(s: State, mem: string)
    requires s.media.boundary != [] && s.media.boundaryLength == |s.media.boundary|
    ensures BoundaryHeader(s, mem, |mem|, |mem|, None) == Stage(s, |mem|, None)
  {
  }

  lemma LineTaken(b: string, tail: string, mem: string, media: Media)
    requires IsBoundary(b) && mem == b + (CRLF + tail) && media.boundary == b && media.boundaryLength == |b|
    ensures Consume(mem, |mem|, 0, media) == Consumed(|b| + 2, true) && mem[..|b| + 2] == b + CRLF
  {
    LineFront(b, tail, mem);
    hide FindBoundary, DelimiterEnd, Occurs, IsBoundary;
    CrlfAt(b, tail, mem);
    FrontIs(b, CRLF + tail, mem);
    BoundaryStarts(b);
    FirstBoundary(mem, |mem|, 0, b, 0);
    NoReturn(b);
    FirstLineEnd(mem, |mem|, 0, |b|);
  }

  lemma BoundaryStarts(b: string)
    requires IsBoundary(b)
    ensures b != [] && b[0] != '-'
  {
  }

  lemma FrontIs(b: string, more: string, mem: string)
    requires mem == b + more
    ensures Occurs(mem, b, 0) && forall i :: 0 <= i < |b| ==> mem[i] == b[i]
  {
  }

  lemma LineFront(b: string, tail: string, mem: string)
    requires mem == b + (CRLF + tail)
    ensures |b| + 2 <= |mem| && mem[..|b| + 2] == b + CRLF
  {
    assert mem == (b + CRLF) + tail;
  }

  lemma NoReturn(b: string)
    requires IsBoundary(b)
    ensures forall i :: 0 <= i < |b| ==> b[i] != '\r'
  {
  }
}
