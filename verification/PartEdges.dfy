/**
 Media the parser cannot make a proper part of: a boundary line that is none, a part without a content type, a
 form that is closed at once, a request that names no boundary or announces no length.
 */
module PartEdges {
  import opened Text
  import opened CharClasses
  import opened HttpParser
  import opened ParserProofs
  import opened RequestHeaders
  import opened RequestProofs
  import opened Multipart
  import opened MultipartCuts

  /* ---- The boundary's own line ---- */

  // A line ends at k in the memory, or the closing delimiter's two dashes and line end stand there.
  predicate EndAt(mem: string, k: nat) { k + 2 <= |mem| && mem[k] == '\r' && mem[k + 1] == '\n' }

  predicate CloseAt(mem: string, k: nat) {
    k + 4 <= |mem| && mem[k] == '-' && mem[k + 1] == '-' && mem[k + 2] == '\r' && mem[k + 3] == '\n'
  }

  // The search for the line's end stops at the first of these before the end of the buffer, or there; it leaves
  // the memory only near its end.
  lemma {:induction false} BoundaryLineIs(mem: string, last: nat, it: nat)
    requires it <= last <= |mem|
    ensures var r := BoundaryLine(mem, last, it);
      && (r.LineFault? ==> last + 3 > |mem|)
      && (r.LineStop? ==> it <= r.it <= last && forall k: nat :: it <= k < r.it ==> !EndAt(mem, k) && !CloseAt(mem, k))
      && (r.LineStop? && r.it < last ==> if r.closing then CloseAt(mem, r.it) else EndAt(mem, r.it))
      && (r.LineStop? && r.it == last ==> !r.closing)
    decreases last - it
  {
    if it < last && !EndAt(mem, it) && !CloseAt(mem, it) {
      BoundaryLineIs(mem, last, it + 1);
    }
  }

  predicate IsPrintable(b: string) { forall k :: 0 <= k < |b| ==> IsPrint(b[k]) }

  // A boundary is the whole of its line: the line ends right behind it, or the buffer does; and no closing
  // delimiter's dashes begin inside it, as in a boundary that itself ends in two dashes.
  ghost predicate OwnLine(mem: string, last: nat, b: string, i: nat) {
    && Occurs(mem, b, i) && (i + |b| == last || (i + |b| < last && EndAt(mem, i + |b|)))
    && forall k: nat :: i <= k < i + |b| ==> !CloseAt(mem, k)
  }

  // Exactly when an opening line is taken for the boundary's.
  lemma OpeningIff(mem: string, last: nat, it: nat, media: Media, i: nat)
    requires it <= i < last <= |mem| && media.boundaryLength == |media.boundary| && IsPrintable(media.boundary)
    requires media.boundary != [] && media.boundary[0] != '-'
    requires Occurs(mem, media.boundary, i) && forall j: nat :: it <= j < i ==> !Occurs(mem, media.boundary, j)
    ensures var r := OpeningLine(mem, last, it, media);
      && (r.FoundFault? ==> last + 3 > |mem|)
      && (r.Found? ==> (r.found <==> OwnLine(mem, last, media.boundary, i)))
      && (r.Found? && r.found ==> r.it == i + |media.boundary|)
  {
    hide FindBoundary, BoundaryLine;
    var b := media.boundary;
    FirstBoundary(mem, last, it, b, i);
    BoundaryLineIs(mem, last, i);
    var line := BoundaryLine(mem, last, i);
    forall k | 0 <= k < |b| ensures mem[i + k] == b[k] { assert mem[i..i + |b|][k] == mem[i + k]; }
    if line.LineStop? { StopInBoundary(mem, last, b, i, line.it, line.closing); }
  }

  lemma StopInBoundary(mem: string, last: nat, b: string, i: nat, e: nat, closing: bool)
    requires b != [] && IsPrintable(b) && i + |b| <= |mem| && i <= e <= last <= |mem|
    requires forall k :: 0 <= k < |b| ==> mem[i + k] == b[k]
    requires forall k: nat :: i <= k < e ==> !EndAt(mem, k) && !CloseAt(mem, k)
    requires e < last ==> if closing then CloseAt(mem, e) else EndAt(mem, e)
    requires e == last ==> !closing
    ensures !closing && mem[i..e] == b <==> OwnLine(mem, last, b, i)
    ensures mem[i..e] == b ==> e == i + |b|
  {
    var n := i + |b|;
    assert mem[i..n] == b;
    if e < n { assert mem[i + (e - i)] == b[e - i]; }
  }

  /* ---- A part without a content type ---- */

  lemma HeaderOff(mem: string, last: nat, s: State, it: nat, end: nat, headers: Headers, next: nat)
    requires it <= last <= |mem| && s.media.boundaryLength <= |s.media.boundary| && end + 4 <= last
    requires OpeningLine(mem, last, it, s.media) == Found(true, end) && "content-type" !in headers
    requires HeaderBlock(mem, last, end + 2, map[], None) == Block(headers, next, None)
    ensures BoundaryHeader(s, mem, last, it, None) == Stage(s.(phase := HeadersDone), next, None)
  {
    hide OpeningLine, HeaderBlock;
  }

  // The parser behind the opening of a part that has no content type: it keeps none of the part's headers, and
  // stands before the blank line.
  function Headerless(s: State, b: string): State {
    s.(phase := HeadersDone, media := s.media.(boundary := b, boundaryLength := |b|))
  }

  lemma {:induction false} HeaderlessBegins(a: string, b: string, part: seq<Field>, rest: string, mem: string, s: State)
    requires IsBoundary(b) && part != [] && AreFields(part) && s.media.boundary == b && s.media.boundaryLength == |b|
    requires mem == a + (b + (CRLF + PrintFields(part, 0, CRLF + rest))) && "content-type" !in FieldMap(part, |part|)
    ensures |rest| + 4 <= |mem|
    ensures BoundaryHeader(s, mem, |mem|, |a|, None) == Stage(s.(phase := HeadersDone), |mem| - |rest| - 4, None)
  {
    hide OpeningLine, HeaderBlock, BoundaryHeader, FieldMap, IsBoundary, AreFields, PrintFields, IsField;
    OpeningReads(a, b, PrintFields(part, 0, CRLF + rest), mem, s.media);
    PartFieldsRead(a, b, part, rest, mem);
    HeaderOff(mem, |mem|, s, |a|, |a| + |b|, FieldMap(part, |part|), |mem| - |rest| - 4);
  }

  lemma HeaderlessPart(p: string, d: string, b: string, part: seq<Field>, rest: string, mem: string, stage: Stage)
    requires IsBoundary(b) && AreDashes(d) && part != [] && AreFields(part)
    requires mem == p + ((CRLF + CRLF) + PrintPart(d, b, part, rest)) && stage.Stage? && stage.it == |p|
    requires "content-type" in stage.s.headers && BoundaryOf(stage.s.headers["content-type"]) == Some(b)
    requires "content-type" !in FieldMap(part, |part|) && stage.ec == None
    ensures |rest| + 4 <= |mem| && mem[|mem| - |rest| - 4..] == CRLF + CRLF + rest
    ensures MediaBegin(stage, mem, |mem|) == Stage(Headerless(stage.s, b), |mem| - |rest| - 4, None)
  {
    hide BoundaryOf, BoundaryHeader, FieldMap, IsBoundary, AreFields, MediaBegin, PrintFields;
    var tail := CRLF + PrintFields(part, 0, CRLF + rest);
    var a := p + (CRLF + CRLF) + d;
    PartStarts(p, d, b, tail, mem);
    BeginAt(mem, stage, b, |a|);
    HeaderlessBegins(a, b, part, rest, mem,
                     stage.s.(phase := InMediaType, media := stage.s.media.(boundary := b, boundaryLength := |b|)));
    Shift(a, b, tail, mem);
    Shift(a + b, CRLF, PrintFields(part, 0, CRLF + rest), mem);
    BlockEnds(a + b + CRLF, part, rest, mem);
  }

  lemma HeaderlessReads(stage: Stage, b: string, bytes: string, epilogue: string, mem: string, it: nat)
    requires stage.Stage? && "content-length" in stage.s.headers && stage.s.media == Media([], 0, "", "", 0, map[])
    requires IsBoundary(b) && it <= |mem| && mem[it..] == bytes + (Closing(b) + epilogue)
    requires MediaBegin(stage, mem, |mem|) == Stage(Headerless(stage.s, b), it, None)
    requires forall j: nat :: j < |bytes| + 4 ==> !Occurs(bytes + (Closing(b) + epilogue), b, j)
    ensures var r := MediaFirst(stage, mem, |mem|);
      r.Stage? && r.ec == None && r.s == stage.s.(phase := MediaFinished, media := r.s.media) &&
      r.s.media.uploads == [Upload(map[], bytes + Closing(b))]
  {
    hide MediaBegin, MediaMore, Consume, BoundaryOf, Occurs, IsBoundary, Closing;
    var a, s, end := mem[..it], Headerless(stage.s, b), bytes + Closing(b);
    assert mem == a + (bytes + (Closing(b) + epilogue));
    ClosingReads(a, bytes, b, epilogue, mem, s.media);
    DataBetween(a, bytes, b, epilogue, mem);
    MoreEnds(mem, s, |a|, |a| + |end|);
    assert [] + end == end;
  }

  // A part without a content type comes out without any headers, and the blank line before its data counts as data.
  lemma PartWithoutType(f: Form, data: string, epilogue: string, bytes: string, contentType: ContentType)
    requires IsMethod(f.m) && IsTarget(f.t) && f.fields != [] && AreFields(f.fields)
    requires IsBoundary(f.b) && AreDashes(f.d) && f.part != [] && AreFields(f.part)
    requires AnnouncesMedia(f.fields, f.b) && ValueOf(f.part, TYPE).None? && bytes == CRLF + CRLF + data
    requires forall j: nat :: j < |bytes| + 4 ==> !Occurs(bytes + (Closing(f.b) + epilogue), f.b, j)
    ensures var mem := Printed(f, data + (Closing(f.b) + epilogue));
      var r := ParseCall(Fresh(contentType), mem, |mem|);
      r.Call? && r.s.phase == Finished && r.ec == None &&
      r.request == Some(Request(ToMethod(f.m), 11, f.t, FieldMap(f.fields, |f.fields|), "",
                                [Upload(map[], bytes + Closing(f.b))]))
  {
    hide StartLine, PrintRequest, AreFields, IsMethod, IsTarget, FieldMap, ContentTypeOf, ContentLength, MediaFirst,
      BoundaryOf, Occurs, IsBoundary, AreDashes, PrintPart, Closing, MediaMore, ToMethod, AnnouncesMedia, ValueOf, MediaBegin;
    MediaKeys(f.fields, f.b);
    TypeKey(f.part);
    var rest := data + (Closing(f.b) + epilogue);
    var payload := PrintPart(f.d, f.b, f.part, rest);
    var mem := PrintRequest(f.m, f.t, f.fields, payload);
    StartsRequest(f.m, f.t, f.fields, payload, contentType);
    var it := |mem| - |payload| - 4;
    var stage := Stage(Started(f.m, f.t, f.fields, contentType), it, None);
    assert StartLine(Fresh(contentType), mem, |mem|) == stage;
    assert mem == mem[..it] + ((CRLF + CRLF) + payload);
    PartIsNotEmpty(f.d, f.b, f.part, rest);
    HeaderlessPart(mem[..it], f.d, f.b, f.part, rest, mem, stage);
    assert CRLF + CRLF + rest == bytes + (Closing(f.b) + epilogue);
    HeaderlessReads(stage, f.b, bytes, epilogue, mem, |mem| - |rest| - 4);
    MediaEnds(stage, mem);
  }

  /* ---- A form that is closed at once ---- */

  // The closing delimiter's line, or the line of a boundary that itself ends in two dashes.
  predicate IsClosingLine(line: string, b: string) { line == b + "--" || (line == b && |b| >= 2 && b[|b| - 2..] == "--") }

  // The closing line where the first part's boundary should stand, as received.
  predicate ClosingStands(mem: string, last: nat, i: nat, b: string, line: string) {
    IsClosingLine(line, b) && i + |line| + 2 <= last <= |mem| && mem[i..i + |line| + 2] == line + CRLF
  }

  lemma ClosingIsNotOwn(mem: string, last: nat, i: nat, b: string, line: string)
    requires ClosingStands(mem, last, i, b, line)
    ensures Occurs(mem, b, i) && !OwnLine(mem, last, b, i)
  {
    ClosingChars(mem, last, i, b, line);
    assert mem[i..i + |b|] == b;
    if line == b {
      assert b[|b| - 2..][0] == '-' && b[|b| - 2..][1] == '-';
      assert CloseAt(mem, i + |b| - 2);
    }
  }

  lemma ClosingChars(mem: string, last: nat, i: nat, b: string, line: string)
    requires ClosingStands(mem, last, i, b, line)
    ensures |b| <= |line| && i + |line| + 2 <= last <= |mem| && forall x :: 0 <= x < |b| ==> mem[i + x] == b[x]
    ensures line != b ==> i + |b| < |mem| && mem[i + |b|] == '-'
    ensures mem[i + |line|] == '\r' && mem[i + |line| + 1] == '\n'
  {
    var stands := mem[i..i + |line| + 2];
    assert forall x :: 0 <= x < |line| ==> stands[x] == line[x];
    assert forall x :: 0 <= x < |b| ==> line[x] == b[x];
    assert forall x :: 0 <= x < |b| ==> mem[i + x] == stands[x];
    assert stands[|line|] == CRLF[0] && stands[|line| + 1] == CRLF[1];
    if line != b { assert stands[|b|] == line[|b|]; }
  }

  lemma ClosingLineIsNone(mem: string, last: nat, i: nat, line: string, s: State)
    requires ClosingStands(mem, last, i, s.media.boundary, line) && IsPrintable(s.media.boundary)
    requires s.media.boundaryLength == |s.media.boundary| && s.media.boundary != [] && s.media.boundary[0] != '-'
    ensures var r := BoundaryHeader(s, mem, last, i, None); r.Stage? ==> r.s == s
  {
    hide OpeningLine, PartHeaders, Occurs, OwnLine;
    ClosingIsNotOwn(mem, last, i, s.media.boundary, line);
    OpeningIff(mem, last, i, s.media, i);
  }

  lemma ClosingUnopened(f: Form, mem: string, k: nat, line: string, contentType: ContentType)
    requires IsAnnounced(f) && f.b != [] && f.b[0] != '-' && IsPrintable(f.b) && AreDashes(f.d)
    requires |Dashed(f)| <= k <= |mem| && Agrees(mem, Dashed(f), |Dashed(f)|) && ClosingStands(mem, k, |Dashed(f)|, f.b, line)
    ensures |Top(f)| <= k && Agrees(mem, Top(f), |Top(f)|)
    ensures Unopened(MediaBegin(Ready(f, contentType), mem, k), k)
  {
    hide MediaBegin, BoundaryHeader, BoundaryOf, ContentTypeOf, FieldMap, IsAnnounced, Top, Dashed, SkipWhile, ClosingStands,
      IsPrintable, AnnouncesMedia, ValueOf, AreFields, AreDashes;
    var stage := Ready(f, contentType);
    AnnouncedKeys(f);
    TopReads(f, contentType);
    TopStands(f, mem);
    DashesEnd(f, mem, k, line);
    BeginOn(mem, k, stage, f.b, |Dashed(f)|);
    var s := stage.s.(phase := InMediaType, media := stage.s.media.(boundary := f.b, boundaryLength := |f.b|));
    ClosingLineIsNone(mem, k, |Dashed(f)|, line, s);
  }

  lemma DashesEnd(f: Form, mem: string, k: nat, line: string)
    requires f.b != [] && f.b[0] != '-' && |Top(f)| <= |Dashed(f)| && ClosingStands(mem, k, |Dashed(f)|, f.b, line)
    requires forall x :: |Top(f)| <= x < |Dashed(f)| ==> 0 <= x < |mem| && IsDash(mem[x])
    ensures |Dashed(f)| <= k <= |mem| && SkipWhile(IsDash, mem, |Top(f)|, k) == |Dashed(f)|
  {
    hide Top, Dashed, SkipWhile, ClosingStands;
    ClosingChars(mem, k, |Dashed(f)|, f.b, line);
    assert mem[|Dashed(f)| + 0] == f.b[0];
    SkipIs(IsDash, mem, |Top(f)|, k, |Dashed(f)|);
  }

  lemma AnnouncedKeys(f: Form)
    requires IsAnnounced(f)
    ensures var m := FieldMap(f.fields, |f.fields|);
      IsMediaType(ContentTypeOf(m)) && "content-length" in m && "content-type" in m && BoundaryOf(m["content-type"]) == Some(f.b)
  {
    hide FieldMap, ContentTypeOf, BoundaryOf, AnnouncesMedia, ValueOf;
    MediaKeys(f.fields, f.b);
  }

  lemma TopStands(f: Form, mem: string)
    requires |Top(f)| >= 4 && Top(f)[|Top(f)| - 4..] == CRLF + CRLF && Agrees(mem, Dashed(f), |Dashed(f)|) && AreDashes(f.d)
    ensures Agrees(mem, Top(f), |Top(f)|) && mem[|Top(f)| - 4..|Top(f)|] == "\r\n\r\n"
    ensures |Top(f)| <= |Dashed(f)| && forall x :: |Top(f)| <= x < |Dashed(f)| ==> IsDash(mem[x])
  {
    hide Top;
    AgreesFront(mem, Top(f), f.d, |Dashed(f)|);
    AgreesWith(mem, Top(f), |Top(f)|, |Top(f)| - 4, |Top(f)|);
    forall x | |Top(f)| <= x < |Dashed(f)| ensures IsDash(mem[x]) { assert Dashed(f)[x] == f.d[x - |Top(f)|]; }
  }

  // When the closing line stands where the first part's boundary should, as it does for a boundary that itself ends
  // in two dashes, no upload ever comes out that has a content type, whatever else is received.
  lemma ClosedAtOnceIsLost(f: Form, mem: string, k: nat, line: string, contentType: ContentType, later: seq<Buffer>)
    requires IsAnnounced(f) && f.b != [] && f.b[0] != '-' && IsPrintable(f.b) && AreDashes(f.d) && AreBuffers(later)
    requires |Dashed(f)| <= k <= |mem| && Agrees(mem, Dashed(f), |Dashed(f)|) && ClosingStands(mem, k, |Dashed(f)|, f.b, line)
    ensures AreBuffers([Buffer(mem, k)] + later)
    ensures var r := Calls(Fresh(contentType), [Buffer(mem, k)] + later);
      r.Run? ==> forall q, u :: q in r.requests && u in q.uploads ==> "content-type" !in u.headers
  {
    hide StartLine, AfterStartLine, MediaBegin, Unopened, Calls, Top, Dashed, IsAnnounced, IsPrintable, ClosingStands, FieldMap,
      ContentTypeOf, Headless, BoundaryOf;
    ClosingUnopened(f, mem, k, line, contentType);
    AnnouncedKeys(f);
    TopReads(f, contentType);
    StartReads(f, mem, k, contentType);
    UnopenedCall(Ready(f, contentType), mem, k);
    CallsFrom(Fresh(contentType), Buffer(mem, k), later);
    var r := ParseCall(Fresh(contentType), mem, k);
    if r.Call? { HeadlessRun(r.s, later); }
  }

  /* ---- No boundary, no length ---- */

  // A content type of media that does not hold the word.
  ghost predicate NamesNone(fields: seq<Field>) {
    MediaBody(fields) && ValueOf(fields, TYPE).Some? && forall j: nat :: !Occurs(ValueOf(fields, TYPE).value, WORD, j)
  }

  lemma NoneKeys(fields: seq<Field>)
    requires NamesNone(fields)
    ensures var m := FieldMap(fields, |fields|);
      IsMediaType(ContentTypeOf(m)) && TYPE in m && BoundaryOf(m[TYPE]) == None
  {
    hide FieldMap, ContentTypeOf, BoundaryOf, ValueOf, MediaBody, PlainBody, IsLower, Occurs;
    NamesAreLower();
    TypeDecided(fields);
    MapHolds(fields, TYPE);
    RequestHeaders.NoBoundary(ValueOf(fields, TYPE).value);
  }

  // Media whose content type names no boundary: the call reports that, although, when a length is announced, it
  // also brings a request, with one upload that has no headers and holds a line end.
  lemma NoBoundaryIsReported(m: string, t: string, fields: seq<Field>, payload: string, contentType: ContentType)
    requires IsMethod(m) && IsTarget(t) && fields != [] && AreFields(fields) && payload != [] && NamesNone(fields)
    ensures var mem := PrintRequest(m, t, fields, payload);
      var r := ParseCall(Fresh(contentType), mem, |mem|);
      && r.Call? && r.ec == Some(HttpError.NoBoundary)
      && (r.request.Some? ==> r.request.value.uploads == [Upload(map[], CRLF)])
  {
    hide StartLine, PrintRequest, AreFields, IsMethod, IsTarget, FieldMap, ContentTypeOf, BoundaryOf, NamesNone, MediaMore;
    NoneKeys(fields);
    StartsRequest(m, t, fields, payload, contentType);
    var mem := PrintRequest(m, t, fields, payload);
    var it := |mem| - |payload| - 4;
    var stage := Stage(Started(m, t, fields, contentType), it, None);
    assert mem[it..][0] == '\r' && mem[it..][1] == '\n';
    EmptyBoundaryMore(Stage(stage.s.(phase := InMediaType), it, Some(HttpError.NoBoundary)), mem);
  }

  lemma EmptyBoundaryMore(stage: Stage, mem: string)
    requires stage.Stage? && stage.it + 2 <= |mem| && mem[stage.it] == '\r' && mem[stage.it + 1] == '\n'
    requires stage.s.media == Media([], 0, "", "", 0, map[]) && stage.s.phase == InMediaType
    ensures var r := MediaMore(stage, mem, |mem|);
      r.Stage? && r.ec == stage.ec && r.s.phase in {InMediaType, MediaFinished} &&
      (r.s.phase == MediaFinished ==> r.s.media.uploads == [Upload(map[], CRLF)])
  {
    hide AsSize, Atoi;
    assert mem[stage.it..stage.it + 2] == CRLF;
    assert "" + CRLF == CRLF;
  }

  // Media of no announced length: the call brings nothing and reports no error of its own, and the parser is stuck.
  lemma MediaWithoutLength(m: string, t: string, fields: seq<Field>, payload: string, contentType: ContentType,
                           later: seq<Buffer>)
    requires IsMethod(m) && IsTarget(t) && fields != [] && AreFields(fields) && AreBuffers(later)
    requires MediaBody(fields) && ValueOf(fields, LENGTH).None?
    ensures var mem := PrintRequest(m, t, fields, payload);
      AreBuffers([Buffer(mem, |mem|)] + later) &&
      var r := Calls(Fresh(contentType), [Buffer(mem, |mem|)] + later); r.Run? ==> r.requests == [] && Stuck(r.s)
  {
    hide StartLine, PrintRequest, AreFields, IsMethod, IsTarget, FieldMap, ContentTypeOf, MediaBegin, Calls, MediaBody,
      ValueOf, IsLower, Stuck;
    var mem := PrintRequest(m, t, fields, payload);
    NamesAreLower();
    MapHolds(fields, LENGTH);
    TypeDecided(fields);
    StartsRequest(m, t, fields, payload, contentType);
    var stage := Stage(Started(m, t, fields, contentType), |mem| - |payload| - 4, None);
    assert StartLine(Fresh(contentType), mem, |mem|) == stage;
    LengthlessCall(stage, mem);
    CallsFrom(Fresh(contentType), Buffer(mem, |mem|), later);
    var r := ParseCall(Fresh(contentType), mem, |mem|);
    if r.Call? { StuckRun(r.s, later); }
  }

  lemma LengthlessCall(stage: Stage, mem: string)
    requires stage.Stage? && stage.s.phase == ContentTypeDone && IsMediaType(stage.s.contentType)
    requires "content-length" !in stage.s.headers && stage.s.media.boundaryLength == 0
    ensures var r := AfterStartLine(stage, mem, |mem|); r.Call? ==> r.request == None && Stuck(r.s)
  {
    hide MediaBegin;
    BeginPhases(stage, mem);
    MediaKeepsHeaders(mem, |mem|);
  }

  lemma BeginPhases(stage: Stage, mem: string)
    requires stage.Stage?
    ensures var r := MediaBegin(stage, mem, |mem|); r.Stage? ==> r.s.phase in {InMediaType, InHeaders, HeadersDone}
  {
    hide OpeningLine, HeaderBlock, BoundaryOf;
  }

  lemma {:induction false} StuckRun(s: State, buffers: seq<Buffer>)
    requires AreBuffers(buffers) && Stuck(s)
    ensures Calls(s, buffers) == Run(s, [])
  {
    hide ParseCall, Stuck;
    if buffers != [] {
      StuckRun(s, buffers[..|buffers| - 1]);
      var b := buffers[|buffers| - 1];
      StuckStays(s, b.mem, b.last);
    }
  }
}
