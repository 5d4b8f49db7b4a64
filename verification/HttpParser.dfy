/**
 The request parser: a phase machine over successive calls of `parse`, each with one received buffer.

 `mem` is the memory behind a buffer of which the first `last` bytes were received. Reading outside
 `mem`, or going on with a cursor past the end, is undefined in the source: the model says Fault.
 */
module HttpParser {
  import opened Text
  import opened CharClasses
  import opened StringUtils
  import opened Route

  datatype HttpError =
    | IncompleteStartLine | InvalidRequestLine | IncompleteMessageHeader | InvalidMessageHeaderCrlf
    | BadMethod | BadTarget | BadVersion | BadField | BadFieldValue | ContentTypeNotImplemented
    | NoBoundary | NeedMore

  datatype Phase =
    | NotStarted | InMethod | InTarget | InProtocol | ProtocolDone | InHeaders | HeadersDone
    | ContentTypeDone | InMediaType | MediaNeedMore | MediaFinished | BodyPending | Finished

  datatype ContentType = MultipartFormData | ApplicationJson | ImageJpeg | FormUrlEncoded | NotSpecified | UnknownType

  type Headers = map<string, string>

  datatype Upload = Upload(headers: Headers, bytes: string)

  datatype Request = Request(httpMethod: Method, version: int, target: string, headers: Headers,
                             body: string, uploads: seq<Upload>)

  datatype State = State(phase: Phase, httpMethod: string, target: string, version: int, headers: Headers,
                         contentType: ContentType, media: Media)

  // What multipart parsing keeps from call to call.
  datatype Media = Media(uploads: seq<Upload>, readed: nat, buffer: string, boundary: string,
                         boundaryLength: nat, uploadHeaders: Headers)

  // The source leaves the content type uninitialised.
  function Fresh(contentType: ContentType): State {
    State(NotStarted, "", "", 0, map[], contentType, Media([], 0, "", "", 0, map[]))
  }

  function ToMethod(m: string): Method {
    if m == "GET" then Get else if m == "POST" then Post else if m == "DELETE" then Delete
    else if m == "OPTIONS" then Options else if m == "PATCH" then Patch else Unknown
  }

  /* ---- The start line ---- */

  datatype Parsed<T> = Ok(value: T, it: nat) | Error(error: HttpError) | Fault

  function MethodAt(mem: string, last: nat, it: nat): Parsed<string>
    requires it <= last <= |mem|
  {
    if it == |mem| then Fault
    else if IsSpace(mem[it]) then Error(BadMethod)
    else
      var e := SkipWhile(IsAlpha, mem, it, last);
      if e < last && IsTokenChar(mem[e]) then Error(BadMethod)
      else if e + 1 >= last then Error(IncompleteStartLine)
      else if mem[e] != ' ' then Error(BadMethod)
      else Ok(mem[it..e], e + 1)
  }

  function TargetAt(mem: string, last: nat, it: nat): Parsed<string>
    requires it <= last <= |mem|
  {
    if it == |mem| then Fault
    else if !IsPathChar(mem[it]) then Error(BadTarget)
    else
      var e := SkipWhile(IsPathChar, mem, it, last);
      if e + 1 >= last then Error(IncompleteStartLine)
      else if mem[e] != ' ' then Error(BadTarget)
      else Ok(mem[it..e], e + 1)
  }

  function ProtocolAt(mem: string, last: nat, it: nat): Parsed<int>
    requires it <= last <= |mem|
  {
    if it + 8 > last then Error(IncompleteStartLine)
    else if mem[it..it + 5] != "HTTP/" || !IsDigit(mem[it + 5]) || mem[it + 6] != '.' || !IsDigit(mem[it + 7]) then
      Error(BadVersion)
    else Ok(10 * (mem[it + 5] as int - '0' as int) + (mem[it + 7] as int - '0' as int), it + 8)
  }

  /* ---- Message headers ---- */

  // A piece of a field, where the cursor is left, and the error it raises; parsing goes on after one.
  datatype Piece = Piece(text: string, it: nat, ec: Option<HttpError>) | PieceFault

  function FieldName(mem: string, last: nat, it: nat): (r: Piece)
    requires it <= last <= |mem|
    ensures r.Piece? ==> it <= r.it <= last + 1
  {
    var e := SkipWhile(IsValidToken, mem, it, last);
    if e < last && mem[e] != ':' then Piece("", e, Some(BadField)) else Piece(mem[it..e], e + 1, None)
  }

  function FieldValue(mem: string, last: nat, it: nat): (r: Piece)
    requires it <= last + 1 && last <= |mem|
    ensures r.Piece? ==> it <= r.it <= last + 1
  {
    if it > last then Piece("", it, Some(IncompleteMessageHeader))
    else
      var first := SkipWhile(IsBlank, mem, it, last);
      if first == last then Piece("", first, Some(IncompleteMessageHeader))
      else
        var e := SkipWhile(IsPrint, mem, first, last);
        if e == last then Piece(mem[first..e], e, None)
        else if mem[e] != '\r' then Piece("", e, Some(BadFieldValue))
        else if e + 1 == |mem| then PieceFault
        else if mem[e + 1] != '\n' then Piece("", e, Some(BadFieldValue))
        else Piece(mem[first..e], e, None)
  }

  function Later(ec: Option<HttpError>, next: Option<HttpError>): Option<HttpError> {
    if next.Some? then next else ec
  }

  // First come, first kept.
  function Insert(headers: Headers, name: string, value: string): Headers {
    if name in headers then headers else headers[name := value]
  }

  datatype Block = Block(headers: Headers, it: nat, ec: Option<HttpError>) | BlockFault

  // One round of the field loop: the block so far, and whether the loop goes on from its cursor.
  datatype Round = Round(block: Block, more: bool)

  function OneField(mem: string, last: nat, it: nat, headers: Headers, ec: Option<HttpError>): (r: Round)
    requires it < last <= |mem|
    ensures r.more ==> r.block.Block? && it < r.block.it
  {
    var name := FieldName(mem, last, it);
    if name.PieceFault? then Round(BlockFault, false)
    else
      var value := FieldValue(mem, last, name.it);
      if value.PieceFault? then Round(BlockFault, false)
      else AfterField(mem, value.it, Insert(headers, ToLower(name.text), value.text), Later(Later(ec, name.ec), value.ec))
  }

  // What follows a field: the end of the line, and perhaps the end of the headers.
  function AfterField(mem: string, it: nat, headers: Headers, ec: Option<HttpError>): (r: Round)
    ensures r.more ==> r.block.Block? && it < r.block.it
  {
    if it >= |mem| then Round(BlockFault, false)
    else if mem[it] != '\r' then Round(Block(headers, it + 1, ec), true)
    else if it + 2 >= |mem| then Round(BlockFault, false)
    else
      var ec' := if mem[it + 1] != '\n' then Some(InvalidMessageHeaderCrlf) else ec;
      if mem[it + 2] != '\r' then Round(Block(headers, it + 2, ec'), true)
      else if it + 3 == |mem| then Round(BlockFault, false)
      else if mem[it + 3] == '\n' then Round(Block(headers, it, ec'), false)
      else Round(Block(headers, it + 2, ec'), true)
  }

  // The field loop, from a cursor on.
  function Fields(mem: string, last: nat, block: Block): (r: Block)
    requires last <= |mem|
    decreases if block.Block? && block.it < last then last - block.it else 0
  {
    if block.BlockFault? || block.it >= last then block
    else
      var round := OneField(mem, last, block.it, block.headers, block.ec);
      if round.more then Fields(mem, last, round.block) else round.block
  }

  function HeaderBlock(mem: string, last: nat, it: nat, headers: Headers, ec: Option<HttpError>): Block
    requires last <= |mem|
  {
    if it + 2 > last then Block(headers, it, Some(IncompleteMessageHeader)) else Fields(mem, last, Block(headers, it, ec))
  }

  function ContentTypeOf(headers: Headers): ContentType {
    if "content-type" !in headers then NotSpecified
    else
      var t := Tokens(headers["content-type"], ';')[0];
      if t == "multipart/form-data" then MultipartFormData
      else if t == "application/json" then ApplicationJson
      else if t == "image/jpeg" then ImageJpeg
      else if t == "application/x-www-form-urlencoded" then FormUrlEncoded
      else UnknownType
  }

  /* ---- One call ---- */

  // The parser, the cursor and the error after a stage of a call.
  datatype Stage = Stage(s: State, it: nat, ec: Option<HttpError>) | StageFault

  function StartLine(s: State, mem: string, last: nat): Stage
    requires last <= |mem|
  {
    var m := MethodAt(mem, last, 0);
    if m.Fault? then StageFault
    else if m.Error? then Stage(s.(phase := InMethod), 0, Some(m.error))
    else AfterMethod(s.(httpMethod := m.value), mem, last, m.it)
  }

  function AfterMethod(s: State, mem: string, last: nat, it: nat): Stage
    requires it <= last <= |mem|
  {
    var t := TargetAt(mem, last, it);
    if t.Fault? then StageFault
    else if t.Error? then Stage(s.(phase := InTarget), 0, Some(t.error))
    else AfterTarget(s.(target := t.value), mem, last, t.it)
  }

  function AfterTarget(s: State, mem: string, last: nat, it: nat): Stage
    requires it <= last <= |mem|
  {
    var v := ProtocolAt(mem, last, it);
    if v.Fault? then StageFault
    else if v.Error? then Stage(s.(phase := InProtocol), 0, Some(v.error))
    else
      var s1 := s.(phase := ProtocolDone, version := v.value);
      if v.value != 11 then Stage(s1, 0, Some(BadVersion))
      else if v.it + 2 > last then Stage(s1, 0, Some(IncompleteStartLine))
      else if mem[v.it] != '\r' && mem[v.it + 1] != '\n' then Stage(s1, 0, Some(InvalidRequestLine))
      else AfterProtocol(s1, HeaderBlock(mem, last, v.it + 2, s.headers, None))
  }

  function AfterProtocol(s: State, block: Block): Stage {
    if block.BlockFault? then StageFault
    else
      var contentType := ContentTypeOf(block.headers);
      Stage(s.(phase := ContentTypeDone, headers := block.headers, contentType := contentType), block.it,
            if contentType == UnknownType then Some(ContentTypeNotImplemented) else block.ec)
  }

  // What a call gives back.
  datatype Call = Call(s: State, request: Option<Request>, ec: Option<HttpError>) | CallFault

  predicate IsBodyType(t: ContentType) { t in {ApplicationJson, FormUrlEncoded, NotSpecified} }

  predicate IsMediaType(t: ContentType) { t in {ImageJpeg, MultipartFormData} }

  function ContentLength(headers: Headers): Option<int> {
    if "content-length" in headers then Some(Atoi(headers["content-length"])) else None
  }

  function ParseCall(s: State, mem: string, last: nat): Call
    requires last <= |mem|
  {
    if s.phase != NotStarted then AfterStartLine(Stage(s, 0, None), mem, last)
    else if last == 0 then Call(s, None, Some(NeedMore))
    else AfterStartLine(StartLine(s, mem, last), mem, last)
  }

  function AfterStartLine(stage: Stage, mem: string, last: nat): Call
    requires last <= |mem|
  {
    if stage.StageFault? then CallFault
    else
      var s, length := stage.s, ContentLength(stage.s.headers);
      if s.phase == ContentTypeDone && length.Some? && length.value > 0 && stage.it + 4 >= last then
        Call(s.(phase := BodyPending), None, stage.ec)
      else if s.phase in {ContentTypeDone, BodyPending} && IsBodyType(s.contentType) then
        if stage.it > last then CallFault
        else
          var request := Request(ToMethod(s.httpMethod), s.version, s.target, s.headers, mem[stage.it..last], []);
          Call(s.(phase := Finished), Some(request), stage.ec)
      else if s.phase == ContentTypeDone && IsMediaType(s.contentType) then
        AfterMedia(MediaFirst(stage, mem, last), mem, last)
      else AfterMedia(stage, mem, last)
  }

  // The rest of a call: more media if more is needed, and the request if the media is complete.
  function AfterMedia(stage: Stage, mem: string, last: nat): Call
    requires last <= |mem|
  {
    if stage.StageFault? then CallFault
    else
      var next := if stage.s.phase == MediaNeedMore then MediaMore(stage, mem, last) else stage;
      if next.StageFault? then CallFault
      else if next.s.phase != MediaFinished then Call(next.s, None, next.ec)
      else
        var s := next.s.(phase := Finished);
        Call(s, Some(Request(ToMethod(s.httpMethod), s.version, s.target, s.headers, "", s.media.uploads)), next.ec)
  }

  /* ---- Multipart ---- */

  // The inner loop of the boundary scan: a mismatch resets the count, a leading dash is not counted.
  function MatchCount(mem: string, it: nat, boundary: string, length: nat, c: nat, count: nat): nat
    requires c <= length <= |boundary| && it + length <= |mem|
    decreases length - c
  {
    if c == length then count
    else if mem[it + c] != boundary[c] then MatchCount(mem, it, boundary, length, c + 1, 0)
    else if mem[it] == '-' then MatchCount(mem, it, boundary, length, c + 1, count)
    else MatchCount(mem, it, boundary, length, c + 1, count + 1)
  }

  datatype Found = Found(found: bool, it: nat) | FoundFault

  function FindBoundary(mem: string, last: nat, it: nat, boundary: string, length: nat): (r: Found)
    requires last <= |mem| && length <= |boundary|
    ensures r.Found? && it <= last ==> it <= r.it <= last && (!r.found ==> r.it == last)
    decreases last - it
  {
    if it >= last then Found(false, it)
    else if it + length > |mem| then FoundFault
    else if MatchCount(mem, it, boundary, length, 0, 0) == length then Found(true, it)
    else FindBoundary(mem, last, it + 1, boundary, length)
  }

  predicate IsDash(c: char) { c == '-' }
  predicate IsFiller(c: char) { c == '=' || c == '-' }

  // The boundary parameter: what follows the word, the equals sign and any dashes.
  function BoundaryOf(contentType: string): Option<string> {
    var pos := Find(contentType, "boundary=", 0);
    if pos.None? then None
    else
      var value := contentType[pos.value..];
      Some(value[SkipWhile(IsFiller, value, 8, |value|)..])
  }

  // The end of the boundary's own line: its CRLF, or the closing "--" CRLF (true), or the end.
  datatype LineStop = LineStop(it: nat, closing: bool) | LineFault

  function BoundaryLine(mem: string, last: nat, it: nat): (r: LineStop)
    requires last <= |mem|
    ensures r.LineStop? && it <= last ==> it <= r.it <= last
    decreases last - it
  {
    if it >= last then LineStop(it, false)
    else if mem[it] == '-' then
      if it + 1 == |mem| then LineFault
      else if mem[it + 1] != '-' then BoundaryLine(mem, last, it + 1)
      else if it + 2 == |mem| then LineFault
      else if mem[it + 2] != '\r' then BoundaryLine(mem, last, it + 1)
      else if it + 3 == |mem| then LineFault
      else if mem[it + 3] != '\n' then BoundaryLine(mem, last, it + 1)
      else LineStop(it, true)
    else if mem[it] == '\r' then
      if it + 1 == |mem| then LineFault
      else if mem[it + 1] == '\n' then LineStop(it, false)
      else BoundaryLine(mem, last, it + 1)
    else BoundaryLine(mem, last, it + 1)
  }

  function MediaBegin(stage: Stage, mem: string, last: nat): Stage
    requires last <= |mem| && stage.Stage?
  {
    var s, it := stage.s.(phase := InMediaType), stage.it;
    var boundary := if "content-type" in s.headers then BoundaryOf(s.headers["content-type"]) else None;
    if "content-type" !in s.headers then Stage(s, it, stage.ec)
    else if boundary.None? then Stage(s, it, Some(NoBoundary))
    else
      var s1 := s.(media := s.media.(boundary := boundary.value));
      if it + 4 > last then Stage(s1, it, stage.ec)
      else
        var it1 := if mem[it..it + 4] == "\r\n\r\n" then it + 4 else it;
        BoundaryHeader(s1.(media := s1.media.(boundaryLength := |boundary.value|)),
                       mem, last, SkipWhile(IsDash, mem, it1, last), stage.ec)
  }

  // The boundary's line: whether it holds the boundary and nothing else, and where it ends.
  function OpeningLine(mem: string, last: nat, it: nat, media: Media): Found
    requires it <= last <= |mem| && media.boundaryLength <= |media.boundary|
  {
    var found := FindBoundary(mem, last, it, media.boundary, media.boundaryLength);
    if found.FoundFault? then FoundFault
    else
      var line := BoundaryLine(mem, last, found.it);
      if line.LineFault? then FoundFault
      else Found(!line.closing && mem[found.it..line.it] == media.boundary, line.it)
  }

  function BoundaryHeader(s: State, mem: string, last: nat, it: nat, ec: Option<HttpError>): Stage
    requires it <= last <= |mem| && s.media.boundaryLength <= |s.media.boundary|
  {
    var line := OpeningLine(mem, last, it, s.media);
    if line.FoundFault? then StageFault
    else if !line.found then Stage(s, line.it, ec)
    else PartHeaders(s, mem, last, line.it + 2, ec)
  }

  function PartHeaders(s: State, mem: string, last: nat, it: nat, ec: Option<HttpError>): Stage
    requires last <= |mem|
  {
    var block := HeaderBlock(mem, last, it, map[], ec);
    if block.BlockFault? then StageFault
    else
      var s1 := s.(phase := if it + 2 > last then InHeaders else HeadersDone);
      if "content-type" !in block.headers then Stage(s1, block.it, block.ec)
      else Stage(s1.(media := s.media.(uploadHeaders := block.headers)), block.it + 4, block.ec)
  }

  // The end of the delimiter line's CRLF, or the end of the chunk.
  function DelimiterEnd(mem: string, last: nat, it: nat): (r: (nat, bool))
    requires it <= last <= |mem|
    ensures it <= r.0 <= last
    decreases last - it
  {
    if it == last then (it, false)
    else if mem[it] == '\r' && it + 2 <= last && mem[it + 1] == '\n' then (it + 2, true)
    else DelimiterEnd(mem, last, it + 1)
  }

  // A negative content length, compared with a size, counts as a huge one.
  function AsSize(n: int): nat { if n < 0 then (n % 0x1_0000_0000_0000_0000) else n }

  // How much of a chunk is consumed, and whether the delimiter line was complete in it.
  datatype Consumed = Consumed(end: nat, complete: bool) | ConsumedFault

  function Consume(mem: string, last: nat, it: nat, media: Media): (r: Consumed)
    requires it <= last <= |mem| && media.boundaryLength <= |media.boundary|
    ensures r.Consumed? ==> it <= r.end <= last
  {
    var found := FindBoundary(mem, last, it, media.boundary, media.boundaryLength);
    if found.FoundFault? then ConsumedFault
    else if !found.found then Consumed(last, false)
    else var (end, complete) := DelimiterEnd(mem, last, found.it); Consumed(end, complete)
  }

  function MediaMore(stage: Stage, mem: string, last: nat): Stage
    requires last <= |mem| && stage.Stage?
  {
    var s, it, media := stage.s, stage.it, stage.s.media;
    var length := ContentLength(s.headers);
    if length.None? then stage
    else if it == last then Stage(s.(phase := MediaNeedMore), it, stage.ec)
    else if it > last || media.boundaryLength > |media.boundary| then StageFault
    else
      var c := Consume(mem, last, it, media);
      if c.ConsumedFault? then StageFault
      else
        var media1 := media.(readed := media.readed + (c.end - it), buffer := media.buffer + mem[it..c.end]);
        if !c.complete && media1.readed < AsSize(length.value) then
          Stage(s.(phase := MediaNeedMore, media := media1), c.end, stage.ec)
        else
          Stage(s.(phase := MediaFinished,
                   media := media1.(uploads := media.uploads + [Upload(media.uploadHeaders, media1.buffer)])),
                c.end, stage.ec)
  }

  function MediaFirst(stage: Stage, mem: string, last: nat): Stage
    requires last <= |mem| && stage.Stage?
  {
    var begun := MediaBegin(stage, mem, last);
    if begun.StageFault? then StageFault else MediaMore(begun, mem, last)
  }

  /* ---- The parser object: each method has exactly the effect of its function above ---- */

  class Parser {
    var phase: Phase
    var httpMethod: string
    var target: string
    var protocolVersion: int
    var headers: Headers
    var headerContentType: ContentType
    var media: Media

    ghost function View(): State
      reads this
    {
      State(phase, httpMethod, target, protocolVersion, headers, headerContentType, media)
    }

    constructor (contentType: ContentType)
      ensures View() == Fresh(contentType)
    {
      phase, httpMethod, target, protocolVersion := NotStarted, "", "", 0;
      headers, headerContentType := map[], contentType;
      media := Media([], 0, "", "", 0, map[]);
    }

    method ParseMethod(mem: string, last: nat, start: nat) returns (r: Parsed<string>)
      requires start <= last <= |mem|
      ensures r == MethodAt(mem, last, start)
    {
      var it := start;
      if it == |mem| { return Fault; }
      if IsSpace(mem[it]) { return Error(BadMethod); }
      while it < last
        invariant start <= it <= last && SkipWhile(IsAlpha, mem, start, last) == SkipWhile(IsAlpha, mem, it, last)
      {
        if !IsTokenChar(mem[it]) { break; }
        if !IsAlpha(mem[it]) { return Error(BadMethod); }
        it := it + 1;
      }
      if it + 1 >= last { return Error(IncompleteStartLine); }
      if mem[it] != ' ' { return Error(BadMethod); }
      return Ok(mem[start..it], it + 1);
    }

    method ParseTarget(mem: string, last: nat, start: nat) returns (r: Parsed<string>)
      requires start <= last <= |mem|
      ensures r == TargetAt(mem, last, start)
    {
      var it := start;
      if it == |mem| { return Fault; }
      if !IsPathChar(mem[it]) { return Error(BadTarget); }
      while it < last
        invariant start <= it <= last && SkipWhile(IsPathChar, mem, start, last) == SkipWhile(IsPathChar, mem, it, last)
      {
        if !IsPathChar(mem[it]) { break; }
        it := it + 1;
      }
      if it + 1 >= last { return Error(IncompleteStartLine); }
      if mem[it] != ' ' { return Error(BadTarget); }
      return Ok(mem[start..it], it + 1);
    }

    method ParseProtocol(mem: string, last: nat, it: nat) returns (r: Parsed<int>)
      requires it <= last <= |mem|
      ensures r == ProtocolAt(mem, last, it)
    {
      if it + 8 > last { return Error(IncompleteStartLine); }
      assert mem[it..it + 5] == [mem[it], mem[it + 1], mem[it + 2], mem[it + 3], mem[it + 4]];
      if mem[it] != 'H' || mem[it + 1] != 'T' || mem[it + 2] != 'T' || mem[it + 3] != 'P' || mem[it + 4] != '/' {
        return Error(BadVersion);
      }
      if !IsDigit(mem[it + 5]) { return Error(BadVersion); }
      var version := 10 * (mem[it + 5] as int - '0' as int);
      if mem[it + 6] != '.' { return Error(BadVersion); }
      if !IsDigit(mem[it + 7]) { return Error(BadVersion); }
      return Ok(version + (mem[it + 7] as int - '0' as int), it + 8);
    }

    method ParseMessageHeaderName(mem: string, last: nat, start: nat) returns (r: Piece)
      requires start <= last <= |mem|
      ensures r == FieldName(mem, last, start)
    {
      var it := start;
      while it < last
        invariant start <= it <= last
        invariant SkipWhile(IsValidToken, mem, start, last) == SkipWhile(IsValidToken, mem, it, last)
      {
        if mem[it] == ':' { break; }
        if !IsValidToken(mem[it]) { return Piece("", it, Some(BadField)); }
        it := it + 1;
      }
      return Piece(mem[start..it], it + 1, None);
    }

    method ParseMessageHeaderValue(mem: string, last: nat, start: nat) returns (r: Piece)
      requires start <= last + 1 && last <= |mem|
      ensures r == FieldValue(mem, last, start)
    {
      var it := start;
      while true
        invariant start <= it && (start <= last ==> it <= last)
        invariant start <= last ==> SkipWhile(IsBlank, mem, start, last) == SkipWhile(IsBlank, mem, it, last)
        invariant start > last ==> it == start
        decreases last - it
      {
        if it + 1 > last { return Piece("", it, Some(IncompleteMessageHeader)); }
        if !IsBlank(mem[it]) { break; }
        it := it + 1;
      }
      var first := it;
      while it < last
        invariant first <= it <= last && SkipWhile(IsPrint, mem, first, last) == SkipWhile(IsPrint, mem, it, last)
      {
        if mem[it] == '\r' {
          if it + 1 == |mem| { return PieceFault; }
          if mem[it + 1] == '\n' { break; }
        }
        if !IsPrint(mem[it]) { return Piece("", it, Some(BadFieldValue)); }
        it := it + 1;
      }
      return Piece(mem[first..it], it, None);
    }

    // One round of the loop over the fields.
    method ParseField(mem: string, last: nat, start: nat, given: Headers, before: Option<HttpError>)
      returns (r: Round)
      requires start < last <= |mem|
      ensures r == OneField(mem, last, start, given, before)
    {
      var name := ParseMessageHeaderName(mem, last, start);
      if name.PieceFault? { return Round(BlockFault, false); }
      var value := ParseMessageHeaderValue(mem, last, name.it);
      if value.PieceFault? { return Round(BlockFault, false); }
      var it, ec := value.it, Later(Later(before, name.ec), value.ec);
      var fields := Insert(given, ToLower(name.text), value.text);
      r := EndOfField(mem, it, fields, ec);
    }

    method EndOfField(mem: string, start: nat, fields: Headers, before: Option<HttpError>) returns (r: Round)
      ensures r == AfterField(mem, start, fields, before)
    {
      var it, ec := start, before;
      if it >= |mem| { return Round(BlockFault, false); }
      if mem[it] == '\r' {
        if it + 2 >= |mem| { return Round(BlockFault, false); }
        if mem[it + 1] != '\n' { ec := Some(InvalidMessageHeaderCrlf); }
        if mem[it + 2] == '\r' {
          if it + 3 == |mem| { return Round(BlockFault, false); }
          if mem[it + 3] == '\n' { return Round(Block(fields, it, ec), false); }
        }
        it := it + 1;
      }
      return Round(Block(fields, it + 1, ec), true);
    }

    // Fills the given headers; the receiver's phase is set by the caller.
    method ParseMessageHeader(mem: string, last: nat, start: nat, given: Headers, before: Option<HttpError>)
      returns (r: Block)
      requires last <= |mem|
      ensures r == HeaderBlock(mem, last, start, given, before)
    {
      if start + 2 > last { return Block(given, start, Some(IncompleteMessageHeader)); }
      r := Block(given, start, before);
      while r.it < last
        invariant r.Block? && Fields(mem, last, Block(given, start, before)) == Fields(mem, last, r)
        decreases last - r.it
      {
        var round := ParseField(mem, last, r.it, r.headers, r.ec);
        if !round.more { return round.block; }
        r := round.block;
      }
    }

    method ParseContentType(given: Headers) returns (contentType: ContentType)
      ensures contentType == ContentTypeOf(given)
    {
      if "content-type" !in given { return NotSpecified; }
      var tokens := Split(given["content-type"], ';', false);
      var t := tokens[0];
      if t == "multipart/form-data" { return MultipartFormData; }
      if t == "application/json" { return ApplicationJson; }
      if t == "image/jpeg" { return ImageJpeg; }
      if t == "application/x-www-form-urlencoded" { return FormUrlEncoded; }
      return UnknownType;
    }

    // Faults, or leaves the parser, the cursor and the error as the stage says.
    method ParseStartLine(mem: string, last: nat) returns (fault: bool, it: nat, ec: Option<HttpError>)
      requires last <= |mem|
      modifies this
      ensures fault <==> StartLine(old(View()), mem, last).StageFault?
      ensures !fault ==> StartLine(old(View()), mem, last) == Stage(View(), it, ec)
    {
      var m := ParseMethod(mem, last, 0);
      if m.Fault? { return true, 0, None; }
      if m.Error? {
        phase := InMethod;
        return false, 0, Some(m.error);
      }
      httpMethod := m.value;
      fault, it, ec := ParseTargetOn(mem, last, m.it);
    }

    // `parse_start_line` from the target on.
    method ParseTargetOn(mem: string, last: nat, start: nat) returns (fault: bool, it: nat, ec: Option<HttpError>)
      requires start <= last <= |mem|
      modifies this
      ensures fault <==> AfterMethod(old(View()), mem, last, start).StageFault?
      ensures !fault ==> AfterMethod(old(View()), mem, last, start) == Stage(View(), it, ec)
    {
      var t := ParseTarget(mem, last, start);
      if t.Fault? { return true, 0, None; }
      if t.Error? {
        phase := InTarget;
        return false, 0, Some(t.error);
      }
      target := t.value;
      fault, it, ec := ParseProtocolOn(mem, last, t.it);
    }

    // `parse_start_line` from the protocol version on.
    method ParseProtocolOn(mem: string, last: nat, start: nat) returns (fault: bool, it: nat, ec: Option<HttpError>)
      requires start <= last <= |mem|
      modifies this
      ensures fault <==> AfterTarget(old(View()), mem, last, start).StageFault?
      ensures !fault ==> AfterTarget(old(View()), mem, last, start) == Stage(View(), it, ec)
    {
      var v := ParseProtocol(mem, last, start);
      if v.Error? {
        phase := InProtocol;
        return false, 0, Some(v.error);
      }
      phase, protocolVersion := ProtocolDone, v.value;
      if protocolVersion != 11 { return false, 0, Some(BadVersion); }
      if v.it + 2 > last { return false, 0, Some(IncompleteStartLine); }
      if mem[v.it] != '\r' && mem[v.it + 1] != '\n' { return false, 0, Some(InvalidRequestLine); }
      var block := ParseMessageHeader(mem, last, v.it + 2, headers, None);
      if block.BlockFault? { return true, 0, None; }
      headers := block.headers;
      headerContentType := ParseContentType(headers);
      phase := ContentTypeDone;
      return false, block.it, if headerContentType == UnknownType then Some(ContentTypeNotImplemented) else block.ec;
    }

    // The scan of the source: at each place it counts matching characters, resetting on a mismatch.
    method VerifyBoundaryValue(mem: string, last: nat, start: nat, boundary: string, length: nat) returns (r: Found)
      requires last <= |mem| && length <= |boundary|
      ensures r == FindBoundary(mem, last, start, boundary, length)
    {
      var it := start;
      while it < last
        invariant FindBoundary(mem, last, start, boundary, length) == FindBoundary(mem, last, it, boundary, length)
      {
        if it + length > |mem| { return FoundFault; }
        var matchCount := 0;
        for c := 0 to length
          invariant MatchCount(mem, it, boundary, length, 0, 0) == MatchCount(mem, it, boundary, length, c, matchCount)
        {
          if mem[it + c] != boundary[c] {
            matchCount := 0;
          } else if mem[it] != '-' {
            matchCount := matchCount + 1;
          }
        }
        if matchCount == length { return Found(true, it); }
        it := it + 1;
      }
      return Found(false, it);
    }

    method SkipDashes(mem: string, last: nat, start: nat) returns (it: nat)
      requires start <= last <= |mem|
      ensures it == SkipWhile(IsDash, mem, start, last)
    {
      it := start;
      while it < last
        invariant start <= it <= last && SkipWhile(IsDash, mem, start, last) == SkipWhile(IsDash, mem, it, last)
      {
        if mem[it] != '-' { break; }
        it := it + 1;
      }
    }

    method ReadBoundaryLine(mem: string, last: nat, start: nat) returns (r: LineStop)
      requires last <= |mem|
      ensures r == BoundaryLine(mem, last, start)
    {
      var it := start;
      while it < last
        invariant BoundaryLine(mem, last, start) == BoundaryLine(mem, last, it)
      {
        if mem[it] == '-' {
          if it + 1 == |mem| { return LineFault; }
          if mem[it + 1] == '-' {
            if it + 2 == |mem| { return LineFault; }
            if mem[it + 2] == '\r' {
              if it + 3 == |mem| { return LineFault; }
              if mem[it + 3] == '\n' { return LineStop(it, true); }
            }
          }
        }
        if mem[it] == '\r' {
          if it + 1 == |mem| { return LineFault; }
          if mem[it + 1] == '\n' { break; }
        }
        it := it + 1;
      }
      return LineStop(it, false);
    }

    method ReadDelimiterEnd(mem: string, last: nat, start: nat) returns (it: nat, complete: bool)
      requires start <= last <= |mem|
      ensures (it, complete) == DelimiterEnd(mem, last, start)
    {
      it, complete := start, false;
      while it < last
        invariant start <= it <= last && !complete && DelimiterEnd(mem, last, start) == DelimiterEnd(mem, last, it)
      {
        if mem[it] != '-' && it + 2 <= last && mem[it] == '\r' && mem[it + 1] == '\n' {
          return it + 2, true;
        }
        it := it + 1;
      }
    }

    method ExtractBoundary(contentType: string) returns (boundary: Option<string>)
      ensures boundary == BoundaryOf(contentType)
    {
      var pos := Find(contentType, "boundary=", 0);
      if pos.None? { return None; }
      var value := contentType[pos.value..];
      var it := 8;  // past the word "boundary", which the text found starts with
      while it < |value|
        invariant 8 <= it <= |value| && SkipWhile(IsFiller, value, 8, |value|) == SkipWhile(IsFiller, value, it, |value|)
      {
        if value[it] != '=' && value[it] != '-' { break; }
        it := it + 1;
      }
      return Some(value[it..]);
    }

    method ParseMediaTypeBegin(mem: string, last: nat, start: nat, before: Option<HttpError>)
      returns (fault: bool, it: nat, ec: Option<HttpError>)
      requires last <= |mem|
      modifies this
      ensures fault <==> MediaBegin(Stage(old(View()), start, before), mem, last).StageFault?
      ensures !fault ==> MediaBegin(Stage(old(View()), start, before), mem, last) == Stage(View(), it, ec)
    {
      phase := InMediaType;
      fault, it, ec := false, start, before;
      if "content-type" !in headers { return; }
      var boundary := ExtractBoundary(headers["content-type"]);
      if boundary.None? { ec := Some(NoBoundary); return; }
      media := media.(boundary := boundary.value);
      if it + 4 > last { return; }
      assert mem[it..it + 4] == [mem[it], mem[it + 1], mem[it + 2], mem[it + 3]];
      if mem[it] == '\r' && mem[it + 1] == '\n' && mem[it + 2] == '\r' && mem[it + 3] == '\n' {
        it := it + 4;
      }
      media := media.(boundaryLength := |media.boundary|);
      it := SkipDashes(mem, last, it);
      fault, it, ec := ParseBoundaryHeader(mem, last, it, ec);
    }

    method ReadOpeningLine(mem: string, last: nat, start: nat) returns (r: Found)
      requires start <= last <= |mem| && media.boundaryLength <= |media.boundary|
      ensures r == OpeningLine(mem, last, start, media)
    {
      var found := VerifyBoundaryValue(mem, last, start, media.boundary, media.boundaryLength);
      if found.FoundFault? { return FoundFault; }
      var first := found.it;
      var line := ReadBoundaryLine(mem, last, first);
      if line.LineFault? { return FoundFault; }
      return Found(!line.closing && mem[first..line.it] == media.boundary, line.it);
    }

    // The boundary's line and the part's headers.
    method ParseBoundaryHeader(mem: string, last: nat, start: nat, before: Option<HttpError>)
      returns (fault: bool, it: nat, ec: Option<HttpError>)
      requires start <= last <= |mem| && media.boundaryLength <= |media.boundary|
      modifies this
      ensures fault <==> BoundaryHeader(old(View()), mem, last, start, before).StageFault?
      ensures !fault ==> BoundaryHeader(old(View()), mem, last, start, before) == Stage(View(), it, ec)
    {
      var line := ReadOpeningLine(mem, last, start);
      if line.FoundFault? { return true, 0, None; }
      if !line.found { return false, line.it, before; }
      fault, it, ec := ParsePartHeaders(mem, last, line.it + 2, before);
    }

    method ParsePartHeaders(mem: string, last: nat, start: nat, before: Option<HttpError>)
      returns (fault: bool, it: nat, ec: Option<HttpError>)
      requires last <= |mem|
      modifies this
      ensures fault <==> PartHeaders(old(View()), mem, last, start, before).StageFault?
      ensures !fault ==> PartHeaders(old(View()), mem, last, start, before) == Stage(View(), it, ec)
    {
      phase := if start + 2 > last then InHeaders else HeadersDone;
      var block := ParseMessageHeader(mem, last, start, map[], before);
      if block.BlockFault? { return true, 0, None; }
      if "content-type" !in block.headers { return false, block.it, block.ec; }
      media := media.(uploadHeaders := block.headers);
      return false, block.it + 4, block.ec;
    }

    method ParseMediaTypeMore(mem: string, last: nat, start: nat, ec: Option<HttpError>) returns (fault: bool, it: nat)
      requires last <= |mem|
      modifies this
      ensures fault <==> MediaMore(Stage(old(View()), start, ec), mem, last).StageFault?
      ensures !fault ==> MediaMore(Stage(old(View()), start, ec), mem, last) == Stage(View(), it, ec)
    {
      it := start;
      if "content-length" !in headers { return false, it; }
      if it == last { phase := MediaNeedMore; return false, it; }
      if it > last || media.boundaryLength > |media.boundary| { return true, it; }
      var found := VerifyBoundaryValue(mem, last, it, media.boundary, media.boundaryLength);
      if found.FoundFault? { return true, it; }
      var endReached := false;
      it := found.it;
      if found.found { it, endReached := ReadDelimiterEnd(mem, last, it); }
      media := media.(readed := media.readed + (it - start), buffer := media.buffer + mem[start..it]);
      if !endReached && media.readed < AsSize(Atoi(headers["content-length"])) {
        phase := MediaNeedMore;
        return false, it;
      }
      media := media.(uploads := media.uploads + [Upload(media.uploadHeaders, media.buffer)]);
      phase := MediaFinished;
      return false, it;
    }

    method MakeRequest(body: string, uploads: seq<Upload>) returns (r: Request)
      ensures r == Request(ToMethod(httpMethod), protocolVersion, target, headers, body, uploads)
    {
      return Request(ToMethod(httpMethod), protocolVersion, target, headers, body, uploads);
    }

    method Parse(mem: string, last: nat) returns (fault: bool, request: Option<Request>, ec: Option<HttpError>)
      requires last <= |mem|
      modifies this
      ensures fault <==> ParseCall(old(View()), mem, last).CallFault?
      ensures !fault ==> ParseCall(old(View()), mem, last) == Call(View(), request, ec)
    {
      if phase == NotStarted && last == 0 { return false, None, Some(NeedMore); }
      var it := 0;
      fault, ec := false, None;
      if phase == NotStarted {
        fault, it, ec := ParseStartLine(mem, last);
        if fault { return true, None, None; }
      }
      fault, request, ec := ParseBodyOn(mem, last, it, ec);
    }

    // `parse` after the start line.
    method ParseBodyOn(mem: string, last: nat, start: nat, before: Option<HttpError>)
      returns (fault: bool, request: Option<Request>, ec: Option<HttpError>)
      requires last <= |mem|
      modifies this
      ensures fault <==> AfterStartLine(Stage(old(View()), start, before), mem, last).CallFault?
      ensures !fault ==> AfterStartLine(Stage(old(View()), start, before), mem, last) == Call(View(), request, ec)
    {
      var it := start;
      fault, request, ec := false, None, before;
      if phase == ContentTypeDone && "content-length" in headers {
        if Atoi(headers["content-length"]) > 0 && it + 4 >= last {
          phase := BodyPending;
          return;
        }
      }
      if phase == ContentTypeDone || phase == BodyPending {
        if headerContentType in {ApplicationJson, FormUrlEncoded, NotSpecified} {
          if it > last { return true, None, None; }
          phase := Finished;
          var r := MakeRequest(mem[it..last], []);
          return false, Some(r), ec;
        }
        if headerContentType in {ImageJpeg, MultipartFormData} && phase == ContentTypeDone {
          fault, it, ec := ParseMediaTypeBegin(mem, last, it, ec);
          if fault { return; }
          fault, it := ParseMediaTypeMore(mem, last, it, ec);
          if fault { return; }
        }
      }
      fault, request, ec := ParseMediaOn(mem, last, it, ec);
    }

    // The end of `parse`: more media, and the request once the media is complete.
    method ParseMediaOn(mem: string, last: nat, start: nat, before: Option<HttpError>)
      returns (fault: bool, request: Option<Request>, ec: Option<HttpError>)
      requires last <= |mem|
      modifies this
      ensures fault <==> AfterMedia(Stage(old(View()), start, before), mem, last).CallFault?
      ensures !fault ==> AfterMedia(Stage(old(View()), start, before), mem, last) == Call(View(), request, ec)
    {
      fault, request, ec := false, None, before;
      var it := start;
      if phase == MediaNeedMore {
        fault, it := ParseMediaTypeMore(mem, last, it, ec);
        if fault { return; }
      }
      if phase == MediaFinished {
        phase := Finished;
        var r := MakeRequest("", media.uploads);
        return false, Some(r), ec;
      }
    }
  }
}
