/**
 Multipart bodies: the boundary scan is a substring search, the part's bytes are what the chunks
 held, and one upload comes out.
 */
module Multipart {
  import opened Text
  import opened CharClasses
  import opened StringUtils
  import opened HttpParser
  import opened ParserProofs
  import opened RequestHeaders
  import opened RequestProofs

  /* ---- The boundary scan ---- */

  // With a byte that is no dash, the count ends at the full length when nothing was reset or is still to be.
  lemma {:induction false} CountFull(mem: string, it: nat, b: string, c: nat, count: nat)
    requires count <= c <= |b| && it + |b| <= |mem| && it < |mem| && mem[it] != '-'
    ensures var n := MatchCount(mem, it, b, |b|, c, count);
      n <= count + |b| - c && (n == |b| <==> count == c && forall k :: c <= k < |b| ==> mem[it + k] == b[k])
    decreases |b| - c
  {
    if c < |b| { CountFull(mem, it, b, c + 1, if mem[it + c] != b[c] then 0 else count + 1); }
  }

  // At a dash nothing is counted.
  lemma {:induction false} CountDash(mem: string, it: nat, b: string, c: nat, count: nat)
    requires c <= |b| && it + |b| <= |mem| && it < |mem| && mem[it] == '-'
    ensures MatchCount(mem, it, b, |b|, c, count) <= count
    decreases |b| - c
  {
    if c < |b| { CountDash(mem, it, b, c + 1, if mem[it + c] != b[c] then 0 else count); }
  }

  // The count is full exactly where the boundary stands, unless the boundary starts with a dash.
  lemma CountIsOccurrence(mem: string, it: nat, b: string)
    requires b != [] && it + |b| <= |mem|
    ensures MatchCount(mem, it, b, |b|, 0, 0) == |b| <==> b[0] != '-' && Occurs(mem, b, it)
  {
    if mem[it] == '-' {
      CountDash(mem, it, b, 0, 0);
      if Occurs(mem, b, it) { assert mem[it..it + |b|][0] == b[0]; }
    } else {
      CountFull(mem, it, b, 0, 0);
      if forall k :: 0 <= k < |b| ==> mem[it + k] == b[k] {
        assert mem[it + 0] == b[0];
        assert mem[it..it + |b|] == b;
      } else {
        var k :| 0 <= k < |b| && mem[it + k] != b[k];
        assert mem[it..it + |b|][k] == mem[it + k];
      }
    }
  }

  // The scan finds the first place before the end where the boundary stands, if the memory is long enough;
  // a boundary with a leading dash is never found.
  lemma {:induction false} ScanIsSearch(mem: string, last: nat, it: nat, b: string)
    requires b != [] && last <= |mem|
    ensures var r := FindBoundary(mem, last, it, b, |b|);
      && (r.FoundFault? ==> |mem| < last - 1 + |b|)
      && (r.Found? ==> (r.found <==> b[0] != '-' && exists j: nat :: it <= j < last && Occurs(mem, b, j)))
      && (r.Found? && r.found ==> it <= r.it < last && Occurs(mem, b, r.it)
                                  && forall j: nat :: it <= j < r.it ==> !Occurs(mem, b, j))
    decreases last - it
  {
    hide MatchCount, Occurs;
    if it < last && it + |b| <= |mem| {
      CountIsOccurrence(mem, it, b);
      if MatchCount(mem, it, b, |b|, 0, 0) != |b| { ScanIsSearch(mem, last, it + 1, b); }
    }
  }

  // The boundary taken from a content type never has a leading dash.
  lemma BoundaryHasNoDash(contentType: string)
    ensures var b := BoundaryOf(contentType); b.Some? && b.value != [] ==> b.value[0] != '-' && b.value[0] != '='
  {
    var pos := Find(contentType, "boundary=", 0);
    if pos.Some? {
      var value := contentType[pos.value..];
      SkipStops(IsFiller, value, 8, |value|);
    }
  }

  // The part's data ends after the first CRLF at or behind the first boundary, if both are in the chunk.
  lemma ConsumeIs(mem: string, last: nat, it: nat, media: Media)
    requires it <= last <= |mem| && media.boundary != [] && media.boundary[0] != '-'
    requires media.boundaryLength == |media.boundary| && last + |media.boundary| <= |mem| + 1
    ensures var r := Consume(mem, last, it, media);
      && r.Consumed? && (!r.complete ==> r.end == last)
      && (r.complete <==> exists i: nat, j: nat {:trigger Occurs(mem, media.boundary, i), LineEnds(mem, last, j)} ::
            it <= i <= j && i < last && Occurs(mem, media.boundary, i) && LineEnds(mem, last, j))
      && (r.complete ==> exists i: nat ::
            && it <= i < last && i + 2 <= r.end && Occurs(mem, media.boundary, i) && LineEnds(mem, last, r.end - 2)
            && (forall j: nat :: it <= j < i ==> !Occurs(mem, media.boundary, j))
            && (forall j: nat :: i <= j < r.end - 2 ==> !LineEnds(mem, last, j)))
  {
    hide Occurs, LineEnds, FindBoundary, DelimiterEnd;
    ScanIsSearch(mem, last, it, media.boundary);
    var found := FindBoundary(mem, last, it, media.boundary, media.boundaryLength);
    if found.found { EndIsLineEnd(mem, last, found.it); }
  }

  predicate LineEnds(mem: string, last: nat, j: nat) {
    last <= |mem| && j + 2 <= last && mem[j] == '\r' && mem[j + 1] == '\n'
  }

  lemma {:induction false} EndIsLineEnd(mem: string, last: nat, it: nat)
    requires it <= last <= |mem|
    ensures var (end, complete) := DelimiterEnd(mem, last, it);
      && (!complete ==> end == last && forall j: nat :: it <= j ==> !LineEnds(mem, last, j))
      && (complete ==> end >= it + 2 && LineEnds(mem, last, end - 2)
                       && forall j: nat :: it <= j < end - 2 ==> !LineEnds(mem, last, j))
    decreases last - it
  {
    if it < last && !LineEnds(mem, last, it) { EndIsLineEnd(mem, last, it + 1); }
  }

  /* ---- Chunks ---- */

  // A parser that waits for more of a part's data.
  predicate Collecting(s: State) {
    && s.phase == MediaNeedMore && s.media.uploads == [] && s.media.readed == |s.media.buffer|
    && s.media.boundaryLength <= |s.media.boundary| && "content-length" in s.headers
  }

  // What of a buffer belongs to the part.
  function Taken(media: Media, b: Buffer): string
    requires b.last <= |b.mem| && media.boundaryLength <= |media.boundary|
  {
    var c := Consume(b.mem, b.last, 0, media);
    if c.ConsumedFault? then "" else b.mem[..c.end]
  }

  function AllTaken(media: Media, buffers: seq<Buffer>): string
    requires AreBuffers(buffers) && media.boundaryLength <= |media.boundary|
  {
    if buffers == [] then ""
    else AllTaken(media, buffers[..|buffers| - 1]) + Taken(media, buffers[|buffers| - 1])
  }

  predicate NoFaults(media: Media, buffers: seq<Buffer>)
    requires AreBuffers(buffers) && media.boundaryLength <= |media.boundary|
  {
    forall j :: 0 <= j < |buffers| ==> Consume(buffers[j].mem, buffers[j].last, 0, media).Consumed?
  }

  // With these buffers the part is complete: its delimiter line ended, or the announced length is reached.
  predicate Enough(s: State, buffers: seq<Buffer>)
    requires Collecting(s) && AreBuffers(buffers) && NoFaults(s.media, buffers)
  {
    buffers != [] &&
    var b := buffers[|buffers| - 1];
    b.last > 0 && (Consume(b.mem, b.last, 0, s.media).complete ||
                   |s.media.buffer| + |AllTaken(s.media, buffers)| >= AsSize(Atoi(s.headers["content-length"])))
  }

  function Collected(s: State, data: string): State {
    s.(media := s.media.(readed := |s.media.buffer| + |data|, buffer := s.media.buffer + data))
  }

  function Delivered(s: State): Request {
    Request(ToMethod(s.httpMethod), s.version, s.target, s.headers, "", s.media.uploads)
  }

  function Uploaded(s: State): State {
    s.(phase := Finished, media := s.media.(uploads := [Upload(s.media.uploadHeaders, s.media.buffer)]))
  }

  // One more buffer while collecting.
  lemma CollectOne(s: State, b: Buffer)
    requires Collecting(s) && b.last <= |b.mem| && Consume(b.mem, b.last, 0, s.media).Consumed?
    ensures var s1 := Collected(s, if b.last == 0 then "" else Taken(s.media, b));
      ParseCall(s, b.mem, b.last) ==
        if b.last > 0 && (Consume(b.mem, b.last, 0, s.media).complete ||
                          |s1.media.buffer| >= AsSize(Atoi(s.headers["content-length"])))
        then Call(Uploaded(s1), Some(Delivered(Uploaded(s1))), None) else Call(s1, None, None)
  {
    hide Consume, AsSize, Atoi, ToMethod, MediaMore, Taken;
    MoreOne(s, b);
    assert s.media.buffer + "" == s.media.buffer;
  }

  lemma MoreOne(s: State, b: Buffer)
    requires Collecting(s) && b.last <= |b.mem| && Consume(b.mem, b.last, 0, s.media).Consumed?
    ensures var c := Consume(b.mem, b.last, 0, s.media);
      var s1 := Collected(s, Taken(s.media, b));
      MediaMore(Stage(s, 0, None), b.mem, b.last) ==
        if b.last == 0 then Stage(s, 0, None)
        else if !c.complete && |s1.media.buffer| < AsSize(Atoi(s.headers["content-length"])) then Stage(s1, c.end, None)
        else Stage(Uploaded(s1).(phase := MediaFinished), c.end, None)
  {
    hide Consume, AsSize, Atoi;
    var c := Consume(b.mem, b.last, 0, s.media);
    assert b.mem[0..c.end] == b.mem[..c.end];
  }

  // While no buffer completes the part, its data is what the buffers held of it; the buffer that completes
  // it brings the request, with one upload of all that data.
  lemma {:induction false} ChunksAccumulate(s: State, buffers: seq<Buffer>)
    requires Collecting(s) && AreBuffers(buffers) && NoFaults(s.media, buffers)
    requires forall k :: 0 <= k < |buffers| ==> !Enough(s, buffers[..k])
    ensures var s1 := Collected(s, AllTaken(s.media, buffers));
      Calls(s, buffers) ==
        if Enough(s, buffers) then Run(Uploaded(s1), [Delivered(Uploaded(s1))]) else Run(s1, [])
  {
    hide Consume, AsSize, Atoi, ParseCall, Taken, Delivered;
    if buffers == [] {
      assert s.media.buffer + "" == s.media.buffer;
    } else {
      var n := |buffers| - 1;
      var before, b := buffers[..n], buffers[n];
      forall k | 0 <= k < n ensures !Enough(s, before[..k]) { assert before[..k] == buffers[..k]; }
      ChunksAccumulate(s, before);
      var s0 := Collected(s, AllTaken(s.media, before));
      SameBoundary(s, s0, b);
      CollectOne(s0, b);
      CollectOn(s, before, b, buffers);
    }
  }

  // What a buffer holds of the part does not depend on what was collected before.
  lemma SameBoundary(s: State, s0: State, b: Buffer)
    requires b.last <= |b.mem| && s.media.boundaryLength <= |s.media.boundary|
    requires s0.media.boundaryLength == s.media.boundaryLength && s0.media.boundary == s.media.boundary
    ensures Consume(b.mem, b.last, 0, s.media) == Consume(b.mem, b.last, 0, s0.media)
    ensures Taken(s.media, b) == Taken(s0.media, b)
  {
    hide FindBoundary, DelimiterEnd;
  }

  lemma CollectOn(s: State, before: seq<Buffer>, b: Buffer, buffers: seq<Buffer>)
    requires s.media.boundaryLength <= |s.media.boundary| && AreBuffers(buffers) && buffers != []
    requires before == buffers[..|buffers| - 1] && b == buffers[|buffers| - 1] && AreBuffers(before)
    ensures Collected(Collected(s, AllTaken(s.media, before)), if b.last == 0 then "" else Taken(s.media, b)) ==
      Collected(s, AllTaken(s.media, buffers))
  {
    hide Taken, Consume;
    NothingTaken(s.media, b);
    var t, u := AllTaken(s.media, before), Taken(s.media, b);
    assert AllTaken(s.media, buffers) == t + u;
    Regroup(s.media.buffer, t, u);
  }

  lemma Regroup(x: string, t: string, u: string)
    ensures (x + t) + u == x + (t + u) && |x + t| + |u| == |x| + |t + u|
  {
  }

  lemma NothingTaken(media: Media, b: Buffer)
    requires b.last <= |b.mem| && media.boundaryLength <= |media.boundary|
    ensures b.last == 0 ==> Taken(media, b) == ""
  {
  }

  // Over any run of a new parser: what was read of a part is what its buffer holds, there is at most one
  // upload, and it holds exactly that; whenever more is awaited the chunks accumulate as above.
  predicate Accounted(s: State) {
    && s.media.readed == |s.media.buffer| && s.media.boundaryLength <= |s.media.boundary|
    && (s.media.uploads == [] ||
        (s.phase in {MediaFinished, Finished} && s.media.uploads == [Upload(s.media.uploadHeaders, s.media.buffer)]))
    && (s.phase == MediaNeedMore ==> Collecting(s))
    && (s.phase in {NotStarted, ContentTypeDone} ==> s.media.boundaryLength == 0)
  }

  lemma StartAccounted(s: State, mem: string, last: nat)
    requires last <= |mem| && Accounted(s) && s.phase == NotStarted
    ensures var r := StartLine(s, mem, last); r.Stage? ==> Accounted(r.s) && r.s.media.uploads == []
  {
    hide MethodAt, TargetAt, ProtocolAt, HeaderBlock, ContentTypeOf;
  }

  lemma BeginAccounted(stage: Stage, mem: string, last: nat)
    requires last <= |mem| && stage.Stage? && Accounted(stage.s) && stage.s.phase == ContentTypeDone
    ensures var r := MediaBegin(stage, mem, last); r.Stage? ==> Accounted(r.s) && r.s.media.uploads == []
  {
    hide OpeningLine, HeaderBlock, BoundaryOf;
  }

  lemma MoreAccounted(stage: Stage, mem: string, last: nat)
    requires last <= |mem| && stage.Stage? && Accounted(stage.s) && stage.s.media.uploads == []
    ensures var r := MediaMore(stage, mem, last); r.Stage? ==> Accounted(r.s)
  {
    hide Consume, AsSize, Atoi;
  }

  lemma CallAccounted(s: State, mem: string, last: nat)
    requires last <= |mem| && Accounted(s)
    ensures var r := ParseCall(s, mem, last); r.Call? ==> Accounted(r.s)
  {
    hide StartLine, ContentLength, MediaMore, MediaBegin, Collecting;
    if s.phase == NotStarted {
      StartAccounted(s, mem, last);
      if last > 0 { StageAccounted(StartLine(s, mem, last), mem, last); }
    } else {
      StageAccounted(Stage(s, 0, None), mem, last);
    }
  }

  lemma StageAccounted(stage: Stage, mem: string, last: nat)
    requires last <= |mem| && (stage.Stage? ==> Accounted(stage.s))
    ensures var r := AfterStartLine(stage, mem, last); r.Call? ==> Accounted(r.s)
  {
    hide ContentLength, MediaMore, MediaBegin;
    if stage.Stage? && stage.s.phase == ContentTypeDone {
      BeginAccounted(stage, mem, last);
      var begun := MediaBegin(stage, mem, last);
      if begun.Stage? {
        MoreAccounted(begun, mem, last);
        var more := MediaMore(begun, mem, last);
        if more.Stage? && more.s.phase == MediaNeedMore { MoreAccounted(more, mem, last); }
      }
    }
    if stage.Stage? && stage.s.phase == MediaNeedMore { MoreAccounted(stage, mem, last); }
  }

  lemma {:induction false} RunAccounted(contentType: ContentType, buffers: seq<Buffer>)
    requires AreBuffers(buffers)
    ensures var r := Calls(Fresh(contentType), buffers); r.Run? ==> Accounted(r.s)
  {
    hide Accounted, ParseCall;
    if buffers == [] {
      FreshAccounted(contentType);
    } else {
      RunAccounted(contentType, buffers[..|buffers| - 1]);
      var before, b := Calls(Fresh(contentType), buffers[..|buffers| - 1]), buffers[|buffers| - 1];
      if before.Run? { CallAccounted(before.s, b.mem, b.last); }
    }
  }

  lemma FreshAccounted(contentType: ContentType)
    ensures Accounted(Fresh(contentType))
  {
  }

  /* ---- A printed multipart request ---- */

  lemma {:induction false} FirstBoundary(mem: string, last: nat, it: nat, b: string, i: nat)
    requires b != [] && b[0] != '-' && it <= i < last <= |mem| && Occurs(mem, b, i)
    requires forall j: nat :: it <= j < i ==> !Occurs(mem, b, j)
    ensures FindBoundary(mem, last, it, b, |b|) == Found(true, i)
    decreases i - it
  {
    hide MatchCount;
    CountIsOccurrence(mem, it, b);
    if it < i { FirstBoundary(mem, last, it + 1, b, i); }
  }

  lemma {:induction false} FirstLineEnd(mem: string, last: nat, it: nat, j: nat)
    requires it <= j && LineEnds(mem, last, j) && forall k :: it <= k < j ==> mem[k] != '\r'
    ensures DelimiterEnd(mem, last, it) == (j + 2, true)
    decreases j - it
  {
    if it < j { FirstLineEnd(mem, last, it + 1, j); }
  }

  // The opening boundary's line ends at its CRLF, unless two dashes stand right before that.
  lemma {:induction false} OpeningEnd(mem: string, last: nat, it: nat, j: nat)
    requires it <= j && LineEnds(mem, last, j) && forall k :: it <= k < j ==> mem[k] != '\r'
    requires it + 2 <= j ==> mem[j - 2] != '-' || mem[j - 1] != '-'
    ensures BoundaryLine(mem, last, it) == LineStop(j, false)
    decreases j - it
  {
    if it < j { OpeningEnd(mem, last, it + 1, j); }
  }

  // A boundary: its characters may stand in a header, it has no leading dash and does not end in two.
  predicate IsBoundary(b: string) {
    && b != [] && b[0] != '-' && (forall k :: 0 <= k < |b| ==> IsPrint(b[k]))
    && (|b| >= 2 ==> b[|b| - 2] != '-' || b[|b| - 1] != '-')
  }

  predicate AreDashes(d: string) { forall k :: 0 <= k < |d| ==> d[k] == '-' }

  // The closing delimiter's line.
  function Closing(b: string): string { CRLF + ("--" + (b + ("--" + CRLF))) }

  // One part: the boundary's line, the part's fields, a blank line, and the rest.
  function PrintPart(d: string, b: string, part: seq<Field>, rest: string): string {
    d + (b + (CRLF + PrintFields(part, 0, CRLF + rest)))
  }

  lemma OpeningReads(a: string, b: string, rest: string, mem: string, media: Media)
    requires IsBoundary(b) && mem == a + (b + (CRLF + rest)) && media.boundary == b && media.boundaryLength == |b|
    ensures OpeningLine(mem, |mem|, |a|, media) == Found(true, |a| + |b|)
  {
    hide FindBoundary, BoundaryLine;
    TextAt(a, b, CRLF + rest, mem);
    Shift(a, b, CRLF + rest, mem);
    CrlfAt(a + b, rest, mem);
    FirstBoundary(mem, |mem|, |a|, b, |a|);
    forall k | |a| <= k < |a| + |b| ensures mem[k] != '\r' { assert mem[|a| + (k - |a|)] == b[k - |a|]; }
    if |b| >= 2 { assert mem[|a| + (|b| - 2)] == b[|b| - 2] && mem[|a| + (|b| - 1)] == b[|b| - 1]; }
    OpeningEnd(mem, |mem|, |a|, |a| + |b|);
  }

  // The part's data and its closing line are consumed together.
  lemma ClosingReads(a: string, data: string, b: string, epilogue: string, mem: string, media: Media)
    requires IsBoundary(b) && mem == a + (data + (Closing(b) + epilogue))
    requires media.boundary == b && media.boundaryLength == |b|
    requires forall j: nat :: j < |data| + 4 ==> !Occurs(data + (Closing(b) + epilogue), b, j)
    ensures Consume(mem, |mem|, |a|, media) == Consumed(|a| + |data| + |Closing(b)|, true)
  {
    hide FindBoundary, DelimiterEnd, Occurs;
    var rest := data + (Closing(b) + epilogue);
    var pre := a + data + CRLF + "--";
    assert mem == pre + (b + ("--" + (CRLF + epilogue))) && mem == (pre + b + "--") + (CRLF + epilogue);
    OccursHere(pre, b, "--" + (CRLF + epilogue), mem);
    forall j: nat | |a| <= j < |pre| ensures !Occurs(mem, b, j) { OccursShift(a, rest, b, j - |a|); }
    FirstBoundary(mem, |mem|, |a|, b, |pre|);
    CrlfAt(pre + b + "--", epilogue, mem);
    forall k | |pre| <= k < |pre| + |b| + 2 ensures mem[k] != '\r' {
      assert mem[k] == (b + "--")[k - |pre|];
    }
    FirstLineEnd(mem, |mem|, |pre|, |pre| + |b| + 2);
  }

  lemma OccursHere(a: string, b: string, rest: string, mem: string)
    requires mem == a + (b + rest)
    ensures Occurs(mem, b, |a|)
  {
    TextAt(a, b, rest, mem);
  }

  // The media fields once a part's opening is read.
  function Opened(s: State, b: string, part: seq<Field>): State {
    s.(phase := HeadersDone,
       media := s.media.(boundary := b, boundaryLength := |b|, uploadHeaders := FieldMap(part, |part|)))
  }

  lemma BeginAt(mem: string, stage: Stage, b: string, it: nat)
    requires stage.Stage? && stage.it + 4 <= |mem| && mem[stage.it..stage.it + 4] == "\r\n\r\n"
    requires "content-type" in stage.s.headers && BoundaryOf(stage.s.headers["content-type"]) == Some(b)
    requires SkipWhile(IsDash, mem, stage.it + 4, |mem|) == it
    ensures MediaBegin(stage, mem, |mem|) ==
      BoundaryHeader(stage.s.(phase := InMediaType, media := stage.s.media.(boundary := b, boundaryLength := |b|)),
                     mem, |mem|, it, stage.ec)
  {
    hide BoundaryHeader, BoundaryOf, SkipWhile;
  }

  lemma PartStarts(p: string, d: string, b: string, tail: string, mem: string)
    requires IsBoundary(b) && AreDashes(d) && mem == p + ((CRLF + CRLF) + (d + (b + tail)))
    ensures mem[|p|..|p| + 4] == "\r\n\r\n" && SkipWhile(IsDash, mem, |p| + 4, |mem|) == |p| + 4 + |d|
    ensures mem == (p + (CRLF + CRLF) + d) + (b + tail)
  {
    TextAt(p, CRLF + CRLF, d + (b + tail), mem);
    Shift(p, CRLF + CRLF, d + (b + tail), mem);
    SkipOver(IsDash, p + (CRLF + CRLF), d, b + tail, mem);
    Shift(p + (CRLF + CRLF), d, b + tail, mem);
  }

  lemma HeaderOn(mem: string, last: nat, s: State, it: nat, end: nat, headers: Headers, next: nat)
    requires it <= last <= |mem| && s.media.boundaryLength <= |s.media.boundary| && end + 4 <= last
    requires OpeningLine(mem, last, it, s.media) == Found(true, end) && "content-type" in headers
    requires HeaderBlock(mem, last, end + 2, map[], None) == Block(headers, next, None)
    ensures BoundaryHeader(s, mem, last, it, None) ==
      Stage(s.(phase := HeadersDone, media := s.media.(uploadHeaders := headers)), next + 4, None)
  {
    hide OpeningLine, HeaderBlock;
  }

  lemma {:induction false} HeadersBegin(a: string, b: string, part: seq<Field>, rest: string, mem: string, s: State)
    requires IsBoundary(b) && part != [] && AreFields(part) && s.media.boundary == b && s.media.boundaryLength == |b|
    requires mem == a + (b + (CRLF + PrintFields(part, 0, CRLF + rest)))
    requires "content-type" in FieldMap(part, |part|)
    ensures |rest| <= |mem|
    ensures BoundaryHeader(s, mem, |mem|, |a|, None) == Stage(Opened(s, b, part), |mem| - |rest|, None)
  {
    hide OpeningLine, HeaderBlock, BoundaryHeader, FieldMap, IsBoundary, AreFields, PrintFields, IsField;
    OpeningReads(a, b, PrintFields(part, 0, CRLF + rest), mem, s.media);
    PartFieldsRead(a, b, part, rest, mem);
    HeaderOn(mem, |mem|, s, |a|, |a| + |b|, FieldMap(part, |part|), |mem| - |rest| - 4);
  }

  lemma PartFieldsRead(a: string, b: string, part: seq<Field>, rest: string, mem: string)
    requires part != [] && AreFields(part) && mem == a + (b + (CRLF + PrintFields(part, 0, CRLF + rest)))
    ensures |a| + |b| + 4 <= |mem| && |rest| + 4 <= |mem|
    ensures HeaderBlock(mem, |mem|, |a| + |b| + 2, map[], None) ==
      Block(FieldMap(part, |part|), |mem| - |rest| - 4, None)
  {
    hide HeaderBlock, FieldMap, PrintFields;
    Shift(a, b, CRLF + PrintFields(part, 0, CRLF + rest), mem);
    Shift(a + b, CRLF, PrintFields(part, 0, CRLF + rest), mem);
    BlockRoundTrip(a + b + CRLF, part, rest, mem, None);
    BlockIsLong(part, rest);
  }

  lemma BlockIsLong(part: seq<Field>, rest: string)
    requires part != []
    ensures |PrintFields(part, 0, CRLF + rest)| >= 2
  {
  }

  // A part's opening: the parser takes the boundary from the content type and stands at the part's data.
  lemma PartBegins(p: string, d: string, b: string, part: seq<Field>, rest: string, mem: string, stage: Stage)
    requires IsBoundary(b) && AreDashes(d) && part != [] && AreFields(part)
    requires mem == p + ((CRLF + CRLF) + PrintPart(d, b, part, rest)) && stage.Stage? && stage.it == |p|
    requires "content-type" in stage.s.headers && BoundaryOf(stage.s.headers["content-type"]) == Some(b)
    requires "content-type" in FieldMap(part, |part|) && stage.ec == None
    ensures |rest| <= |mem| && MediaBegin(stage, mem, |mem|) == Stage(Opened(stage.s, b, part), |mem| - |rest|, None)
  {
    hide BoundaryOf, BoundaryHeader, FieldMap, IsBoundary, AreFields, MediaBegin;
    var tail := CRLF + PrintFields(part, 0, CRLF + rest);
    PartStarts(p, d, b, tail, mem);
    BeginAt(mem, stage, b, |p| + 4 + |d|);
    HeadersBegin(p + (CRLF + CRLF) + d, b, part, rest, mem,
                 stage.s.(phase := InMediaType, media := stage.s.media.(boundary := b, boundaryLength := |b|)));
  }

  // The media state when the part's data is complete.
  lemma MoreEnds(mem: string, s: State, it: nat, end: nat)
    requires it < end <= |mem| && s.media.boundaryLength <= |s.media.boundary| && "content-length" in s.headers
    requires Consume(mem, |mem|, it, s.media) == Consumed(end, true)
    ensures var r := MediaMore(Stage(s, it, None), mem, |mem|);
      r.Stage? && r.ec == None && r.s == s.(phase := MediaFinished, media := r.s.media) &&
      r.s.media.uploads == s.media.uploads + [Upload(s.media.uploadHeaders, s.media.buffer + mem[it..end])]
  {
    hide Consume, AsSize, Atoi;
  }

  lemma PartReads(p: string, d: string, b: string, part: seq<Field>, data: string, epilogue: string, mem: string,
                  stage: Stage)
    requires IsBoundary(b) && AreDashes(d) && part != [] && AreFields(part)
    requires mem == p + ((CRLF + CRLF) + PrintPart(d, b, part, data + (Closing(b) + epilogue)))
    requires stage.Stage? && stage.it == |p| && stage.ec == None && "content-length" in stage.s.headers
    requires "content-type" in stage.s.headers && BoundaryOf(stage.s.headers["content-type"]) == Some(b)
    requires "content-type" in FieldMap(part, |part|) && stage.s.media == Media([], 0, "", "", 0, map[])
    requires forall j: nat :: j < |data| + 4 ==> !Occurs(data + (Closing(b) + epilogue), b, j)
    ensures var r := MediaFirst(stage, mem, |mem|);
      r.Stage? && r.ec == None && r.s == stage.s.(phase := MediaFinished, media := r.s.media) &&
      r.s.media.uploads == [Upload(FieldMap(part, |part|), data + Closing(b))]
  {
    hide MediaBegin, MediaMore, Consume, FieldMap, BoundaryOf, Occurs, IsBoundary, AreDashes, AreFields, Closing, PrintPart;
    var rest, end := data + (Closing(b) + epilogue), data + Closing(b);
    PartBegins(p, d, b, part, rest, mem, stage);
    PartEnds(p, d, b, part, rest, mem);
    var a, s := mem[..|mem| - |rest|], Opened(stage.s, b, part);
    ClosingReads(a, data, b, epilogue, mem, s.media);
    DataBetween(a, data, b, epilogue, mem);
    MoreEnds(mem, s, |a|, |a| + |end|);
    assert [] + end == end;
  }

  lemma DataBetween(a: string, data: string, b: string, epilogue: string, mem: string)
    requires mem == a + (data + (Closing(b) + epilogue))
    ensures Closing(b) != [] && |a| + |data + Closing(b)| <= |mem|
    ensures mem[|a|..|a| + |data + Closing(b)|] == data + Closing(b)
  {
    assert mem == a + ((data + Closing(b)) + epilogue);
    TextAt(a, data + Closing(b), epilogue, mem);
  }

  lemma PartEnds(p: string, d: string, b: string, part: seq<Field>, rest: string, mem: string)
    requires mem == p + ((CRLF + CRLF) + PrintPart(d, b, part, rest))
    ensures |rest| <= |mem| && mem == mem[..|mem| - |rest|] + rest
  {
    FieldsSplit([], part, |part|, CRLF + rest, PrintFields(part, 0, CRLF + rest));
    var u := Upto([], part, |part|);
    assert mem == (p + CRLF + CRLF + d + b + CRLF + u + CRLF) + rest;
  }

  // A printed multipart request in one buffer comes back with one upload: the part's fields and its bytes,
  // which here include the closing delimiter's line.
  lemma MultipartRoundTrip(m: string, t: string, fields: seq<Field>, d: string, b: string, part: seq<Field>,
                           data: string, epilogue: string, contentType: ContentType)
    requires IsMethod(m) && IsTarget(t) && fields != [] && AreFields(fields)
    requires IsBoundary(b) && AreDashes(d) && part != [] && AreFields(part)
    requires AnnouncesMedia(fields, b) && ValueOf(part, TYPE).Some?
    requires forall j: nat :: j < |data| + 4 ==> !Occurs(data + (Closing(b) + epilogue), b, j)
    ensures var mem := PrintRequest(m, t, fields, PrintPart(d, b, part, data + (Closing(b) + epilogue)));
      var r := ParseCall(Fresh(contentType), mem, |mem|);
      r.Call? && r.s.phase == Finished && r.ec == None &&
      r.request == Some(Request(ToMethod(m), 11, t, FieldMap(fields, |fields|), "",
                                [Upload(FieldMap(part, |part|), data + Closing(b))]))
  {
    hide StartLine, PrintRequest, AreFields, IsMethod, IsTarget, FieldMap, ContentTypeOf, ContentLength, MediaFirst,
      BoundaryOf, Occurs, IsBoundary, AreDashes, PrintPart, Closing, MediaMore, ToMethod, AnnouncesMedia, ValueOf;
    MediaKeys(fields, b);
    TypeKey(part);
    var payload := PrintPart(d, b, part, data + (Closing(b) + epilogue));
    var mem := PrintRequest(m, t, fields, payload);
    StartsRequest(m, t, fields, payload, contentType);
    var it := |mem| - |payload| - 4;
    var stage := Stage(Started(m, t, fields, contentType), it, None);
    assert StartLine(Fresh(contentType), mem, |mem|) == stage;
    assert mem == mem[..it] + ((CRLF + CRLF) + payload);
    PartIsNotEmpty(d, b, part, data + (Closing(b) + epilogue));
    PartReads(mem[..it], d, b, part, data, epilogue, mem, stage);
    MediaEnds(stage, mem);
  }

  lemma PartIsNotEmpty(d: string, b: string, part: seq<Field>, rest: string)
    ensures PrintPart(d, b, part, rest) != []
  {
  }

  lemma MediaEnds(stage: Stage, mem: string)
    requires stage.Stage? && stage.s.phase == ContentTypeDone && IsMediaType(stage.s.contentType)
    requires stage.it + 4 < |mem| && MediaFirst(stage, mem, |mem|).Stage?
    requires MediaFirst(stage, mem, |mem|).s.phase == MediaFinished
    ensures var media := MediaFirst(stage, mem, |mem|);
      var s := media.s.(phase := Finished);
      AfterStartLine(stage, mem, |mem|) == Call(s, Some(Delivered(s)), media.ec)
  {
    hide ContentLength, MediaFirst, MediaMore, ToMethod;
  }

  // A content type as clients write it, with any dashes before the boundary.
  function Written(d: string, b: string): string { MEDIA + (";" + (" " + (WORD + (d + b)))) }

  const MEDIA := "multipart/form-data"

  lemma WrittenContentType(d: string, b: string)
    requires IsBoundary(b) && b[0] != '=' && AreDashes(d)
    ensures NamesBoundary(Written(d, b), b) && HasType(Written(d, b), "multipart/form-data")
    ensures BoundaryOf(Written(d, b)) == Some(b)
    ensures ContentTypeOf(map["content-type" := Written(d, b)]) == MultipartFormData
  {
    hide BoundaryOf, Tokens, NamesBoundary;
    var more := " " + (WORD + (d + b));
    assert MEDIA + ";" <= Written(d, b) by { assert Written(d, b) == (MEDIA + ";") + more; }
    assert Free(MEDIA, ';');
    HasTypeIff(Written(d, b), MEDIA);
    WrittenNames(d, b);
    BoundaryIs(Written(d, b), b);
  }

  lemma WrittenNames(d: string, b: string)
    requires IsBoundary(b) && b[0] != '=' && AreDashes(d)
    ensures NamesBoundary(Written(d, b), b)
  {
    hide Occurs;
    var pre, value := MEDIA + ";" + " ", Written(d, b);
    assert value == pre + (WORD + (d + b));
    forall j: nat | j < |pre| ensures !Occurs(value, WORD, j) { NotYet(pre, WORD + (d + b), value, j); }
    assert IsFill(d);
  }

  lemma NotYet(pre: string, rest: string, value: string, j: nat)
    requires pre == MEDIA + ";" + " " && j < |pre| && value == pre + rest && rest != []
    ensures !Occurs(value, WORD, j)
  {
    assert pre[j] != 'b' && value[j] == pre[j];
    if j + |WORD| <= |value| { assert value[j..j + |WORD|][0] == value[j]; }
  }

  // What follows the first semicolon of a content type does not matter to what it is.
  lemma ParametersIgnored(t: string, parameters: string, headers: Headers)
    requires Free(t, ';')
    ensures ContentTypeOf(headers["content-type" := t + (";" + parameters)]) == ContentTypeOf(headers["content-type" := t])
  {
    hide Tokens;
    TypeFirst(t, ";" + parameters);
    TypeFirst(t, "");
    assert t + "" == t;
  }
}
