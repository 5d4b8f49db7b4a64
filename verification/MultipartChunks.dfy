/**
 A multipart request whose part's data is spread over any number of buffers: when it is delivered, and with what,
 said by the bytes received, the boundary and the announced length alone.
 */
module MultipartChunks {
  import opened Text
  import opened HttpParser
  import opened ParserProofs
  import opened RequestHeaders
  import opened RequestProofs
  import opened Multipart
  import opened MultipartCuts

  /* ---- One chunk ---- */

  // The scan for the boundary stays inside the memory: it is long enough, or the boundary stands in the chunk.
  ghost predicate Readable(c: Buffer, b: string) {
    && c.last <= |c.mem|
    && (c.last == 0 || c.last + |b| <= |c.mem| + 1 || exists i: nat :: i < c.last && Occurs(c.mem, b, i))
  }

  // The boundary starts in the chunk, and at or behind its start a line ends in the chunk.
  ghost predicate HasClosing(c: Buffer, b: string) {
    exists i: nat, j: nat {:trigger Occurs(c.mem, b, i), LineEnds(c.mem, c.last, j)} ::
      i < c.last && i <= j && Occurs(c.mem, b, i) && LineEnds(c.mem, c.last, j)
  }

  ghost predicate FirstAt(c: Buffer, b: string, i: nat) {
    Occurs(c.mem, b, i) && forall j: nat :: j < i ==> !Occurs(c.mem, b, j)
  }

  // The first line end at or behind i ends right before e.
  ghost predicate FirstEnd(c: Buffer, i: nat, e: nat) {
    i + 2 <= e <= c.last <= |c.mem| && LineEnds(c.mem, c.last, e - 2) &&
    forall j: nat :: i <= j < e - 2 ==> !LineEnds(c.mem, c.last, j)
  }

  // The line of the first boundary ends right before e.
  ghost predicate ClosesAt(c: Buffer, b: string, e: nat) { exists i: nat :: FirstAt(c, b, i) && FirstEnd(c, i, e) }

  // A chunk that can be read and has no closing line.
  ghost predicate Plain(c: Buffer, b: string) { Readable(c, b) && !HasClosing(c, b) }

  function Received(c: Buffer): string
    requires c.last <= |c.mem|
  {
    c.mem[..c.last]
  }

  // There is one such place at most.
  lemma ClosesOnce(c: Buffer, b: string, e: nat, e': nat)
    requires ClosesAt(c, b, e) && ClosesAt(c, b, e')
    ensures e == e' <= c.last <= |c.mem|
  {
    hide FirstAt, FirstEnd;
    var i: nat :| FirstAt(c, b, i) && FirstEnd(c, i, e);
    var i': nat :| FirstAt(c, b, i') && FirstEnd(c, i', e');
    FirstOnce(c, b, i, i');
    EndOnce(c, i, e, e');
  }

  lemma FirstOnce(c: Buffer, b: string, i: nat, i': nat)
    requires FirstAt(c, b, i) && FirstAt(c, b, i')
    ensures i == i'
  {
    hide Occurs;
  }

  lemma EndOnce(c: Buffer, i: nat, e: nat, e': nat)
    requires FirstEnd(c, i, e) && FirstEnd(c, i, e')
    ensures e == e' <= c.last <= |c.mem|
  {
    hide LineEnds;
  }

  // What the parser takes of a chunk: up to the end of the first boundary's line, or all of it.
  lemma ChunkTaken(c: Buffer, media: Media)
    requires c.last <= |c.mem| && IsBoundary(media.boundary) && media.boundaryLength == |media.boundary|
    ensures var r := Consume(c.mem, c.last, 0, media);
      && (r.Consumed? <==> Readable(c, media.boundary))
      && (r.Consumed? ==> (r.complete <==> HasClosing(c, media.boundary)))
      && (r.Consumed? && !r.complete ==> r.end == c.last && Taken(media, c) == Received(c))
      && (r.Consumed? && r.complete ==> ClosesAt(c, media.boundary, r.end) && r.end <= c.last &&
                                        Taken(media, c) == c.mem[..r.end])
  {
    hide Occurs, FindBoundary, DelimiterEnd, IsBoundary, LineEnds;
    var b := media.boundary;
    BoundaryStarts(b);
    FindFirst(c.mem, b, 0);
    var first := Find(c.mem, b, 0);
    if first.Some? && first.value < c.last {
      FirstBoundary(c.mem, c.last, 0, b, first.value);
      EndIsLineEnd(c.mem, c.last, first.value);
      assert FirstAt(c, b, first.value);
    } else {
      NotFound(c, b);
    }
  }

  // Without the boundary, the scan reaches the end or leaves the memory.
  lemma NotFound(c: Buffer, b: string)
    requires b != [] && c.last <= |c.mem| && forall j: nat :: j < c.last ==> !Occurs(c.mem, b, j)
    ensures FindBoundary(c.mem, c.last, 0, b, |b|) ==
      if c.last == 0 || c.last + |b| <= |c.mem| + 1 then Found(false, c.last) else FoundFault
  {
    hide Occurs, FindBoundary;
    NotFoundFrom(c.mem, c.last, 0, b);
  }

  lemma {:induction false} NotFoundFrom(mem: string, last: nat, it: nat, b: string)
    requires b != [] && it <= last <= |mem| && forall j: nat :: j < last ==> !Occurs(mem, b, j)
    ensures FindBoundary(mem, last, it, b, |b|) ==
      if it == last || last + |b| <= |mem| + 1 then Found(false, last) else FoundFault
    decreases last - it
  {
    hide Occurs, MatchCount;
    if it < last && it + |b| <= |mem| {
      CountIsOccurrence(mem, it, b);
      NotFoundFrom(mem, last, it + 1, b);
    }
  }

  /* ---- Any number of chunks ---- */

  function Texts(chunks: seq<Buffer>): string
    requires AreBuffers(chunks)
  {
    if chunks == [] then "" else Texts(chunks[..|chunks| - 1]) + Received(chunks[|chunks| - 1])
  }

  // The part is complete: its last chunk holds the closing line, or the announced length is received.
  ghost predicate Ends(chunks: seq<Buffer>, b: string, total: nat)
    requires AreBuffers(chunks)
  {
    && chunks != [] && chunks[|chunks| - 1].last > 0
    && (HasClosing(chunks[|chunks| - 1], b) || |Texts(chunks)| >= total)
  }

  // The chunks up to the first that completes the part, or all of them; the scan stays inside the memory.
  ghost predicate Arriving(chunks: seq<Buffer>, b: string, total: nat) {
    && chunks != [] && AreBuffers(chunks) && (forall i :: 0 <= i < |chunks| ==> Readable(chunks[i], b))
    && forall i :: 0 < i < |chunks| ==> !Ends(chunks[..i], b, total)
  }

  // What the last chunk adds to the part's data, if its closing line ends at e.
  ghost function LastText(c: Buffer, b: string, e: nat): string
    requires c.last <= |c.mem|
  {
    if HasClosing(c, b) && e <= c.last then c.mem[..e] else Received(c)
  }

  // The part's data, if the last chunk's closing line ends at e.
  ghost function Data(chunks: seq<Buffer>, b: string, e: nat): string
    requires chunks != [] && AreBuffers(chunks)
  {
    Texts(chunks[..|chunks| - 1]) + LastText(chunks[|chunks| - 1], b, e)
  }

  // The place where the last chunk's closing line ends, if it has one.
  ghost predicate LastCloses(chunks: seq<Buffer>, b: string, e: nat)
    requires chunks != []
  {
    HasClosing(chunks[|chunks| - 1], b) ==> ClosesAt(chunks[|chunks| - 1], b, e)
  }

  lemma {:induction false} PlainAllTaken(chunks: seq<Buffer>, media: Media)
    requires AreBuffers(chunks) && IsBoundary(media.boundary) && media.boundaryLength == |media.boundary|
    requires forall i :: 0 <= i < |chunks| ==> Plain(chunks[i], media.boundary)
    ensures AllTaken(media, chunks) == Texts(chunks) && NoFaults(media, chunks)
  {
    hide Readable, HasClosing, Consume, Taken, Received, IsBoundary;
    if chunks != [] {
      var n := |chunks| - 1;
      PlainAllTaken(chunks[..n], media);
      ChunkTaken(chunks[n], media);
      NoFaultsOneMore(media, chunks);
    }
  }

  lemma NoFaultsOneMore(media: Media, chunks: seq<Buffer>)
    requires AreBuffers(chunks) && chunks != [] && media.boundaryLength <= |media.boundary|
    requires NoFaults(media, chunks[..|chunks| - 1])
    requires var c := chunks[|chunks| - 1]; Consume(c.mem, c.last, 0, media).Consumed?
    ensures NoFaults(media, chunks)
  {
    hide Consume;
    forall j | 0 <= j < |chunks| ensures Consume(chunks[j].mem, chunks[j].last, 0, media).Consumed? {
      if j < |chunks| - 1 { assert chunks[..|chunks| - 1][j] == chunks[j]; }
    }
  }

  // All chunks before the last are plain.
  lemma EarlierArePlain(chunks: seq<Buffer>, b: string, total: nat)
    requires Arriving(chunks, b, total)
    ensures forall i :: 0 <= i < |chunks| - 1 ==> Plain(chunks[i], b)
  {
    hide Readable, HasClosing, Texts;
    forall i | 0 <= i < |chunks| - 1 ensures Plain(chunks[i], b) {
      var front := chunks[..i + 1];
      assert !Ends(front, b, total) && front[|front| - 1] == chunks[i];
      if chunks[i].last == 0 { NothingCloses(chunks[i], b); }
    }
  }

  lemma NothingCloses(c: Buffer, b: string)
    requires c.last == 0
    ensures !HasClosing(c, b)
  {
    hide Occurs, LineEnds;
  }

  // The parser of a form that waits for its part's data, nothing of which it has.
  ghost predicate Waits(s: State, b: string, total: nat) {
    && Collecting(s) && s.media.buffer == "" && s.media.boundary == b && s.media.boundaryLength == |b| && IsBoundary(b)
    && AsSize(Atoi(s.headers["content-length"])) == total
  }

  lemma EnoughIff(s: State, chunks: seq<Buffer>, b: string, total: nat)
    requires Waits(s, b, total) && AreBuffers(chunks) && NoFaults(s.media, chunks)
    requires forall i :: 0 <= i < |chunks| - 1 ==> Plain(chunks[i], b)
    ensures Enough(s, chunks) <==> Ends(chunks, b, total)
  {
    hide Plain, HasClosing, Readable, Consume, Taken, Received, AsSize, Atoi, IsBoundary;
    if chunks != [] {
      var n := |chunks| - 1;
      ChunkTaken(chunks[n], s.media);
      PlainAllTaken(chunks[..n], s.media);
    }
  }

  lemma ArrivingTaken(s: State, chunks: seq<Buffer>, b: string, total: nat, e: nat)
    requires Waits(s, b, total) && Arriving(chunks, b, total)
    requires LastCloses(chunks, b, e)
    ensures NoFaults(s.media, chunks) && (forall k :: 0 <= k < |chunks| ==> !Enough(s, chunks[..k]))
    ensures Enough(s, chunks) <==> Ends(chunks, b, total)
    ensures AllTaken(s.media, chunks) == Data(chunks, b, e)
  {
    hide Plain, HasClosing, Readable, Consume, Taken, Received, AsSize, Atoi, IsBoundary, Enough, NoFaults, ClosesAt, Ends;
    var n := |chunks| - 1;
    EarlierArePlain(chunks, b, total);
    PlainAllTaken(chunks[..n], s.media);
    ChunkTaken(chunks[n], s.media);
    NoFaultsOneMore(s.media, chunks);
    EnoughIff(s, chunks, b, total);
    forall k | 0 <= k < |chunks| ensures NoFaults(s.media, chunks[..k]) && !Enough(s, chunks[..k]) {
      PlainAllTaken(chunks[..k], s.media);
      EnoughIff(s, chunks[..k], b, total);
      NothingEnds(b, total);
    }
    var r := Consume(chunks[n].mem, chunks[n].last, 0, s.media);
    if r.complete { ClosesOnce(chunks[n], b, e, r.end); }
  }

  lemma NothingEnds(b: string, total: nat)
    ensures !Ends([], b, total)
  {
  }

  /* ---- When a request is delivered, and with what ---- */

  // What a form with this data in its part brings: one request with one upload.
  function Whole(f: Form, data: string): Request {
    Request(ToMethod(f.m), 11, f.t, FieldMap(f.fields, |f.fields|), "", [Upload(FieldMap(f.part, |f.part|), data)])
  }

  // The first buffer holds the printed form up to its part's data, and perhaps more.
  predicate Reaches(f: Form, first: Buffer) {
    DataStart(f) <= first.last <= |first.mem| && Agrees(first.mem, Printed(f, ""), DataStart(f))
  }

  // What the buffers hold of the part's data and what follows it.
  function Chunks(f: Form, first: Buffer, later: seq<Buffer>): (chunks: seq<Buffer>)
    requires Reaches(f, first) && AreBuffers(later)
    ensures chunks != [] && AreBuffers(chunks) && AreBuffers([first] + later)
  {
    [Behind(first, DataStart(f))] + later
  }

  lemma WaitingRun(s: State, chunks: seq<Buffer>, b: string, total: nat, e: nat)
    requires Waits(s, b, total) && Arriving(chunks, b, total) && LastCloses(chunks, b, e)
    ensures var s1 := Collected(s, Data(chunks, b, e));
      Calls(s, chunks) ==
        if Ends(chunks, b, total) then Run(Uploaded(s1), [Delivered(Uploaded(s1))]) else Run(s1, [])
  {
    hide Calls, AsSize, Atoi, Enough, IsBoundary, NoFaults, AllTaken, Ends, LastCloses, Data, Delivered, Texts, Readable;
    ArrivingTaken(s, chunks, b, total, e);
    ChunksAccumulate(s, chunks);
  }

  lemma WholeIs(f: Form, contentType: ContentType, data: string)
    ensures var s1 := Collected(Waiting(f, contentType), data);
      s1.phase != Finished && Uploaded(s1).phase == Finished && Delivered(Uploaded(s1)) == Whole(f, data)
  {
    hide FieldMap, ToMethod;
    assert "" + data == data;
  }

  // Nothing comes out before the part is complete: its closing line in one buffer, or as many bytes as the fields
  // announce. Then the request comes out, with one upload: the bytes of all buffers, up to the closing line's end.
  lemma {:induction false} ChunksDecide(f: Form, first: Buffer, later: seq<Buffer>, total: nat, e: nat, contentType: ContentType)
    requires IsForm(f) && Limit(f.fields, total) && Reaches(f, first) && AreBuffers(later)
    requires Arriving(Chunks(f, first, later), f.b, total) && LastCloses(Chunks(f, first, later), f.b, e)
    ensures var chunks := Chunks(f, first, later);
      var r := Calls(Fresh(contentType), [first] + later);
      && r.Run? && (r.s.phase == Finished <==> Ends(chunks, f.b, total))
      && r.requests == if Ends(chunks, f.b, total) then [Whole(f, Data(chunks, f.b, e))] else []
  {
    hide Calls, IsForm, FieldMap, Printed, DataStart, Ends, Arriving, LastCloses, Data, ValueOf, Limit, AnnouncesMedia,
      Waiting, Uploaded, Delivered, Collected, Waits, Collecting, Whole, Behind;
    WaitsFor(f, total, contentType);
    FirstRunIsChunkRun(f, first, contentType, later);
    WaitingRun(Waiting(f, contentType), Chunks(f, first, later), f.b, total, e);
    WholeIs(f, contentType, Data(Chunks(f, first, later), f.b, e));
  }

  lemma WaitsFor(f: Form, total: nat, contentType: ContentType)
    requires IsForm(f) && Limit(f.fields, total)
    ensures Waits(Waiting(f, contentType), f.b, total)
  {
    hide FieldMap, AsSize, Atoi, IsBoundary, ValueOf, Limit, AnnouncesMedia, ContentTypeOf, BoundaryOf, IsForm;
    FormParts(f);
    LimitIs(f.fields, total);
  }

  /* ---- The closing line as printed ---- */

  // A chunk with the end of the data and the closing line; the boundary does not stand before that.
  ghost predicate Closes(c: Buffer, b: string, data: string, epilogue: string) {
    var text := data + (Closing(b) + epilogue);
    c.last == |text| && Agrees(c.mem, text, |text|) && forall j: nat :: j < |data| + 4 ==> !Occurs(text, b, j)
  }

  lemma OccursAgrees(mem: string, text: string, b: string, j: nat)
    requires Agrees(mem, text, |text|) && j + |b| <= |text|
    ensures Occurs(mem, b, j) <==> Occurs(text, b, j)
  {
    AgreesWith(mem, text, |text|, j, j + |b|);
  }

  // Where the boundary and the end of the closing line stand.
  lemma ClosingPlaces(mem: string, data: string, b: string, epilogue: string)
    requires IsBoundary(b)
    requires var text := data + (Closing(b) + epilogue); Agrees(mem, text, |text|)
    ensures var n := |data| + 4;
      && |Closing(b)| == |b| + 8 && n + |b| + 4 <= |mem|
      && Occurs(mem, b, n) && mem[n + |b| + 2] == '\r' && mem[n + |b| + 3] == '\n'
      && (forall i :: n <= i < n + |b| + 2 ==> mem[i] != '\r')
  {
    var text, n := data + (Closing(b) + epilogue), |data| + 4;
    var pre := data + CRLF + "--";
    assert text == pre + (b + ("--" + (CRLF + epilogue))) && text == (pre + b + "--") + (CRLF + epilogue);
    OccursHere(pre, b, "--" + (CRLF + epilogue), text);
    OccursAgrees(mem, text, b, n);
    CrlfAt(pre + b + "--", epilogue, text);
    assert forall i :: n <= i < n + |b| + 2 ==> text[i] == (b + "--")[i - n];
  }

  lemma ClosingCloses(c: Buffer, b: string, data: string, epilogue: string)
    requires IsBoundary(b) && Closes(c, b, data, epilogue)
    ensures c.last > 0 && Readable(c, b) && HasClosing(c, b) && ClosesAt(c, b, |data| + |Closing(b)|)
    ensures |data| + |Closing(b)| <= c.last && c.mem[..|data| + |Closing(b)|] == data + Closing(b)
  {
    hide Occurs, IsBoundary;
    var text, n := data + (Closing(b) + epilogue), |data| + 4;
    ClosingPlaces(c.mem, data, b, epilogue);
    forall j: nat | j < n ensures !Occurs(c.mem, b, j) { OccursAgrees(c.mem, text, b, j); }
    assert LineEnds(c.mem, c.last, n + |b| + 2) && FirstAt(c, b, n);
    forall j: nat | n <= j < n + |b| + 2 ensures !LineEnds(c.mem, c.last, j) { assert c.mem[j] != '\r'; }
    AgreesWith(c.mem, text, |text|, 0, |data| + |Closing(b)|);
    assert text[0..|data| + |Closing(b)|] == data + Closing(b);
  }

  // The chunks before the last are plain and do not reach the announced length.
  ghost predicate Spread(chunks: seq<Buffer>, b: string, total: nat) {
    && chunks != [] && AreBuffers(chunks)
    && (forall i :: 0 <= i < |chunks| - 1 ==> Plain(chunks[i], b))
    && (forall i :: 0 < i < |chunks| ==> |Texts(chunks[..i])| < total)
  }

  lemma SpreadArrives(chunks: seq<Buffer>, b: string, total: nat)
    requires Spread(chunks, b, total) && Readable(chunks[|chunks| - 1], b)
    ensures Arriving(chunks, b, total)
  {
    hide HasClosing, Readable, Texts;
    forall i | 0 < i < |chunks| ensures !Ends(chunks[..i], b, total) {
      assert chunks[..i][i - 1] == chunks[i - 1] && Plain(chunks[i - 1], b);
    }
  }

  // A printed multipart request spread over any number of buffers, the first of which reaches the part's
  // data, comes back with one upload: the part's fields, and the data of all buffers with the closing line.
  lemma {:induction false} ChunkedRoundTrip(f: Form, first: Buffer, later: seq<Buffer>, total: nat, data: string,
                                            epilogue: string, contentType: ContentType)
    requires IsForm(f) && Limit(f.fields, total) && Reaches(f, first) && AreBuffers(later)
    requires var chunks := Chunks(f, first, later);
      Spread(chunks, f.b, total) && Closes(chunks[|chunks| - 1], f.b, data, epilogue)
    ensures var chunks := Chunks(f, first, later);
      var r := Calls(Fresh(contentType), [first] + later);
      && r.Run? && r.s.phase == Finished
      && r.requests == [Whole(f, Texts(chunks[..|chunks| - 1]) + (data + Closing(f.b)))]
  {
    hide Calls, Reaches, Chunks, IsBoundary, Texts, ValueOf, Limit, AnnouncesMedia, Whole, Readable, HasClosing, ClosesAt,
      Closes, Closing, AreFields, IsMethod, IsTarget, AreDashes, Arriving, Spread;
    var chunks, e := Chunks(f, first, later), |data| + |Closing(f.b)|;
    ClosingCloses(chunks[|chunks| - 1], f.b, data, epilogue);
    SpreadArrives(chunks, f.b, total);
    ChunksDecide(f, first, later, total, e, contentType);
  }

  // While the closing line is not whole in one buffer, as when the boundary is cut in two, the announced length
  // decides: short of it nothing is delivered; the buffer that reaches it brings all that was received.
  lemma {:induction false} LengthDecides(f: Form, first: Buffer, later: seq<Buffer>, total: nat, contentType: ContentType)
    requires IsForm(f) && Limit(f.fields, total) && Reaches(f, first) && AreBuffers(later)
    requires var chunks := Chunks(f, first, later);
      Spread(chunks, f.b, total) && Plain(chunks[|chunks| - 1], f.b)
    ensures var chunks := Chunks(f, first, later);
      var r := Calls(Fresh(contentType), [first] + later);
      && r.Run?
      && r.requests == if |Texts(chunks)| >= total && chunks[|chunks| - 1].last > 0 then [Whole(f, Texts(chunks))] else []
  {
    hide Calls, Reaches, Chunks, IsForm, ValueOf, Limit, AnnouncesMedia, Whole, Readable, HasClosing, Arriving, Spread;
    var chunks := Chunks(f, first, later);
    SpreadArrives(chunks, f.b, total);
    ChunksDecide(f, first, later, total, 0, contentType);
  }

  /* ---- The place of the cut decides ---- */

  // Whether a run brought an upload with these headers.
  ghost predicate Brings(r: Run, headers: Headers) {
    r.Run? && exists q, u :: q in r.requests && u in q.uploads && u.headers == headers
  }

  lemma BehindIsText(f: Form, data: string, more: string, k: nat, mem: string)
    requires DataStart(f) <= k <= DataStart(f) + |data| && Agrees(mem, Printed(f, data + more), k)
    ensures k <= |mem| && Agrees(mem, Printed(f, ""), DataStart(f))
    ensures Received(Behind(Buffer(mem, k), DataStart(f))) == data[..k - DataStart(f)]
  {
    hide Printed;
    PrintedParts(f, data + more);
    var n, text := DataStart(f), Printed(f, data + more);
    AgreesFront(mem, Printed(f, ""), data + more, k);
    assert mem[n..][..k - n] == mem[n..k];
    AgreesWith(mem, text, k, n, k);
    assert text[n..k] == data[..k - n];
  }

  lemma RestCloses(f: Form, data: string, epilogue: string, k: nat, second: Buffer)
    requires var rest := data + (Closing(f.b) + epilogue);
      && DataStart(f) <= k <= DataStart(f) + |data|
      && second.last == |Printed(f, rest)| - k && Agrees(second.mem, Printed(f, rest)[k..], second.last)
      && forall j: nat :: j < |data| + 4 ==> !Occurs(rest, f.b, j)
    ensures Closes(second, f.b, data[k - DataStart(f)..], epilogue)
  {
    hide Printed, Closing, Occurs;
    var tail, n := Closing(f.b) + epilogue, k - DataStart(f);
    PrintedParts(f, data + tail);
    assert Printed(f, data + tail)[k..] == data[n..] + tail;
    assert data + tail == data[..n] + (data[n..] + tail);
    forall j: nat | j < |data[n..]| + 4 ensures !Occurs(data[n..] + tail, f.b, j) {
      OccursShift(data[..n], data[n..] + tail, f.b, j);
    }
  }

  // A printed request in two buffers, cut anywhere up to the end of its part's data: the part's upload comes out
  // if and only if the first buffer reaches the data, and then it is whole.
  lemma CutDecides(f: Form, data: string, epilogue: string, k: nat, first: Buffer, second: Buffer, total: nat,
                   contentType: ContentType)
    requires IsForm(f) && Limit(f.fields, total) && 0 < k <= DataStart(f) + |data|
    requires var rest := data + (Closing(f.b) + epilogue);
      && first.last == k && Agrees(first.mem, Printed(f, rest), k)
      && second.last == |Printed(f, rest)| - k && Agrees(second.mem, Printed(f, rest)[k..], second.last)
      && forall j: nat :: j < |data| + 4 ==> !Occurs(rest, f.b, j)
    requires DataStart(f) <= k ==> Plain(Behind(first, DataStart(f)), f.b) && k - DataStart(f) < total
    ensures AreBuffers([first] + [second])
    ensures var r := Calls(Fresh(contentType), [first] + [second]);
      && (Brings(r, FieldMap(f.part, |f.part|)) <==> k >= DataStart(f))
      && (k >= DataStart(f) ==> r.Run?)
      && (k >= DataStart(f) ==> r.requests == [Whole(f, data + Closing(f.b))])
  {
    hide Calls, IsForm, FieldMap, Printed, Closes, Closing, Whole, Occurs, Plain, Received, Brings, ValueOf, Limit;
    var rest, n := data + (Closing(f.b) + epilogue), DataStart(f);
    PrintedParts(f, rest);
    if k < n {
      AgreesFront(first.mem, Printed(f, ""), rest, k);
      CutBeforeDataIsLost(f, k, first.mem, contentType, [second]);
      NoneBrings(Calls(Fresh(contentType), [first] + [second]), FieldMap(f.part, |f.part|));
    } else {
      BehindIsText(f, data, Closing(f.b) + epilogue, k, first.mem);
      RestCloses(f, data, epilogue, k, second);
      TwoChunks(f, first, second, data[..k - n], data[k - n..], epilogue, total, contentType);
      assert data[..k - n] + (data[k - n..] + Closing(f.b)) == data + Closing(f.b);
      var r := Calls(Fresh(contentType), [first] + [second]);
      WholeBrings(f, data + Closing(f.b), r);
    }
  }

  lemma NoneBrings(r: Run, headers: Headers)
    requires r.Run? ==> forall q, u :: q in r.requests && u in q.uploads ==> u.headers != headers
    ensures !Brings(r, headers)
  {
  }

  lemma WholeBrings(f: Form, data: string, r: Run)
    requires r.Run? && r.requests == [Whole(f, data)]
    ensures Brings(r, FieldMap(f.part, |f.part|))
  {
    hide FieldMap;
    assert r.requests[0] in r.requests && r.requests[0].uploads[0] in r.requests[0].uploads;
  }

  lemma TwoChunks(f: Form, first: Buffer, second: Buffer, front: string, back: string, epilogue: string, total: nat,
                  contentType: ContentType)
    requires IsForm(f) && Limit(f.fields, total) && Reaches(f, first)
    requires Plain(Behind(first, DataStart(f)), f.b) && Received(Behind(first, DataStart(f))) == front && |front| < total
    requires second.last <= |second.mem| && Closes(second, f.b, back, epilogue)
    ensures AreBuffers([first] + [second])
    ensures var r := Calls(Fresh(contentType), [first] + [second]);
      r.Run? && r.requests == [Whole(f, front + (back + Closing(f.b)))]
  {
    hide Calls, IsForm, Printed, DataStart, Closes, Closing, Plain, Received, ValueOf, Limit, AnnouncesMedia, Whole;
    var chunks := Chunks(f, first, [second]);
    assert chunks[..1] == [chunks[0]] && [chunks[0]][..0] == [];
    assert Texts([]) + front == front;
    assert Texts(chunks[..1]) == front;
    ChunkedRoundTrip(f, first, [second], total, back, epilogue, contentType);
  }
}
