# webcrown: a verified model of its request and response engine

webcrown is a C++ HTTP server library. These Dafny files model what its session, router, request
parser, response builder, middlewares and string codecs do, branch by branch, and prove what they
promise. Where the code falls short of a promise, the exact condition under which it keeps it is proved,
with an input or a run that shows the failure.

- `Session`, `SessionRuns`, `SessionReads`, `SessionReply`, `SessionDrain`: the double-buffered asynchronous writer of a
  session. The class `WebSession` has the source's fields; each handler is a method that equals a
  function on its state. Runs interleave senders, disconnects, reads, the operating system's writes and the tasks of
  the I/O thread in every order.
- `Route`, `RouteProofs`, `RouteMatching`, `RouteEdges`: route templates, compiled and matched.
- `CharClasses`, `HttpParser`, `ParserProofs`, `RequestHeaders`, `RequestProofs`, `ParserAccepts`, `ParserRejects`,
  `HeaderFaults`, `Locality`, `Multipart`, `MultipartCuts`, `MultipartChunks`, `PartEdges`:
  the request parser over successive buffers. The model is total: an access outside the memory behind a
  buffer is the outcome Fault, so that a result that is no fault also says that every read was inside.
- `HttpResponse`: the response builder, whose header map is iterated in an arbitrary order.
- `Middleware`, `MiddlewareProofs`, `ChainProofs`, `OnReceive`, `EndToEnd`: authorization and routing over shared
  route objects, their chain, what a session makes of one received buffer, and of a printed request.
- `Text`, `StringUtils`, `UrlCodec`, `UrlSlice`, `ToStr`: string searching, splitting, replacing, URL
  coding and slicing, and integer printing.

One char, or one `Byte`, stands for one byte. Calls into code outside the repository are parameters:
what the operating system reports of a read or a write, an authorization callback, an endpoint, any
other middleware. The order of a hash map is a choice of the method that iterates it.

Some behaviour a reader may not expect is kept as the code has it: a body in the same buffer as its
headers starts with the blank line's four bytes; a header block without fields is an error; a write of
zero bytes neither retries nor disconnects; a failed endpoint ends as 404; a response may be cleared
before it is sent; an upload's bytes include the closing delimiter's line, although the comment there
speaks of the end byte of the image (include/webcrown/server/http/http_parser.hpp:595).

## Model

| member | source | states |
|---|---|---|
| Session.WebSession.constructor | include/webcrown/server/impl/webserver.cpp:27-41 | `connect` leaves a connected session with empty buffers, zero counters, one read outstanding and any flush offset, since the offset is never initialised |
| Session.WebSession.SendBytes | include/webcrown/server/impl/webserver.cpp:238-283 | accepts non-empty bytes at the end of the main buffer, dispatches `try_send` exactly when one of the buffers was empty before, and asks for a disconnect on empty input |
| Session.WebSession.TrySendSwap | include/webcrown/server/impl/webserver.cpp:285-304 | `try_send` gives up while a write is in flight, and otherwise moves the main buffer into an empty flush buffer with its counters |
| Session.WebSession.TrySendStart | include/webcrown/server/impl/webserver.cpp:306-356 | `try_send` starts a write of exactly the unsent part of a non-empty flush buffer |
| Session.WebSession.TakeNote | include/webcrown/server/impl/webserver.cpp:327-341 | a completed write moves the offset and the counters, and a flush buffer that is sent whole is cleared |
| Session.WebSession.OnWritten | include/webcrown/server/impl/webserver.cpp:316-350 | a completion ends the write; zero bytes change nothing else, an error disconnects, and otherwise `try_send` runs again |
| Session.WebSession.ClearBuffers | include/webcrown/server/impl/webserver.cpp:43-55 | both buffers and their counters are cleared; the offset and the count of sent bytes are not |
| Session.WebSession.DisconnectSession | include/webcrown/server/impl/webserver.cpp:57-76 | asks for a disconnect exactly when the session is connected |
| Session.WebSession.DisconnectHandler | include/webcrown/server/impl/webserver.cpp:78-119 | the socket is closed in every case; the flags and buffers are reset only when it was connected and closing reports no error |
| Session.WebSession.TryReceiveNext | include/webcrown/server/impl/webserver.cpp:121-136 | a read is started unless one is outstanding or the session is not connected |
| Session.WebSession.OnReadDone | include/webcrown/server/impl/webserver.cpp:138-172 | a read that completes clears the flag, and goes on as the received bytes demand |
| Session.WebSession.ContinueReading | include/webcrown/server/impl/webserver.cpp:142-227 | a receive error and a parse error disconnect; an answer is sent, then a disconnect is asked for, then the next read |
| SessionRuns.NextKeepsInv | include/webcrown/server/impl/webserver.cpp:27-357 | every step of every thread and of the operating system keeps the session's invariant |
| SessionRuns.StreamConservation | include/webcrown/server/impl/webserver.cpp:238-357 | over every run the wire is a prefix of the accepted bytes, and while connected accepted = wire + unsent flush + main, nothing lost, repeated or reordered |
| SessionRuns.WriteExclusivityAndCounters | include/webcrown/server/impl/webserver.cpp:27-357 | while connected at most one write is in flight, its region is the unsent flush, and the three counters are the sizes they stand for |
| SessionRuns.WriteRegionStable | include/webcrown/server/impl/webserver.cpp:258-357 | no step but its own completion or a disconnect changes a write in flight or the bytes under it |
| SessionRuns.DisconnectIsFinal | include/webcrown/server/impl/webserver.cpp:57-119 | after a disconnect the session stays disconnected and the wire never grows, whatever else happens |
| SessionRuns.NoLostWakeup | include/webcrown/server/impl/webserver.cpp:258-350 | in a run where no write completes with zero bytes, pending bytes of a session whose socket is open always have a write in flight or a handler due |
| SessionRuns.LeftBehindIffStalled | include/webcrown/server/impl/webserver.cpp:258-350 | in every run, with nothing due, bytes are pending if and only if the last write ended with zero bytes |
| SessionRuns.SendersCannotUnstick | include/webcrown/server/impl/webserver.cpp:251-325 | after such a write with both buffers full, no number of further sends ever moves a byte |
| SessionRuns.EmptyWriteLosesWakeup | include/webcrown/server/impl/webserver.cpp:321-325 | a run that reaches that state exists: the early return on zero bytes loses the wake-up |
| SessionRuns.AtMostOneReply | include/webcrown/server/impl/webserver.cpp:121-227 | at most one read is outstanding and at most one response is ever enqueued |
| SessionRuns.ClosedIsFinal | include/webcrown/server/impl/webserver.cpp:57-119 | once the socket is closed nothing more reaches the wire, also when closing reported an error and the session still counts as connected |
| SessionRuns.FailedCloseLosesWakeup | include/webcrown/server/impl/webserver.cpp:88-96 | a run exists that ends connected with unsent bytes, nothing due and no empty write: a write fails part way and the close reports an error |
| SessionReads.KeepsReading | include/webcrown/server/impl/webserver.cpp:121-178 | over every run a connected session whose socket is open has exactly one read outstanding, or a task is due that starts one or disconnects |
| SessionReads.FatalReadEnds | include/webcrown/server/impl/webserver.cpp:138-200 | after a receive error, a parse error or a finished parser that is given more, the I/O thread disconnects next and the session is over; after an empty read, or one that needs more, it starts a read next |
| SessionReads.DisconnectEnds | include/webcrown/server/impl/webserver.cpp:78-119 | a disconnect that closes without an error ends the session: not connected, socket closed, no flag up, both buffers and their counters empty |
| SessionReads.AskedDisconnectEnds | include/webcrown/server/impl/webserver.cpp:57-119 | a disconnect asked for by another thread ends the session whenever the I/O thread takes it up |
| SessionReads.DisconnectIgnored | include/webcrown/server/impl/webserver.cpp:71-76 | a disconnect asked of a session that is not connected is ignored |
| SessionReads.SendTakesAll | include/webcrown/server/impl/webserver.cpp:238-283 | a send of some bytes accepts exactly those and moves nothing else; a send of none is a request to disconnect |
| SessionReads.ErrorsAreLegal | include/webcrown/server/impl/webserver.cpp:138-156 | a read error and an empty read may come at any time |
| SessionReads.AnswerIsReplying | include/webcrown/server/impl/webserver.cpp:208-227 | a read that brings an answer leaves the session about to send exactly that response, then to disconnect, then to read, with nothing else changed |
| SessionReads.AnswerDeliverableIff | include/webcrown/server/impl/webserver.cpp:138-227 | so the answer to a received request can reach the wire whole if and only if the socket is open, no write is in flight and the flush buffer is empty |
| SessionReply.ReplyDeliverableIff | include/webcrown/server/impl/webserver.cpp:218-226 | a response that `on_receive` is about to send can reach the wire whole if and only if the socket is open, no write is in flight and the flush buffer is empty |
| SessionReply.NothingOfReplySent | include/webcrown/server/impl/webserver.cpp:218-226 | in every other case not one byte of it is ever sent, whatever the system and other threads do |
| SessionReply.OneTransferDecides | include/webcrown/server/impl/webserver.cpp:285-357 | where it can be sent, the system moves bytes at most once before the disconnect, and the response is whole if and only if that once moves all the main buffer held up to its end |
| SessionRuns.ResponseMayBeLost | include/webcrown/server/impl/webserver.cpp:218-226 | a run from a new connection exists in which the response is enqueued and nothing of it is sent, although it could be |
| SessionDrain.DrainWritten | include/webcrown/server/impl/webserver.cpp:316-350 | each completion without error of at least one byte strictly shortens what is left to send |
| SessionDrain.Drain | include/webcrown/server/impl/webserver.cpp:285-356 | without sends, disconnects, errors and empty writes, and however many reads complete, there are at most as many completions as bytes left, a bounded number of other steps between reads, and when no bytes are left or the writer cannot go on both buffers are empty and the wire is all that was accepted |
| Route.Route.constructor | include/webcrown/server/http/middlewares/route.hpp:44-57 | a route is made exactly of a path that starts with a slash, and holds its compiled prefix and binds |
| Route.Route.Parse | include/webcrown/server/http/middlewares/route.hpp:199-261 | compiles the template into the text before the first bind, and the binds with their colon positions |
| Route.Route.ExtractNextBindKey | include/webcrown/server/http/middlewares/route.hpp:263-304 | the key runs to the next bind; for the last one, to a trailing slash, the next slash or the end |
| Route.Route.IsMatchWithTargetRequest | include/webcrown/server/http/middlewares/route.hpp:82-197 | the outcome, and the values stored, also by attempts that fail or throw; template, prefix, method and names never change |
| Route.Route.ScanForPrefix | include/webcrown/server/http/middlewares/route.hpp:119-138 | finds the slash before which the target is the prefix, skipping the character after a slash that does not fit |
| Route.Route.FindNextPathParameterValue | include/webcrown/server/http/middlewares/route.hpp:145-161 | a value ends at the next slash or the end |
| Route.Route.BindValues | include/webcrown/server/http/middlewares/route.hpp:164-189 | values are stored one by one, and each replaces its name, and the character before it, where that first occurs |
| RouteProofs.CompileRender | include/webcrown/server/http/middlewares/route.hpp:199-304 | compiling prefix/:n1/../:nk[/suffix] gives back the prefix, every name and every colon position |
| RouteProofs.LiteralJoinsName | include/webcrown/server/http/middlewares/route.hpp:275-278 | a literal segment between two binds becomes part of the earlier bind's name |
| RouteMatching.TemplateOfRender | include/webcrown/server/http/middlewares/route.hpp:44-57 | the route object made of a rendered template is that template |
| RouteMatching.MatchIffInstance | include/webcrown/server/http/middlewares/route.hpp:82-197 | for names that occur neither in the prefix nor in an earlier value, a target other than the bare prefix is accepted if and only if the request has the route's method and the target is the template with slash-free values put in, and those values are stored |
| RouteMatching.WrongMethod | include/webcrown/server/http/middlewares/route.hpp:100-103 | a request with another method is never accepted and stores nothing, whatever the template and the target, the bare prefix included |
| RouteMatching.AmbiguousMatchIff | include/webcrown/server/http/middlewares/route.hpp:164-196 | when the name of a single bind does occur in the prefix, an instance is accepted if and only if the request has the route's method, that place follows a colon and the value is the bind's own text |
| RouteMatching.AmbiguousExample | include/webcrown/server/http/middlewares/route.hpp:171-176 | a concrete route and target for which the natural match fails |
| RouteMatching.BarePrefixKeepsOld | include/webcrown/server/http/middlewares/route.hpp:109-114 | the bare prefix is accepted by a bound route after any history, and leaves the values that history stored |
| RouteMatching.HistoryIndependence | include/webcrown/server/http/middlewares/route.hpp:84-197 | whatever was tried before, names stay, and an accepted binding match leaves every parameter with the current target's value |
| RouteEdges.CompilesIff | include/webcrown/server/http/middlewares/route.hpp:44-57 | a path compiles if and only if it starts with a slash |
| RouteEdges.StaticMatchIff | include/webcrown/server/http/middlewares/route.hpp:82-117 | a route without binds accepts its own path with its own method, and nothing else |
| RouteEdges.TrailingSlashNeverBinds | include/webcrown/server/http/middlewares/route.hpp:119-138 | a prefix that ends in a slash is never found by the scan: such a route accepts its bare prefix only |
| RouteEdges.TrailingSlashJoins | include/webcrown/server/http/middlewares/route.hpp:282-287 | in a path that ends in a slash the last bind's key takes in every literal segment behind it |
| RouteEdges.OneBindThrowsIff | include/webcrown/server/http/middlewares/route.hpp:164-189 | with one bind, a target behind the prefix makes matching throw if and only if the method is the route's and the name stands at the very start of the path |
| RouteEdges.EmptyNameThrows | include/webcrown/server/http/middlewares/route.hpp:171-176 | a bind without a name throws on every target behind the prefix |
| HttpParser.Parser.ParseMethod | include/webcrown/server/http/http_parser.hpp:765-818 | the method token and the cursor after its blank, or the error of the source's branch |
| HttpParser.Parser.ParseTarget | include/webcrown/server/http/http_parser.hpp:820-868 | the target and the cursor after its blank, or the error of the source's branch |
| HttpParser.Parser.ParseProtocol | include/webcrown/server/http/http_parser.hpp:870-931 | the version as ten times major plus minor, or the error |
| HttpParser.Parser.ParseMessageHeaderName | include/webcrown/server/http/http_parser.hpp:703-725 | the name up to its colon; a bad character is an error that does not move the cursor on |
| HttpParser.Parser.ParseMessageHeaderValue | include/webcrown/server/http/http_parser.hpp:727-763 | the printable text after leading blanks up to CRLF, or the error |
| HttpParser.Parser.ParseField | include/webcrown/server/http/http_parser.hpp:672-683 | one round of the loop: a field goes into the map under its lower-case name, the first one stays |
| HttpParser.Parser.EndOfField | include/webcrown/server/http/http_parser.hpp:685-697 | a line end is passed; an empty line after it ends the loop with the cursor before it |
| HttpParser.Parser.ParseMessageHeader | include/webcrown/server/http/http_parser.hpp:648-701 | the field loop over the whole block; errors are kept but do not end it |
| HttpParser.Parser.ParseContentType | include/webcrown/server/http/http_parser.hpp:319-351 | the type is what stands before the first semicolon, compared with the known ones |
| HttpParser.Parser.ParseStartLine | include/webcrown/server/http/http_parser.hpp:224-303 | method, target, version, then the header block and the content type, with the phase of the branch taken |
| HttpParser.Parser.VerifyBoundaryValue | include/webcrown/server/http/http_parser.hpp:362-391 | the reset-and-count scan, place by place |
| HttpParser.Parser.ExtractBoundary | include/webcrown/server/http/http_parser.hpp:422-475 | the text after `boundary=` and any equals signs and dashes |
| HttpParser.Parser.ParseMediaTypeBegin | include/webcrown/server/http/http_parser.hpp:393-506 | the boundary is taken from the content type and the opening line is looked for |
| HttpParser.Parser.ParseBoundaryHeader | include/webcrown/server/http/http_parser.hpp:506-541 | the boundary must be the whole of its line |
| HttpParser.Parser.ParsePartHeaders | include/webcrown/server/http/http_parser.hpp:540-555 | the part's headers are kept if they name a content type |
| HttpParser.Parser.ParseMediaTypeMore | include/webcrown/server/http/http_parser.hpp:557-633 | the consumed bytes are counted and appended, and the upload is made when the delimiter line ended or the length is reached |
| HttpParser.Parser.Parse | include/webcrown/server/http/http_parser.hpp:147-222 | one call: phases, the pending body, the body, the media and the request |
| CharClasses.ClassesAre | include/webcrown/server/http/detail/parser.hpp:15-97 | the character classes by their codes: tchars, path characters, field-name characters, printable ones, blanks, spaces |
| ParserProofs.BlockRoundTrip | include/webcrown/server/http/http_parser.hpp:648-763 | a printed block of one or more fields parses to the map of its fields with every read inside the buffer, and the cursor stops four bytes before what follows |
| RequestHeaders.FirstFieldWins | include/webcrown/server/http/http_parser.hpp:680-683 | under each lower-case name the map holds the value of the first field of that name |
| RequestHeaders.MapHolds | include/webcrown/server/http/http_parser.hpp:672-683 | the header map of printed fields has a lower-case name if and only if some field has it in any case, and then that first field's value |
| RequestHeaders.SameNameIff | include/webcrown/server/http/http_parser.hpp:680-681 | two names become one header exactly when they differ only in the case of ASCII letters |
| RequestHeaders.AnnouncedLength | include/webcrown/server/http/http_parser.hpp:166-181 | a Content-Length field written as the decimal number n is read as n, and without the field there is none |
| RequestHeaders.LimitIs | include/webcrown/server/http/http_parser.hpp:618-620 | compared with a size, a length under a minus sign counts as 2^64 less it |
| RequestHeaders.TypeDecided | include/webcrown/server/http/http_parser.hpp:319-351 | read off the printed fields: without a content type, or with JSON or a URL-encoded form before the first semicolon, the body is taken as it is; multipart and JPEG are media; anything else is unknown |
| RequestHeaders.BoundaryIs | include/webcrown/server/http/http_parser.hpp:422-475 | the boundary is what follows the first `boundary=` and any equals signs and dashes |
| RequestProofs.MethodIff | include/webcrown/server/http/method.inl:15-36 | a request's method is Get, Post, Delete, Options or Patch if and only if its text is that word |
| ParserAccepts.BlockAccepted | include/webcrown/server/http/http_parser.hpp:648-763 | any header block that is accepted, four bytes or more before the end, is a printed block of fields, and the map is theirs |
| ParserAccepts.OpeningAccepted | include/webcrown/server/http/http_parser.hpp:224-303 | any bytes that bring the parser through start line and headers without an error are a printed request up to its blank line, but for one half of the first CRLF, and what is kept is what was printed |
| ParserAccepts.OpeningReads | include/webcrown/server/http/http_parser.hpp:224-303 | the other way: bytes that begin with a printed opening, with either half of that CRLF, are accepted and kept so, whatever lies behind |
| ParserRejects.BrokenIsRejected | include/webcrown/server/http/http_parser.hpp:765-931 | a wrong character in the method or the target, another protocol, or a wrong line end is reported by its own error, and no later buffers ever bring a request |
| HeaderFaults.WrongName | include/webcrown/server/http/http_parser.hpp:672-725 | a blank in a field name is an error that does not end the loop: the rest of the line is kept under the empty name |
| HeaderFaults.WrongValue | include/webcrown/server/http/http_parser.hpp:672-763 | an unprintable character drops the value and goes on behind it; a carriage return without line feed ends the line with an error of its own |
| HeaderFaults.BegunIsIncomplete | include/webcrown/server/http/http_parser.hpp:648-763 | a block that ends in a name, at its colon or in the blanks behind it is reported as incomplete, unless the memory behind looks like a broken line end or there is none |
| HeaderFaults.NothingBehindLine | include/webcrown/server/http/http_parser.hpp:648-658 | fewer than two bytes behind the start line are an incomplete header block |
| HeaderFaults.EmptyFirstBuffer | include/webcrown/server/http/http_parser.hpp:157-163 | a first buffer of no bytes changes nothing and asks for more |
| RequestProofs.StartLineAccepted | include/webcrown/server/http/http_parser.hpp:224-303 | any accepted buffer begins with a method, a blank, a target, a blank and HTTP/1.1, which are what is kept; only one half of the CRLF is demanded |
| RequestProofs.RequestRoundTrip | include/webcrown/server/http/http_parser.hpp:147-317 | a printed request in one buffer gives back method, target, version 11, the field map and the body behind its blank line; announced but missing, the body is waited for |
| RequestProofs.TwoBufferRoundTrip | include/webcrown/server/http/http_parser.hpp:166-195 | when the first buffer ends with the fields, the second buffer is the body, byte for byte |
| RequestProofs.UnknownTypeRejected | include/webcrown/server/http/http_parser.hpp:276-287 | an unsupported content type is an error, and the parser is left fruitless |
| RequestProofs.FruitlessRun | include/webcrown/server/http/http_parser.hpp:147-222 | from a fruitless state no sequence of buffers ever yields a request |
| RequestProofs.BrokenStartLineIsLost | include/webcrown/server/http/http_parser.hpp:155-164 | wherever behind its first byte a valid start line is cut, the first buffer is reported incomplete and no later buffers ever bring a request |
| RequestProofs.CutPayloadIsTruncated | include/webcrown/server/http/http_parser.hpp:185-195 | cut inside its payload, a request is delivered at once with what the first buffer holds for its body, and nothing after it is read |
| RequestProofs.MediaAfterHeadersIsLost | include/webcrown/server/http/http_parser.hpp:169-205 | a media request whose first buffer ends with its header fields, a body announced, is lost |
| RequestProofs.RequestNeedsFields | include/webcrown/server/http/http_parser.hpp:648-763 | a request without header fields is an error or reads outside its buffer |
| RequestProofs.OneCall | include/webcrown/server/http/http_parser.hpp:147-222 | a call yields a request exactly when it takes the parser to its last phase, which is never left |
| RequestProofs.OneRequestPerRun | include/webcrown/server/http/http_parser.hpp:147-222 | over any sequence of buffers the number of requests is 1 if the last phase is reached and 0 otherwise |
| Multipart.CountIsOccurrence | include/webcrown/server/http/http_parser.hpp:367-388 | the count is full exactly where the boundary stands, if it has no leading dash, and nowhere if it has one |
| Multipart.ScanIsSearch | include/webcrown/server/http/http_parser.hpp:362-391 | the scan succeeds if and only if the boundary stands at a place before the end, and stops at the first such place; it reads outside only when the memory is too short |
| Multipart.BoundaryHasNoDash | include/webcrown/server/http/http_parser.hpp:467-475 | the boundary taken from a content type never starts with a dash or an equals sign |
| Multipart.ConsumeIs | include/webcrown/server/http/http_parser.hpp:578-605 | a chunk completes the part if and only if a boundary and, at or behind it, a CRLF lie within it; what it consumes ends with the first CRLF at or behind the first boundary |
| Multipart.ChunksAccumulate | include/webcrown/server/http/http_parser.hpp:557-645 | over any sequence of calls from a parser that waits for data, the part's data is the concatenation of the consumed prefixes; the call that completes it, by delimiter or length, yields the request with exactly one upload of all that data |
| MultipartCuts.FirstBufferIsChunk | include/webcrown/server/http/http_parser.hpp:353-645 | a first buffer that reaches the part's data does to the parser what the bytes behind the part's opening do to a parser that waits for them |
| MultipartChunks.ChunkTaken | include/webcrown/server/http/http_parser.hpp:362-605 | the scan of a chunk stays inside the memory if and only if that is long enough or the boundary stands in the chunk; what is taken ends with the line of the first boundary, if both are in the chunk, and otherwise with the chunk |
| MultipartChunks.ChunksDecide | include/webcrown/server/http/http_parser.hpp:353-645 | with the announced length as a number: nothing comes out before the closing line is whole in one buffer or as many bytes are received; then the request does, with one upload of all the buffers held up to the closing line's end |
| MultipartCuts.CutBeforeDataIsLost | include/webcrown/server/http/http_parser.hpp:147-222 | cut anywhere before the part's data, whatever memory lies behind and whatever buffers follow, the part's upload never comes out |
| MultipartChunks.ChunkedRoundTrip | include/webcrown/server/http/http_parser.hpp:353-645 | a printed multipart request in any number of buffers, the first reaching the part's data, comes back with one upload of the part's fields and all its data with the closing line |
| MultipartChunks.LengthDecides | include/webcrown/server/http/http_parser.hpp:578-625 | while no closing line is whole in one buffer, nothing is delivered short of the announced number of bytes, and the buffer that reaches it delivers all that was received |
| MultipartChunks.CutDecides | include/webcrown/server/http/http_parser.hpp:147-222 | in two buffers cut up to the end of the data, the upload comes out if and only if the first buffer reaches the data |
| MultipartCuts.CutBehindDashes | include/webcrown/server/http/http_parser.hpp:477-537 | cut right behind the opening dashes the request is answered without an error, with an upload that has no headers and holds the boundary's own line |
| PartEdges.OpeningIff | include/webcrown/server/http/http_parser.hpp:506-535 | a first boundary opens a part if and only if its line, or the buffer, ends right behind it and no closing dashes begin inside it |
| PartEdges.PartWithoutType | include/webcrown/server/http/http_parser.hpp:540-555 | a part without a content type comes out without headers, and the blank line before its data counts as data |
| PartEdges.ClosedAtOnceIsLost | include/webcrown/server/http/http_parser.hpp:506-537 | with the closing line, or a boundary that ends in two dashes, where the first part should open, no upload with a content type ever comes out |
| PartEdges.NoBoundaryIsReported | include/webcrown/server/http/http_parser.hpp:422-428 | media whose content type has no `boundary=` is reported, though an upload of two bytes without headers is made |
| PartEdges.MediaWithoutLength | include/webcrown/server/http/http_parser.hpp:557-569 | media without a Content-Length never brings a request, whatever else is received |
| Locality.StartLocal | include/webcrown/server/http/http_parser.hpp:224-303 | a start line and header block that end four bytes before the end of a buffer do so whatever is received or lies behind |
| Multipart.RunAccounted | include/webcrown/server/http/http_parser.hpp:557-645 | in every reachable state the count of bytes read is the length of the buffer, there is at most one upload, and it holds that buffer |
| Multipart.MultipartRoundTrip | include/webcrown/server/http/http_parser.hpp:353-645 | a printed multipart request in one buffer comes back with one upload; its bytes are the data and, as the code counts, the closing delimiter's line |
| Multipart.WrittenContentType | include/webcrown/server/http/http_parser.hpp:422-475 | the boundary of `multipart/form-data; boundary=` with any dashes is found, and the type is recognised |
| Multipart.ParametersIgnored | include/webcrown/server/http/http_parser.hpp:331-348 | what follows the first semicolon of a content type does not change what it is |
| RequestProofs.RunIsLower | include/webcrown/server/http/http_parser.hpp:680-683 | over any run every header name, in the parser and in its requests, is in lower case |
| HttpResponse.Response.AddHeader | include/webcrown/server/http/http_response.hpp:108-113 | the first value of a name is kept |
| HttpResponse.Response.Build | include/webcrown/server/http/http_response.hpp:55-106 | for some order of the header map: status line, one line per header, blank line, body; Content-Length is added for a non-empty body |
| HttpResponse.PrinterParserAgreement | include/webcrown/server/http/http_response.hpp:55-106 | for every order of the map, the header loop reads a non-empty printable block back as the headers under lower-case names and stops four bytes before the body |
| HttpResponse.LengthReadsBack | include/webcrown/server/http/http_response.hpp:79-83 | the Content-Length that `build` adds reads back as the body's size |
| HttpResponse.LengthAddedIff | include/webcrown/server/http/http_response.hpp:79-83 | a Content-Length is added if and only if there is a body and no such header yet; no other header changes |
| HttpResponse.StatusReadsBack | include/webcrown/server/http/http_response.hpp:63-76 | the first line is the protocol, a blank, the digits of a code that reads back as the one set, a blank and the reason |
| Middleware.AuthMiddleware.Execute | include/webcrown/server/http/middlewares/auth_middleware.hpp:55-119 | the loop over the entries: skip, deny, or go on; the routes' parameters after it; and the calls of the callback |
| Middleware.AuthMiddleware.CheckEntry | include/webcrown/server/http/middlewares/auth_middleware.hpp:72-108 | 403 without header or token, 401 with the reason when the callback refuses, 500 when it raises |
| Middleware.RoutingMiddleware.Execute | include/webcrown/server/http/middlewares/routing_middleware.hpp:26-59 | the loop over the routes with its flag; at most one endpoint is called; the chain always stops |
| Middleware.RoutingMiddleware.Call | include/webcrown/server/http/middlewares/routing_middleware.hpp:34-44 | an endpoint's exception is caught and sets status 500 |
| MiddlewareProofs.TokenFollowsBearer | include/webcrown/server/http/middlewares/auth_middleware.hpp:132-141 | the token is what follows the first `Bearer `, wherever in the header that stands |
| MiddlewareProofs.TokenIff | include/webcrown/server/http/middlewares/auth_middleware.hpp:132-141 | a header has a token exactly when it contains `Bearer ` with something behind it |
| MiddlewareProofs.HeaderNames | include/webcrown/server/http/middlewares/auth_middleware.hpp:72-83 | the header is looked for as `Authorization` first and then in lower case |
| MiddlewareProofs.AuthGoesOn | include/webcrown/server/http/middlewares/auth_middleware.hpp:55-119 | authorization goes on only if no match raised, and every matching entry has a check its callback approved for the request's non-empty token |
| ChainProofs.AuthGoesOnIff | include/webcrown/server/http/middlewares/auth_middleware.hpp:55-119 | authorization goes on if and only if no match raises and every matching entry has a token its callback approves; otherwise the first entry that does not let the request pass makes the response |
| MiddlewareProofs.AuthDenies | include/webcrown/server/http/middlewares/auth_middleware.hpp:55-119 | when authorization stops the chain the status is 401, 403 or 500 |
| MiddlewareProofs.FirstMatchWins | include/webcrown/server/http/middlewares/routing_middleware.hpp:26-59 | the endpoint called is that of the first matching registration; without a match the status is 404; an exception of matching leaves routing |
| MiddlewareProofs.FailedEndpointIsNotFound | include/webcrown/server/http/middlewares/routing_middleware.hpp:36-56 | the 500 of a failed endpoint is overwritten by 404 |
| MiddlewareProofs.EndpointGetsOwnValues | include/webcrown/server/http/middlewares/routing_middleware.hpp:30-38 | unless the target is the bare prefix, an endpoint gets exactly the current target's values, whatever the shared route held before |
| MiddlewareProofs.GuardedDispatch | include/webcrown/server/impl/webserver.cpp:208-216 | with authorization before routing, a called endpoint is the first match of its routing member, and every matching entry of the authorization, its own route's among them, was approved |
| ChainProofs.RoutingCalls | include/webcrown/server/http/middlewares/routing_middleware.hpp:26-59 | the first registration that matches is called, its route has the request's method, and the response is the endpoint's, with 404 for a failed one's; without a match the status is 404 |
| ChainProofs.ChainCalls | include/webcrown/server/impl/webserver.cpp:208-216 | when every member before a routing member lets the request pass, and that member has a first match, that endpoint is called with the response they left, and the chain ends with it |
| ChainProofs.ChainCallsIff | include/webcrown/server/impl/webserver.cpp:208-216 | an endpoint is called if and only if there is such a routing member |
| ChainProofs.ChainNotFound | include/webcrown/server/impl/webserver.cpp:208-216 | when the routing member has no match the chain ends with 404 on the response the members before left |
| ChainProofs.ChainStops | include/webcrown/server/impl/webserver.cpp:208-216 | a member that does not let the request pass ends the chain with its own response; when all do, it runs to its end |
| ChainProofs.OtherMemberAlone | include/webcrown/server/impl/webserver.cpp:208-216 | any other member may stand in a chain, and alone decides the response and how it ends |
| OnReceive.RunChain | include/webcrown/server/impl/webserver.cpp:208-216 | the members run in order until one stops |
| OnReceive.Receiver.OnReceive | include/webcrown/server/impl/webserver.cpp:180-227 | parse error, wait, nothing, or the chain and the built response, with the routes and the parser after it |
| OnReceive.OutcomesAreLegal | include/webcrown/server/impl/webserver.cpp:180-200 | what the session is told is always what its protocol allows, and its flag follows the parser's last phase |
| OnReceive.OneAnswerPerSession | include/webcrown/server/impl/webserver.cpp:180-227 | over any sequence of buffers the chain answers at most once, and only when the parser has finished |
| OnReceive.ParsedAuthHeader | include/webcrown/server/http/middlewares/auth_middleware.hpp:72-83 | for every request parsed over any sequence of buffers, authorization reads the header named in lower case, whatever case the client wrote |
| EndToEnd.ServedIff | include/webcrown/server/impl/webserver.cpp:180-216 | the chain runs, on a response with status 500 and nothing else, if and only if the parser brings a request without an error |
| EndToEnd.PrintedIsAnswered | include/webcrown/server/impl/webserver.cpp:180-227 | a printed request in one buffer is answered by the endpoint of the first matching registration that the members before let it through to |
| EndToEnd.PrintedInTwoIsAnswered | include/webcrown/server/impl/webserver.cpp:180-227 | its headers in one buffer and its announced body in the next: the session waits after the first and answers the second |
| EndToEnd.AnswerIsBuilt | include/webcrown/server/impl/webserver.cpp:218-219 | the session is then told to send a text built from that endpoint's response |
| EndToEnd.AnsweredOnce | include/webcrown/server/impl/webserver.cpp:180-227 | after any buffers that bring no request, the one that does is answered by one run of the chain, and no later buffer is |
| StringUtils.Split | include/webcrown/common/impl/string_common.cpp:27-53 | the tokens between delimiters; with `skip_empty` exactly the non-empty ones |
| StringUtils.JoinTokens | include/webcrown/common/impl/string_common.cpp:27-53 | joining the tokens with the delimiter gives the string back, and no token holds it |
| StringUtils.TokensJoin | include/webcrown/common/impl/string_common.cpp:27-53 | splitting joined delimiter-free tokens gives them back |
| StringUtils.ReplaceAll | include/webcrown/common/impl/string_common.cpp:97-111 | the in-place loop terminates for a non-empty pattern and computes its in-place replacement |
| StringUtils.InPlaceIsReplaced | include/webcrown/common/impl/string_common.cpp:97-111 | that is the leftmost non-overlapping replacement, also when the replacement holds the pattern |
| StringUtils.ReplaceIsJoinSplit | include/webcrown/common/impl/string_common.cpp:97-111 | for a one-character pattern it is the tokens joined with the replacement |
| StringUtils.NonEmptyKeeps | include/webcrown/common/impl/string_common.cpp:42-44 | `skip_empty` drops exactly the empty tokens and keeps the others in order |
| UrlCodec.URLEncode | include/webcrown/common/url_parser.hpp:89-131 | the loop over the raw buffer of 3n+1 bytes never leaves it and encodes up to the first NUL |
| UrlCodec.URLDecode | include/webcrown/common/url_parser.hpp:151-183 | the in-place loop: the write cursor never passes the read cursor and the count of bytes left is never negative in the body |
| UrlCodec.RoundTrip | include/webcrown/common/url_parser.hpp:89-183 | decoding an encoded string gives it back up to its first NUL, so the two are inverse exactly on strings without one |
| UrlCodec.EncodedIsSafe | include/webcrown/common/url_parser.hpp:108-124 | the encoder's output holds only unreserved bytes, `+` and `%` |
| UrlCodec.SafeUnchanged | include/webcrown/common/url_parser.hpp:108-124 | unreserved bytes are encoded as themselves |
| UrlCodec.EscapesAreUpper | include/webcrown/common/url_parser.hpp:108-124 | a blank becomes a plus sign, and every other byte that is not unreserved a percent sign and its two digits in upper case |
| UrlCodec.PiecesDecode | include/webcrown/common/url_parser.hpp:151-183 | a string of plus signs, complete escapes of either case and other bytes decodes piece by piece, up to a decoded NUL |
| UrlCodec.PiecesOf | include/webcrown/common/url_parser.hpp:151-183 | every string is written in such pieces, so that says what every string decodes to |
| UrlSlice.Subject.TailSlice | include/webcrown/common/url_parser.hpp:24-36 | takes off what follows the first delimiter and shortens the string in place |
| UrlSlice.Subject.HeadSlice | include/webcrown/common/url_parser.hpp:38-47 | takes off what precedes the first delimiter and shortens the string in place |
| UrlSlice.ParseHTTPURL | include/webcrown/common/url_parser.hpp:68-84 | the slices in the source's order, on a copy |
| UrlSlice.RoundTrip | include/webcrown/common/url_parser.hpp:24-84 | a printed URL whose parts avoid the delimiters cut while they are in the string comes back part by part, the port as its number |
| UrlSlice.BareHost | include/webcrown/common/url_parser.hpp:52-84 | a bare host has port 0, not the -1 it is first set to |
| ToStr.Length | include/webcrown/common/meta/to_string.hpp:19-23 | the counting loop gives exactly the size of the printed text |
| ToStr.ToString | include/webcrown/common/meta/to_string.hpp:31-42 | the buffer is filled backwards and comes out exactly full |
| ToStr.FillDigits | include/webcrown/common/meta/to_string.hpp:35-36 | each division writes one digit, just below the last |
| ToStr.DigitsRead | include/webcrown/common/meta/to_string.hpp:35-36 | the digits are canonical: their value is the number, and none leads with zero |
| ToStr.RoundTrip | include/webcrown/common/meta/to_string.hpp:14-42 | for every integer and every base from 2 to 36 the sign and digits read back as the number |

## Left out

- Sockets, the event loop, threads, the expiry timer, accepting, starting and stopping the server, and object lifetime: only the abstract steps of a session are kept. A completed write reports between zero and all of its bytes, and a closed socket transfers nothing.
- Locks: a locked section is one step, so data races between unlocked accesses to the flags are not modelled.
- Session.WebSession.SendBytes: the null-pointer branch of `send_async` is not modelled, because a Dafny sequence has no null.
- Session.WebSession.TakeNote: the counters are not declared in the header that uses them; they are modelled as unbounded integers, so a counter that was cleared by a disconnect may go below zero here where the source's type would wrap.
- Session.WebSession.DisconnectHandler: unregistering the session from the server and the error callback are not modelled.
- SessionRuns.NoLostWakeup: speaks of sessions whose socket is open; after a close that reported an error nothing can be sent any more (SessionRuns.ClosedIsFinal), and bytes may then be left with nothing due (SessionRuns.FailedCloseLosesWakeup).
- Constructors and setters that only store a field or append to a list have no row above, except where the source does more in them.
- Undefined behaviour: reads outside a buffer, and cursors beyond its end, end a call as Fault; nothing is claimed of what comes after.
- HttpParser.Parser.ParseMessageHeaderValue: `isprint` and the other character functions are those of the C locale; a negative char is treated as a byte from 128 on.
- HttpResponse.LengthReadsBack: `atoi` is modelled on unbounded integers, so a body of 2^31 bytes or more, for which the source's result is undefined, is not told apart.
- UrlSlice.RoundTrip: for the same reason ports are bounded by 2^31.
- UrlCodec.URLEncode: the source keeps the length in an int and multiplies it by three; strings long enough to overflow it are not modelled apart.
- StringUtils.ReplaceAll: demands a non-empty pattern, because the source loops forever on an empty one.
- Route.Route.constructor: demands a path that compiles, because a constructor here cannot throw; `Compile` gives None exactly where the source throws.
- Routes whose several bind names occur in the prefix or in one another's values: the code notes this as a corner case; the exact condition is proved for one bind only.
- A route holds its endpoint and a context in the source; here the endpoint stands beside the route in the router's list, and the context is part of the endpoint.
- Middleware.AuthMiddleware.Execute: the callback is a function of the token, the route and the level; a callback with side effects is not modelled, and the assertion that one is set is left to the constructor.
- Other middlewares, the CORS one among them, are arbitrary functions from request and response to response and flow that leave the routes alone.
- HttpResponse.Response.Build: the table of status codes and reason phrases is not modelled; a status is its code and phrase.
- Error categories and their texts, `upper`, `endpoint_context`, logging: single tables or single branches.
- Database mapping, serialisation, dates and times, the clock, examples and build files.
