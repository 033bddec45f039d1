# Verified model of the Oreshnek HTTP server

A Dafny model of the server's own logic: request framing, the response write path, the event loop with its workers,
the router, the rate limiter, the thread pool and the text codecs. Each part is modelled in the form the C++ has:
objects whose methods change their fields, loops over buffers with indices, and plain functions where the source
computes a value. `dafny verify dfyconfig.toml` checks everything.

## How it is organised

- `bytes.dfy`, `numerals.dfy`: first-occurrence search, and `std::stoul`, `std::stoll`, `std::stoi`, `std::to_string`.
- `http_syntax.dfy`: what the parser computes from a whole buffer, as a function `Parse`.
- `http_request.dfy`, `http_parser.dfy`: requests as views into memory, and the parser as an object that works on a
  `char` array; its result is `Parse` of the bytes, and the views it leaves lie inside the consumed part.
- `request_text.dfy`, `chunked.dfy`: what a client may print and what the parser reads back. `chunk_sizes.dfy`: chunk
  sizes that do not fit a `size_t`, and exactly when they are read as the numbers they are.
- `framing.dfy`: the requests of a stream do not depend on how the stream is cut into reads.
- `refusals.dfy`: what the parser refuses.
- `http_response.dfy`, `validators.dfy`, `connection.dfy`: Range arithmetic, conditional requests, and the connection's
  read and write paths over a socket that may take any part of what it is given.
- `event_loop.dfy`: the event loop, the workers and the kernel's one-shot registrations as steps on one state.
  `loop_safety.dfy` proves what every step keeps, `loop_history.dfy` what steps do to the records,
  `loop_events.dfy` what one event does to its connection and to the others, `loop_theorems.dfy` the promises for
  every reachable state, `loop_outcomes.dfy` what each step leads to and the only reasons for closing a connection.
- `channel.dfy`, `connection_table.dfy`, `server.dfy`: the server as objects over real connections, each with its read
  buffer, parser and socket. What `View` makes of a connection is its value in the state machine, every operation on it
  does what the state machine says, and every turn of the server is a step of the state machine.
- `router.dfy`: the trie against the list of routes. `route_tables.dfy`: which tables it searches right.
- `rate_limiter.dfy`, `thread_pool.dfy`: the token buckets against limiters that never evict, the pool over every
  interleaving.
- `base64url.dfy`, `security.dfy`, `multipart.dfy`, `placeholders.dfy`: the codecs.

Inputs the program takes from outside (what `recv`, `send`, `sendfile` and `epoll_wait` do, the clock, handlers, random
salts, HMAC, PBKDF2 and JSON) are parameters of the members, with only the laws the theorems need.

Strings are `seq<char>`; an octet is a character below 256. Integers are unbounded except where the source's width
matters: chunk sizes, the decoded total and the step over a chunk wrap at 64 bits, the accumulators of base64url at 32,
and the numeral readers fail outside their types. Buffers are smaller than 2^63 bytes, as every C++ object is.

## Results worth knowing

Where the code and its evident intent differ, the code is modelled and the difference is stated.

- The header guard measures the whole buffer until the blank line has arrived, so a head that ends within three bytes
  of the limit can be refused on a short read and accepted on a longer one. `Framing.RefusedOnShortRead` says exactly
  when; the framing theorems are stated for streams in which no head ends there.
- Chunk sizes are computed in a wrapping `size_t`. A size of 2^64 and n is read as n, and after n decoded bytes a size
  of 2^64 - 2 passes both checks of the first pass, so the second moves 2^64 - 2 bytes: `ChunkSizes.LongSizeAccepted`
  and `ChunkSizes.HugeChunkOverruns` give all bodies of these kinds, `ChunkSizes.LongSizeWritten` writes one body out
  and `ChunkSizes.HugeChunkWritten` one whole request. `ChunkSizes.ExactIff` and `ChunkSizes.ParseExactIff` say exactly when the
  program reads a body as section 4.1 of RFC 7230 has it: on every prefix that may have arrived, if and only if no size
  line that is reached has a value beyond the limit whose low 64 bits are 0 or make a total within the limit. Sizes of
  at most 15 digits never have. `Parse` and every theorem on it are about the program as it is; a write outside the
  buffer is the outcome `Overrun`, where the server's state machine ends.
- `std::stoll` fails above 2^63 - 1, so a Range whose last position or suffix is larger is answered 416 although it
  selects bytes of the file. `HttpResponses.AnsweredRangeIsNamedRange` says exactly when.
- A Range that is not valid, such as `bytes=-`, `bytes=x-` or `bytes=5-2`, is answered 416; section 2.1 of RFC 7233 has
  a server ignore such a header. `HttpResponses.InvalidRangeIsRefused` covers them all.
- Field names are compared exactly, although section 3.2 of RFC 7230 has them ignore case. A length is read as that of
  the body exactly when its field is spelled `Content-Length` (`RequestText.LengthSpellingIff`).
- The two bytes behind the data of a chunk are skipped whatever they are (`Chunked.ReadChunk`).
- The name of a multipart part is looked for as `name="`, which also ends `filename="` and `xname="`. What is read is
  the value of the first attribute whose key ends in `name`: the line `form-data; xname="a"; name="b"` names its part
  `a`. `Multipart.QuotedAttrIs` says what is read off any line of attributes, `Multipart.ReadRightIff` when that is the
  value of the attribute asked for, and `Multipart.OwnKeyFirstIff` for which keys it is so whatever the values: no other
  key that ends in `name` stands before it. A value that itself ends in `name=` is a hit too, at its closing quote;
  `Multipart.OwnKeyAtFrontIff` covers all values.
- With a burst below one, a new client is admitted while the bucket of a known one can never be full enough, so eviction
  is visible and admission unbounded. `RateLimiting.EvictionInvisibleIff` and `RateLimiting.AdmissionBoundedIff` say
  that a burst of at least one is exactly what is needed.
- Both descents of the route search advance the same iterator. After a literal descent that failed, the parameter
  descent leaves out a segment, or reads past the end of the path; three lemmas give a wrong route, a missed route and
  the overrun. For a method, every answer is that of the search that advances once per level exactly when, wherever the
  table has a parameter beside a literal segment, a route of the method ends at the literal, and its routes through the
  literal cover those through the parameter, as they are and with one more segment
  (`RouteTables.SearchedAsIntendedIff`, and `RouteTables.WhateverHandlersIff` where routes share handlers); reading stays
  within every path exactly when the first of these holds (`RouteTables.StaysWithinIff`). Where some method has no route, every answer is that of the list of routes exactly
  when no place of the table has both literal segments and a parameter (`RouteTables.AnswersRightIffClear`).
- `handle_write_ready` closes a connection whose `keep_alive_` is false, but nothing sets it to false, so a full reply is
  always followed by the next request, except while draining.

## Model

| member | source | states |
|---|---|---|
| HttpParsing.Memmove | src/http/HttpParser.cpp:331 | an overlapping move copies the old bytes and changes nothing else |
| HttpParsing.HttpParser.Reset | src/http/HttpParser.cpp:13-18 | the parser is as new |
| HttpParsing.HttpParser.ParseRequest | src/http/HttpParser.cpp:20-74 | from a clean state the parser's verdict, the consumed bytes and the request's value are those of `Parse` on the buffer; all views lie in the consumed part; bytes after it, and all bytes when incomplete or refused, are unchanged; decoding leaves the buffer exactly where `Parse` says so |
| HttpParsing.HttpParser.Step | src/http/HttpParser.cpp:37-71 | one turn of the state machine: an error only where the whole buffer is refused, otherwise what is parsed so far continues to the same outcome, and a turn without progress means more bytes are needed |
| HttpParsing.HttpParser.ParseRequestLine | src/http/HttpParser.cpp:76-119 | the request line is split at its first two spaces; unknown methods and missing spaces are errors; no line end leaves everything as it was |
| HttpParsing.HttpParser.ParseQueryParameters | src/http/HttpParser.cpp:121-129 | the path and the query table are the two parts of the target, as views into the buffer |
| HttpParsing.HttpParser.ParseQueryString | src/http/HttpParser.cpp:131-152 | the table of views denotes the pairs of the query string, the last of equal names winning |
| HttpParsing.HttpParser.ParseHeader | src/http/HttpParser.cpp:210-232 | one field line adds its name and its value without leading white space, or is an error |
| HttpParsing.HttpParser.FrameBody | src/http/HttpParser.cpp:166-207 | how the fields delimit the body: chunked, sized, none, or refused |
| HttpParsing.HttpParser.ParseHeaders | src/http/HttpParser.cpp:155-233 | the loop over field lines ends where the functional parser does, with the same fields, state and position |
| HttpParsing.HttpParser.ParseChunkSize | src/http/HttpParser.cpp:235-251 | the low 64 bits of the size a chunk line says in hexadecimal digits before an extension and trailing blanks, or nothing |
| HttpParsing.HttpParser.SkipTrailers | src/http/HttpParser.cpp:297-302 | the trailer section ends just after its first empty line |
| HttpParsing.HttpParser.ScanChunkedBody | src/http/HttpParser.cpp:279-315 | the first pass, with its wrapping total, decides complete, incomplete or erroneous as the functional scan does and changes no byte |
| HttpParsing.HttpParser.MoveChunk | src/http/HttpParser.cpp:331-332 | appending a chunk to the decoded front never overwrites what is still to be read |
| HttpParsing.HttpParser.CompactChunkedBody | src/http/HttpParser.cpp:317-335 | all moves of the second pass stay within the buffer exactly when the scan met no size that wraps in the step over its chunk; then the front of the body holds the decoding of the original bytes, the reading position is the end of the body, and no byte before or after it has changed |
| HttpParsing.HttpParser.ParseChunkedBody | src/http/HttpParser.cpp:275-341 | both passes: a complete body is decoded in place and viewed; an incomplete or erroneous one leaves the buffer as it was; the rest leave the buffer |
| HttpParsing.HttpParser.ParseBody | src/http/HttpParser.cpp:254-273 | the body of either framing has the outcome of the functional parser |
| Chunked.ChunkedRoundTrip | src/http/HttpParser.cpp:275-340 | any chunked encoding of section 4.1 of RFC 7230, with extensions and trailers, decodes to the concatenation of its chunks and ends exactly where it ends, whatever follows |
| Chunked.ReadChunk | src/http/HttpParser.cpp:303-311 | a chunk within the limit adds its data, and the scan goes on two bytes behind it, whatever these are |
| Chunked.TooMuchContent | src/http/HttpParser.cpp:303-308 | an encoding of more than the limit is refused |
| Chunked.SizeLineIff | src/http/HttpParser.cpp:235-251 | a size is read off exactly the lines of hexadecimal digits, blanks and an extension |
| Chunked.BadSizeLine | src/http/HttpParser.cpp:285-290 | any other line in its place refuses the body |
| Chunked.HexAnyCase | src/http/HttpParser.cpp:242-249 | digits of either case have the same value |
| Chunked.HexValueIff | src/http/HttpParser.cpp:242-249 | a text is a hexadecimal number exactly when all its characters are digits of either case |
| Chunked.HexTextRoundTrip | src/http/HttpParser.cpp:237-250 | every size printed in hexadecimal is read back |
| ChunkSizes.ExactIff | src/http/HttpParser.cpp:275-315 | the scan of a chunked body is that of section 4.1 of RFC 7230 on every prefix of what arrives, if and only if no size line reached is misread |
| ChunkSizes.SameAnswerIff | src/http/HttpParser.cpp:275-315 | on one buffer the two also agree when the program, after misreading a size, refuses the body for something else, and only then |
| ChunkSizes.ParseExactIff | src/http/HttpParser.cpp:20-341 | the same for whole requests: the answers agree on every prefix, if and only if no size line is misread |
| ChunkSizes.ShortSizesAreRead | src/http/HttpParser.cpp:242-249 | where every size line reached has at most 15 digits none is misread |
| ChunkSizes.ShortSizesAreExact | src/http/HttpParser.cpp:242-311 | a stream without 16 hexadecimal digits in a row has the requests it has in natural numbers, and parsing it never leaves the buffer |
| ChunkSizes.HugeChunkSpills | src/http/HttpParser.cpp:302-331 | every body of a chunk of at least two bytes and a size line of 2^64 - 2 passes the first pass and leaves the buffer in the second, where natural numbers refuse it |
| ChunkSizes.HugeChunkOverruns | src/http/HttpParser.cpp:302-331 | so does every request with such a body, whatever follows it |
| ChunkSizes.HugeChunkWritten | src/http/HttpParser.cpp:302-331 | one such request as it is written, whatever follows it |
| ChunkSizes.LongSizeAccepted | src/http/HttpParser.cpp:242-249 | every body whose one chunk has a size of 2^64 and its length is accepted, where natural numbers refuse it |
| ChunkSizes.LongSizeWritten | src/http/HttpParser.cpp:242-249 | one of them as it is written |
| RequestText.ReadTarget | src/http/HttpParser.cpp:121-152 | printed paths and query pairs are read back |
| RequestText.ReadNameLast | src/http/HttpParser.cpp:131-152 | a last name without an equals sign has an empty value |
| RequestText.ReadStartLine | src/http/HttpParser.cpp:76-119 | a printed request line is read back part by part |
| RequestText.ReadFields | src/http/HttpParser.cpp:155-233 | a printed header block is read back field by field, with any white space before values |
| RequestText.HeadRoundTrip | src/http/HttpParser.cpp:20-233 | a printed head within the limit is read back, and the body is parsed right after it, whatever bytes follow |
| RequestText.SizedBody | src/http/HttpParser.cpp:166-273 | a request whose last Content-Length is a number from 1 to the limit, without chunks, is complete exactly when so many bytes have followed the head; these are its body and it ends behind them |
| RequestText.EmptyBody | src/http/HttpParser.cpp:166-207 | a length of 0, or none, is an empty body |
| RequestText.RefusedBody | src/http/HttpParser.cpp:172-200 | a length beyond the limit, one that is no number, or one next to chunks is refused |
| RequestText.LengthText | src/http/HttpParser.cpp:189-195 | a printed number announces itself up to 2^64 - 1, a text without a digit no number, and a negative one more than the limit |
| RequestText.LengthSpellingIff | src/http/HttpRequest.cpp:75-84 | the one field named Content-Length but for case is read as the length of the body exactly when it is spelled so |
| RequestText.RequestRoundTrip | src/http/HttpParser.cpp:20-273 | a printed request with a length-delimited body or none is complete, consumes exactly its bytes and gives back all its parts |
| RequestText.ChunkedRequestRoundTrip | src/http/HttpParser.cpp:20-341 | the same for a request with a chunked body |
| Refusals.StartRefusedIff | src/http/HttpParser.cpp:76-119 | a line is refused exactly when it is not a known method, a target without a space, and a version |
| Refusals.BadStart | src/http/HttpParser.cpp:37-71 | a buffer whose first line is no such line is refused |
| Refusals.BadField | src/http/HttpParser.cpp:210-216 | a field line without a colon, after any fields, refuses the request |
| Refusals.LongHeadRefused | src/http/HttpParser.cpp:27-35 | a head beyond the limit is refused, whatever follows |
| Refusals.LongBodyRefused | src/http/HttpParser.cpp:303-308 | so is a chunked body beyond its limit |
| Refusals.BadSizeRefused | src/http/HttpParser.cpp:285-290 | and a chunked body that does not begin with a size line |
| Framing.ParsePrefix | src/http/HttpParser.cpp:20-74 | a complete parse is the parse of every extension, a parse that fits in a prefix is the prefix's, a write outside the buffer stays one, and a refusal stays unless the guard refused too early |
| Framing.RecognisedOnItsLastByte | src/http/HttpParser.cpp:20-74 | a prefix of the buffer is complete exactly when it contains the whole request, and then gives the same request |
| Framing.RefusedOnShortRead | src/http/HttpParser.cpp:27-35 | an acceptable request has a prefix the guard refuses exactly when its head ends within the last three bytes below the limit |
| Framing.HeadersEndAtBlankLine | src/http/HttpParser.cpp:27-31 | the empty line that ends the fields is the first blank line of the buffer, which the guard measures |
| Framing.FragmentationIndependence | src/net/Connection.cpp:328-361 | for every interleaving of reads and parses, the requests served so far followed by those of the bytes left are those of the whole stream |
| Framing.SameRequestsHoweverCut | src/net/Connection.cpp:328-361 | two connections that got the same bytes in different pieces and have nothing left to serve have served the same requests |
| Framing.NeverStuck | src/net/Connection.cpp:86-95 | while requests fit the read buffer, a full buffer always holds a complete one |
| HttpRequests.ShiftKeepsText | src/http/HttpRequest.cpp:10-13 | a shifted view denotes the same bytes in the new memory |
| HttpRequests.HttpRequest.ShiftMap | src/http/HttpRequest.cpp:15-24 | the rebuilt table denotes the same names and values in the new memory |
| HttpRequests.HttpRequest.RebaseViews | src/http/HttpRequest.cpp:27-36 | after repointing, the request denotes the value it denoted before |
| HttpRequests.HttpRequest.MakeOwned | src/http/HttpRequest.cpp:38-41 | the request owns a copy of the bytes and denotes the same value in it |
| HttpRequests.HttpRequest.CopyFrom | src/http/HttpRequest.cpp:43-57 | the copy of an owning request owns memory of its own with the same value, and the original keeps its; the copy of one that owns nothing denotes the same value in the same foreign buffer |
| HttpRequests.HttpRequest.MoveFrom | src/http/HttpRequest.cpp:59-73 | the value moves with its memory, and views into a foreign buffer stay valid there |
| HttpResponses.ApplyHttpSemantics | src/server/Server.cpp:80-174 | a HEAD or not modified file sends no body, a missing file is left alone, every other names its validators, and the Range header is answered unless the client's copy is good |
| Validators.Compare | src/server/Server.cpp:101-107 | If-None-Match takes precedence over If-Modified-Since, which is compared by time |
| Validators.ListedIff | src/server/Server.cpp:65-72 | for any list of entity tags, weak or strong, the answer is 304 exactly when one of them is the file's, section 3.2 of RFC 7232 |
| Validators.OwnTagIff | src/server/Server.cpp:65-103 | the tag given out before is answered 304 exactly when size and time are the same in 64 bits |
| Validators.DatedIff | src/server/Server.cpp:104-107 | a date sent back is answered 304 exactly when the file has not changed since |
| HttpResponses.ApplyRange | src/server/Server.cpp:116-173 | 206 with exactly the bytes the range selects and their Content-Range and Content-Length, 416 when it selects none or cannot be read, the whole file when the header is no single range in bytes; of a printed header the last n bytes, those from a to b, or those from a on, as far as the file has them |
| HttpResponses.PrintedAnswered | src/server/Server.cpp:116-173 | what those printed headers are answered, for all numbers below 2^63 and all sizes |
| HttpResponses.SelectRange | src/server/Server.cpp:139-160 | the interval is the set of selected positions of the file, and is refused exactly when that is empty |
| HttpResponses.AnsweredRangeIsNamedRange | src/server/Server.cpp:139-155 | for every file size, the bytes answered are those the header names exactly when no number of the header exceeds what `std::stoll` reads or it names none |
| HttpResponses.InvalidRangeIsRefused | src/server/Server.cpp:139-172 | a range with no end given, an end that is no number, or its last position before its first is answered 416 |
| HttpResponses.OversizedEndIsRefused | src/server/Server.cpp:142-155 | a last position of 2^63 or more selects the whole file but is read as selecting nothing and answered 416 |
| Connections.Connection.ClearResponseState | src/net/Connection.cpp:55-67 | nothing is left to send |
| Connections.Connection.SetResponseContent | src/net/Connection.cpp:296-325 | what is left to send is the headers, then the text or the slice of the file, or nothing more for HEAD |
| Connections.Connection.HasDataToWrite | src/net/Connection.cpp:403-408 | true exactly when something is left to send, unless the file has shrunk |
| Connections.Connection.SendHeaders | src/net/Connection.cpp:211-227 | what is written plus what is left stays the same; the result counts the bytes written |
| Connections.Connection.SendTextBody | src/net/Connection.cpp:278-293 | the same for a text body |
| Connections.Connection.SendFileBody | src/net/Connection.cpp:235-276 | the same for a file sent in pieces of at most 256 KiB |
| Connections.Connection.WriteData | src/net/Connection.cpp:145-293 | every call appends to the wire a next part of what was promised, each byte once, and reports its length |
| Connections.Connection.Deliver | src/net/Connection.cpp:145-293 | over any number of calls the wire is a prefix of headers and body, and nothing is pending exactly when all of it is written |
| Connections.Connection.ReadData | src/net/Connection.cpp:86-142 | received bytes are appended to the buffer; a full buffer reads as a closed peer |
| Connections.Connection.ParseNext | src/net/Connection.cpp:328-347 | the outcome is `Parse` of the buffered bytes, with a fresh request whose views lie in the consumed part; without a request the buffer is as before, unless parsing left it |
| Connections.Connection.Consume | src/net/Connection.cpp:353-361 | the front of the buffer is dropped and the rest moved to its start |
| Connections.Connection.TakeRequest | src/server/Server.cpp:781-784 | the taken request owns the value that was parsed, also after its bytes have left the buffer |
| Connections.Connection.ServeBuffered | src/server/Server.cpp:733-784 | the requests taken from the buffer are owned copies of the next requests of the stream |
| Connections.Connection.ServeStream | src/net/Connection.cpp:86-361 | however the stream is cut into reads, the requests handed out own exactly the values the whole stream contains, and later reads and moves of the buffer do not change them, short of a write outside it |
| Connections.ServeFile | src/net/Connection.cpp:145-325 | through the whole write path the body of a GET for a file is the slice its Range selects, for printed headers the bytes they name, and the wire is a prefix of headers and that slice; all of it when the socket has taken all it was given |
| Channels.Channel.Receive | src/net/Connection.cpp:86-142 | a read appends what was received to the buffer, or reports a closed peer, nothing to read or an error, as the state machine has it |
| Channels.Channel.Next | src/net/Connection.cpp:328-351 | parsing the buffer in place answers as `Parse` does on its value; a request found denotes the parsed value, and beyond its bytes the connection has not changed |
| Channels.Channel.Skip | src/server/Server.cpp:739-742 | consuming a parsed request from the buffer is taking it in the state machine |
| Channels.Channel.Take | src/server/Server.cpp:781-788 | so is handing it over, and the request handed over owns its value when its bytes have left the buffer |
| Channels.Channel.SetReply | src/net/Connection.cpp:296-325 | what is unsent is exactly the serialised response, with its text or its slice of the file |
| Channels.Channel.Flush | src/net/Connection.cpp:145-293 | whatever the socket takes, and whether or not it fails after that, some next bytes move from the unsent part to the wire |
| ConnectionTables.ConnectionTable.HandleNewConnections | src/server/Server.cpp:671-731 | every accepted descriptor gets a new connection of its own, armed for reading, and the others are untouched |
| ConnectionTables.ConnectionTable.EnforceTimeouts | src/server/Server.cpp:1031-1088 | collecting first and closing after, in any order of the hash map, closes exactly the connections past their deadline, after what their sockets take of 408 or 504 |
| ConnectionTables.ConnectionTable.AnyWork | src/server/Server.cpp:615-621 | whether some connection in the map has a request or a reply in hand |
| Servers.Server.HandleClientData | src/server/Server.cpp:899-927 | on real buffers a readable event is the step of the state machine; where the invariant held it holds again, the connection is closed, armed or with exactly one job, its wire has not changed, and no other connection has |
| Servers.Server.HandleWriteReady | src/server/Server.cpp:929-971 | on real sockets a writable event is the step of the state machine for what was sent; where the invariant held it holds again, the connection is closed, armed or with exactly one job, its wire has grown by a part of what it was owed, and no other connection has changed |
| Servers.Server.ProcessCompletions | src/server/Server.cpp:469-500 | the responses swapped out are delivered or dropped in order, each to its own connection as the handler serialises it |
| Servers.Server.FinishBatch | src/server/Server.cpp:594-631 | draining begins on a stop request and stops accepting; timeouts run; the loop ends when drained or past its deadline |
| Servers.Server.Turn | src/server/Server.cpp:525-645 | every enabled step of any thread, on real connections and responses and whatever the sockets take, is a step of the state machine and keeps its invariant |
| Servers.Server.Continue | src/server/Server.cpp:525-971 | every run of the server is a run of the state machine; on every real connection the socket has whole replies to its own requests in order, then a part of the next or of one notice, and an open one waits in exactly one way by its own flags and with at most one job; and every job in hand holds the latest request of its connection, in memory of its own |
| Servers.Server.OneServed | src/server/Server.cpp:525-971 | on the real connection of any identity, after any run: the bytes, the one job, the one mode |
| Servers.Server.TaskRight | src/server/Server.cpp:781-800 | a queued or running job is that of its connection's latest request, which its request object owns apart from every connection's memory |
| LoopSafety.StepKeeps | src/server/Server.cpp:476-1088 | every step of loop, workers and kernel keeps the invariant of connections, descriptors, jobs, batch and counters |
| LoopSafety.RunKeeps | src/server/Server.cpp:525-645 | so does every run |
| LoopSafety.HandleKeeps | src/server/Server.cpp:557-591 | handling one event leaves no connection without registration, job or event |
| LoopSafety.CloseLands | src/server/Server.cpp:973-990 | closing a connection at any point of writing its replies ends its event: it has left the map and the count, and its wire ends in its own replies |
| LoopSafety.RearmLands | src/server/Server.cpp:502-523 | arming a waiting connection for what its flags wait for, or closing it when that fails, ends its event |
| LoopSafety.RejectLands | src/server/Server.cpp:739-774 | a request the loop answers itself has its reply pending behind all earlier ones and its connection armed for writing or closed |
| LoopSafety.DispatchLands | src/server/Server.cpp:781-801 | a request handed to a worker is its connection's one job, and all earlier replies are written |
| LoopSafety.DispatchNextLands | src/server/Server.cpp:733-886 | serving the next request ends with the connection armed, closed or with exactly one job, or with the program |
| LoopSafety.WriteReadyLands | src/server/Server.cpp:929-971 | a writable event ends in one of the modes, with the bytes written continuing the replies, also when the write fails after some of them |
| LoopSafety.CrashLands | src/http/HttpParser.cpp:331-332 | what a write outside the buffer leaves of the records is in order: every wire ends in its own replies |
| LoopSafety.WorkerKeeps | src/server/Server.cpp:459-467 | pushing a completion, waking the loop, leaving the handler and asking for a stop keep the invariant |
| LoopEvents.ReadSettles | src/server/Server.cpp:899-927 | a readable event leaves its connection closed, armed or with exactly one job, writes nothing, and changes no other connection |
| LoopEvents.WriteSettles | src/server/Server.cpp:929-971 | a writable event does so too, and adds to the wire a part of what was owed |
| LoopSafety.DeliverKeeps | src/server/Server.cpp:484-498 | a delivered completion is the one job of its connection and its reply continues the replies already written |
| LoopSafety.ExpiredOk | src/server/Server.cpp:1037-1084 | what the sweep closes ends in whole replies and a part of 408 or 504, or inside a reply |
| LoopSafety.SweepKeeps | src/server/Server.cpp:1031-1088 | the sweep keeps the invariant |
| LoopTheorems.Reachable | src/server/Server.cpp:525-645 | the invariant holds in every reachable state |
| LoopTheorems.ExactlyOneMode | src/server/Server.cpp:476-523 | in every reachable state each open connection is in exactly one mode: armed for reading and idle, armed for writing with bytes pending, with exactly one job or completion, or with its one event in the batch; no connection ever has two jobs |
| LoopTheorems.OwnRepliesInOrder | src/server/Server.cpp:733-971 | on every connection the bytes written are the full replies to its own first requests in order, then a part of the next reply or of one 408 or 504; its requests are the first of the stream it received |
| LoopTheorems.LateRepliesDropped | src/server/Server.cpp:476-500 | whatever completions wait, a connection that is closed or has none among them stays as it is, even when it holds a descriptor that one was meant for |
| LoopTheorems.SweepClosesTheOverdue | src/server/Server.cpp:1031-1088 | at the end of a batch the sweep closes exactly the connections past the deadline of what they wait for, after at most a part of 504 for a late handler or 408 for a late request |
| LoopTheorems.CrashesOnlyOnOverrun | src/http/HttpParser.cpp:317-335 | the program crashes only over a connection whose buffer the parser overruns, so never while no buffer holds 16 hexadecimal digits in a row |
| LoopTheorems.RecordsOnlyGrow | src/server/Server.cpp:476-1088 | over any run bytes and answers are only added, and nothing is added to a closed connection |
| LoopTheorems.MetricsExact | src/server/Server.cpp:723-800 | in every reachable state the gauge counts queued and running handlers within its cap, requests are limited, shed or dispatched, and active connections are the map's |
| LoopTheorems.CompletionsAreSignalled | src/server/Server.cpp:459-500 | while a completion waits, the loop has been or is about to be woken for it |
| LoopTheorems.CleanDrain | src/server/Server.cpp:612-625 | when the loop ends because nothing is in flight, every open connection has all its replies written in full |
| LoopHistory.StepSteady | src/server/Server.cpp:733-800 | every step keeps the request counters equal to the answers, never un-answers, and accepts only on an event of the listening socket |
| LoopHistory.NoAcceptAfterDraining | src/server/Server.cpp:597-604 | once draining has begun no connection is accepted for the rest of the run |
| LoopOutcomes.ReadableEvent | src/server/Server.cpp:899-927 | a readable event of a connection: closed at the peer's end or an error, otherwise served with what was delivered: armed for reading while a request is incomplete, closed over a refused one, answered once over a complete one |
| LoopOutcomes.WritableEvent | src/server/Server.cpp:929-971 | a writable event: closed on an error, armed for writing while bytes are left, closed after the reply while draining, otherwise served |
| LoopOutcomes.PartialRequestWaits | src/server/Server.cpp:878-886 | part of a request leaves its connection open, armed for reading, with all bytes received |
| LoopOutcomes.KeepsAlive | src/server/Server.cpp:957-971 | after a whole reply an idle client's connection stays open, armed for reading |
| LoopOutcomes.RefusedRequestCloses | src/server/Server.cpp:873-876 | a refused request closes its connection and no other |
| LoopOutcomes.LimitedRequest | src/server/Server.cpp:742-754 | a complete request of a limited client is answered 429 and never queued |
| LoopOutcomes.ShedRequest | src/server/Server.cpp:756-777 | otherwise, at the cap on handlers, it is answered 503 and never queued |
| LoopOutcomes.DispatchedRequest | src/server/Server.cpp:779-801 | otherwise it is queued once, behind all others |
| LoopOutcomes.IncomingEvent | src/server/Server.cpp:671-731 | every accepted descriptor gets an idle connection of its own, armed for reading, and the others stay as they are |
| LoopOutcomes.WakeupEvent | src/server/Server.cpp:476-500 | each open connection with a finished handler gets its response and is armed for writing, and no other changes |
| LoopOutcomes.ClosedForReasonIff | src/server/Server.cpp:476-1088 | one step closes an open connection exactly on a hang-up, the peer's end, a failed read, write or re-arming, a refused request, the end of a reply while draining, a deadline, the end of the loop, or a write outside the buffer |
| LoopOutcomes.ClosedOnlyForReason | src/server/Server.cpp:525-645 | over any run a connection is closed only by such a step |
| LoopOutcomes.StopIsActedOn | src/server/Server.cpp:597-604 | at the end of a batch a stop request starts the drain, stops accepting and sets the deadline |
| LoopOutcomes.DrainDecides | src/server/Server.cpp:612-628 | while draining the loop ends exactly when no open connection has a request or a reply in hand, or the deadline has come |
| LoopOutcomes.TimeoutsEnforced | src/server/Server.cpp:606-611 | while draining, or a second after it last did, the end of a batch closes every overdue connection after at most its notice, and no other |
| LoopOutcomes.StopsAccepting | src/server/Server.cpp:597-604 | after the first end of a batch behind a stop request no connection is accepted for the rest of the run |
| LoopOutcomes.StopRemembered | src/server/Server.cpp:597-604 | a stop request is not forgotten before that |
| LoopOutcomes.DeadlineEndsLoop | src/server/Server.cpp:616-628 | in every run an end of a batch at or past the deadline of the drain ends the loop |
| Routing.SplitPathToSegments | src/server/Router.cpp:143-159 | the loop finds the non-empty pieces between slashes |
| Routing.SegmentsInvertJoined | src/server/Router.cpp:143-159 | joining plain segments with slashes and splitting gives them back |
| Routing.BuildIs | src/server/Router.cpp:32-73 | the trie built by any list of registrations is that list: its children are the tries of the tails, its parameter name the first given, its handlers the last registered |
| Routing.Router.AddRoute | src/server/Router.cpp:11-30 | a path that starts with a slash is added to the list the trie represents, any other is refused |
| Routing.Router.FindRoute | src/server/Router.cpp:75-95 | on a clear table the answer is the last registered route of the method whose pattern matches, with each parameter bound under the name first given to its place, and there is none exactly when no pattern matches |
| Routing.MatchIs | src/server/Router.cpp:97-141 | the same for the recursive search, which then never reads past the last segment |
| RouteTables.SearchedAsIntendedIff | src/server/Router.cpp:75-141 | for every path the answer for a method, with its bindings, is that of the search that advances once per level, exactly when its routes through literals cover those through the parameters beside them, on tables where no two routes share a handler |
| RouteTables.WhateverHandlersIff | src/server/Router.cpp:75-141 | on any table the same, whatever handlers its routes have, which may be registered more than once |
| RouteTables.StaysWithinIff | src/server/Router.cpp:75-141 | no search for a method reads past the end of a path exactly when a route of it ends at every literal that stands beside a parameter |
| RouteTables.UnusedStaysWithinIffClear | src/server/Router.cpp:75-141 | for a method without routes that is so exactly on the tables where no place has both literal segments and a parameter |
| RouteTables.AnswersRightIffClear | src/server/Router.cpp:75-141 | where some method has no route, every answer for every method and path is that of the list of routes exactly on those tables |
| RouteTables.NotClearYetRight | src/server/Router.cpp:97-141 | a table that is not clear, and a method with routes that is searched as intended |
| RouteTables.NeverFallsBackIffClear | src/server/Router.cpp:121-133 | the faulty second descent is taken for no path exactly when no place of the table has both literal segments and a parameter |
| RouteTables.StraightSearchIsIntended | src/server/Router.cpp:97-141 | on any table, a search that does not fall back is the search that advances once per level |
| RouteTables.IntendedIsComplete | src/server/Router.cpp:97-141 | that search finds a handler exactly when a registered pattern of the method matches, and then that of such a pattern |
| RouteTables.FallBackSkipsASegment | src/server/Router.cpp:123-133 | falling back searches the parameter child with one segment left out, or reads past the end |
| RouteTables.FallBackFindsWrongRoute | src/server/Router.cpp:123-133 | a table and a path no pattern matches, for which a handler is found |
| RouteTables.FallBackMissesRoute | src/server/Router.cpp:123-133 | a table and a path a pattern matches, for which none is found |
| RouteTables.FallBackOverruns | src/server/Router.cpp:123-133 | a table and a path for which the search reads past the end |
| RateLimiting.TokenBucketLimiter.AllowKey | src/server/RateLimiter.cpp:13-33 | a known key is admitted exactly when it has a token available, a new one always; an admitted call costs its key one token, a refused one nothing, and no other key's tokens change |
| RateLimiting.TokenBucketLimiter.Evict | src/server/RateLimiter.cpp:35-48 | exactly the refilled buckets are dropped |
| RateLimiting.AllowSpendsOne | src/server/RateLimiter.cpp:13-33 | an admitted call costs its key one token, a refused one nothing, and other keys nothing |
| RateLimiting.EvictKeepsWorth | src/server/RateLimiter.cpp:35-48 | eviction changes what no key has available |
| RateLimiting.EvictionInvisibleIff | src/server/RateLimiter.cpp:13-48 | for every monotone run of calls and evictions the answers are those of a limiter that never evicts, exactly when the burst is at least one |
| RateLimiting.KeysAreIndependent | src/server/RateLimiter.cpp:13-48 | the answers to one key depend only on the calls of that key |
| RateLimiting.AdmittedInWindow | src/server/RateLimiter.cpp:13-48 | in every window the calls admitted for a key number at most the burst and the rate times its length |
| RateLimiting.AdmissionBoundedIff | src/server/RateLimiter.cpp:13-48 | that bound holds for every run exactly when the burst is at least one |
| RateLimiting.RefusedIff | src/server/RateLimiter.cpp:13-48 | in every run, with evictions and other clients, a call is refused exactly when some window that ends with it holds more admitted calls of its key than the burst, less one, and the rate times its length |
| RateLimiting.SpacedCallsAdmitted | src/server/RateLimiter.cpp:22-31 | a client that waits as long as one token takes is never refused |
| RateLimiting.QuietKeysForgotten | src/server/RateLimiter.cpp:35-48 | a sweep drops the bucket of every key that has been quiet as long as a full bucket takes |
| ThreadPools.ThreadPool.Enqueue | include/oreshnek/server/ThreadPool.h:48-56 | a running pool accepts the task behind all others and owes a notification, a stopped one refuses; the invariant of order, accounting and wake-ups is kept |
| ThreadPools.ThreadPool.WaitForTask | src/server/ThreadPool.cpp:17-28 | a worker starts the oldest accepted task not started yet; it blocks only on a running pool with everything started, and leaves only a stopped one with everything started; the invariant is kept |
| ThreadPools.StepKeeps | src/server/ThreadPool.cpp:9-50 | every interleaved step keeps order, accounting and wake-ups |
| ThreadPools.TasksStartInOrder | src/server/ThreadPool.cpp:13-31 | accepted jobs start once each in the order accepted, and while one is queued a notification is pending or some worker is not blocked |
| ThreadPools.ShutdownRunsEverything | src/server/ThreadPool.cpp:37-50 | when shutdown returns the queue is empty and every accepted job has run to its end |
| ThreadPools.ShutdownTerminates | src/server/ThreadPool.cpp:37-50 | after all workers are notified shutdown cannot hang: some worker can step until all have left, and every step leaves less to do |
| Base64Url.Encode | src/platform/SecurityUtils.cpp:19-35 | the loop with wrapping 32-bit accumulators computes the encoding by groups of three octets, section 5 of RFC 4648 |
| Base64Url.Drain | src/platform/SecurityUtils.cpp:25-28 | its inner loop pushes the sextets that are complete |
| Base64Url.Decode | src/platform/SecurityUtils.cpp:37-63 | the loop decodes the symbols before the first character that is none, by groups of four |
| Base64Url.AlphabetIsSymbols | src/platform/SecurityUtils.cpp:14-15 | the alphabet and the reverse table are inverse |
| Base64Url.EncodingShape | src/platform/SecurityUtils.cpp:19-35 | n octets become the ceiling of 4n/3 symbols, all in the alphabet |
| Base64Url.EncodedBits | src/platform/SecurityUtils.cpp:19-35 | every group of up to three octets is encoded by its bits, the first octet most significant, filled up with zeros, section 4 of RFC 4648 |
| Base64Url.ShiftIn | src/platform/SecurityUtils.cpp:23 | whatever overflowed at the top, the low bits are those of the last values shifted in, and the accumulator stays an `int` |
| Base64Url.RoundTrip | src/platform/SecurityUtils.cpp:19-63 | decoding what was encoded gives every octet string back |
| Security.Split | src/platform/SecurityUtils.cpp:206-214 | the tokens between delimiters, none after a trailing one |
| Security.SplitJoin | src/platform/SecurityUtils.cpp:206-214 | splitting joined parts gives them back, except that an empty last part is lost |
| Security.FreshTokenValid | src/platform/SecurityUtils.cpp:141-191 | a token validates under a secret at a time exactly when it is less than a day old and the secret signs it as the issuing one |
| Security.PrintedTokenIff | src/platform/SecurityUtils.cpp:160-191 | any header, payload and signature put together are accepted exactly when the secret signs the first two so, the header names the algorithm and the payload has not expired |
| Security.OtherPartsRefused | src/platform/SecurityUtils.cpp:160-162 | anything but three parts is no token |
| Security.RecordVerifiesIff | src/platform/SecurityUtils.cpp:111-139 | any record accepts exactly the passwords whose derivation with its own salt, iterations and length is the one recorded, and none if it is of another scheme or has no iterations or no salt |
| Security.StoredPasswordVerifies | src/platform/SecurityUtils.cpp:90-139 | a stored record accepts exactly the passwords with the derivation of the one it was made of |
| Multipart.IEqualsPrefix | src/http/Multipart.cpp:25-34 | the prefix test ignores case |
| Multipart.QuotedAttrIs | src/http/Multipart.cpp:13-22 | off any line of attributes is read the value of the first one whose key ends in the name asked for, unless an earlier value ends in it and an equals sign |
| Multipart.ReadRightIff | src/http/Multipart.cpp:13-22 | on values that do not end in an equals sign, what is read is the value of the attribute asked for exactly when the first key that ends in its name carries that value |
| Multipart.OwnKeyFirstIff | src/http/Multipart.cpp:13-22 | that is so for all such values exactly when no other key that ends in the name stands before it |
| Multipart.OwnKeyAtFrontIff | src/http/Multipart.cpp:13-22 | and for all values exactly when the attribute stands first, or one attribute stands alone whose key does not end in the name |
| Multipart.FirstQuoted | src/http/Multipart.cpp:13-22 | the value after the first quote of a line is read whatever stands before the name on its side of the quote |
| Multipart.FilenameFirst | src/http/Multipart.cpp:50-53 | a part whose file name stands before its name is named after its file |
| Multipart.Trim | src/http/Multipart.cpp:36-40 | blanks are removed at both ends, carriage returns at the right |
| Multipart.LinesRead | src/http/Multipart.cpp:43-57 | a header block is taken apart into its lines, and later lines of a name replace earlier ones |
| Multipart.BoundaryRead | src/http/Multipart.cpp:61-74 | a boundary is read off the media type, quoted or not, whatever parameters follow |
| Multipart.ParsePartHeaders | src/http/Multipart.cpp:43-57 | the fields of the last disposition and type lines |
| Multipart.Parse | src/http/Multipart.cpp:76-112 | the loop finds the named parts delimited one after the other |
| Multipart.ContentsAreSlices | src/http/Multipart.cpp:76-112 | on any input the contents are disjoint slices of the body, in order, none holding the delimiter |
| Multipart.RoundTrip | src/http/Multipart.cpp:76-112 | printed parts are read back in order, whatever stands before the first delimiter and behind the last, section 5.1 of RFC 2046 |
| Placeholders.ToPgPlaceholders | src/platform/PgBackend.cpp:42-72 | the loop replaces the k-th question mark that an even number of quotes precedes by `$k` and copies everything else |
| Placeholders.TranslationKeepsMeaning | src/platform/PgBackend.cpp:38-72 | literals are untouched, no placeholder is left, and translating twice is translating once |
| Placeholders.PlaceholdersAreNumbered | src/platform/PgBackend.cpp:63-65 | at every place the translation goes on with `$k` for the k-th placeholder and with the character itself otherwise |

## Left out

- TLS, kqueue and macOS: only the Linux plaintext path with one-shot epoll registrations is modelled.
- `100 Continue`: the interim response is not written, so the theorem about bytes on the wire is for clients that do not ask for it.
- Kernel calls: `recv`, `send`, `sendfile`, `epoll_wait`, `accept` and `stat` are results chosen by the environment; `docs/ARCHITECTURE.md` rules out `stop()` during `run()`, and so does the model.
- A handler is a function of the request; that it reads it through the request object it was given, which owns it, is not a step of its own. The loop's own 429 and 503 answers are one string each.
- What happens after a write outside the buffer: the model's program ends there, with nothing left of its memory and its sockets, and so do its guarantees.
- When `run` ends, connections are marked closed at once; in the program one that a worker still holds is closed when the worker lets go of it.
- The rate limiter's verdict is a parameter of the event loop; `rate_limiter.dfy` models the limiter itself, over reals, so rounding of `double` is not modelled.
- The trie is a value the router object holds, not linked nodes; sharing of nodes does not occur in the source.
- The calendar (`gmtime_r`, `strptime`), MIME types, compression, CORS, middleware, logging, metrics text, static files, configuration, SQLite and libpq: thin wrappers, or parameters where a modelled member needs their result.
- Route parameters of a request (`path_params_`) are the router's result and are not copied with the request object.
- JSON numbers are integers; a token whose `exp` is a fraction is not modelled.
- `quoted_attr` and the media type of a part are modelled for ASCII case folding only.
