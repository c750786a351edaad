# FUYAO: the HTTP parser, its printer and its pools, in Dafny

This project models the parts of FUYAO that carry real logic and proves what they are for:

* the incremental HTTP/1.1 parser `http_parser_execute` and the URL parser `http_parser_parse_url` of
  `Experiments/00/utils/http_parser.c` (strict mode);
* the request that `issue_http_request` prints and the response reader `HttpParser::extract_payload` of
  `Experiments/00/utils/utils.h`;
* `ThreadPool` and `ClientPool` of `Experiments/02/common`, as interleaved steps of any number of threads;
* `base64_encode` of `Experiments/02/common/utils.h`.

`dafny verify dfyconfig.toml` checks everything.

## How the parser is modelled

`Table.dfy` holds the transition table once: `Visit(s, ch)` is one pass through the big switch, with what it does
to the struct, to the marks, and how it goes on (next byte, `REEXECUTE()`, error, return for an upgrade, failing assert).
Two interpreters read that table.

* `Runs.Run` is the reference: one step per byte, callbacks recorded as they come, pieces of one data callback joined.
* `Execute.Parse` is the code: five mark pointers, callbacks with buffer slices, the bulk scans over header names and
  values, the `MIN(content_length, left)` jumps through bodies, the re-execute loop, the 32-bit header counter, marks
  re-armed on entry and flushed on exit. `HttpParser.HttpParser` is the struct around it.

`Execute.Parse` is proved equal to `Runs.Run`; everything else about the parser is proved of `Runs.Run` for all inputs
and all reachable structs, and so holds of the code for every way of cutting the input into buffers.

| file | contents |
|---|---|
| `Bytes`, `Types`, `UrlChars`, `HeaderWords`, `Table` | bytes, struct, URL states, header matcher, transition table |
| `Runs`, `Scans` | the byte-wise reference, joined traces, cutting into buffers, and where a bulk scan past the header size stops |
| `Invariants`, `Shape`, `Grammar`, `HeaderText`, `Views`, `Ledgers`, `Traces`, `Counting`, `Guarantees` | what every reachable struct and trace satisfies |
| `Bodies`, `Execute`, `Overflow`, `HttpParser` | the code, its refinement proof, and exactly where it differs from the byte-wise run |
| `Lengths`, `Chunks` | bodies framed by a length, and chunked bodies |
| `Codings`, `Options` | which Transfer-Encoding and Connection values the parser finds what in, by the elements of the value |
| `HeaderLines`, `Connections`, `Folds`, `Heads`, `Messages` | header lines, folded lines, header blocks and whole messages as a peer writes them |
| `Verbs`, `UrlFields`, `UrlParser`, `UrlAgreement`, `Requests`, `Printer` | methods, the URL parser, requests, and the printed request |
| `Payload`, `Responses` | the response reader, and responses in every framing |
| `ThreadPool`, `ClientPool`, `Base64` | the other components |

Assumptions: callbacks return 0, do not touch the parser and do not pause it; a call with no bytes (end of input) comes
last; `max_header_size` plus the length of a buffer is below 2^32. The lookup tables of the source are written as
the ranges they contain. Things kept as the code has them: `unhex` lists only 128 entries, so bytes from 128 on read as the
digit 0; `uses_transfer_encoding` is set when the name matches as a prefix and is not cleared when the name goes on.

Where the code and its promises differ, the code is modelled, with an input that shows it and the exact condition.

* `extract_payload` returns the last body callback. For every response in one buffer (without Upgrade lines) it returns the whole body if
  and only if the body comes in one piece: by length, until the end of the connection and not empty, or in exactly one chunk
  (`Responses.ExtractOfResponse`; the failing input is `Responses.TwoChunksLoseOne`).
* Header names and values are scanned in bulk and counted when the scan ends. A header that is too long, well-formed or not, can be
  refused by one call at a later byte than by one-byte calls, and after more of the value was reported: at the end of the name, at
  the CR or LF of the value, at a byte the value cannot hold, or at the end of the buffer (`Execute.Overran`, part of `Execute.Parse`).
  The error itself differs if and only if the byte that is too much is in a value whose scan began earlier in the call and a byte
  that the value cannot hold is read before the line or the buffer ends (`Overflow.ErrorDiffersExactly`; inputs from the first byte
  of a connection are `Overflow.LongAndMalformed` and `Overflow.LongButWellFormed`). A caller whose buffer fits into what is left of
  the header size gets full agreement (`Overflow.ParseWithinLimit`).
* A Transfer-Encoding value whose last element is `chunked` need not make a message chunked: the comma behind a beginning of
  `chunked` (or behind `chunked`) is not seen, and an empty element, a tab before an element or another byte that is no token
  character ends the matching (`Codings.MissedLists`). The flag is set if and only if the last element is `chunked` and the parser
  begins to match there (`HeaderLines.CodingLine` with `Codings.CodingExactly`, `Folds.FoldedCodingLine` for folded lines); if all
  earlier elements are ordinary, if and only if the last element is `chunked` (`Codings.PlainListExactly`).
* The bytes of trailers are counted and the count is not reset after them, so they are taken off what the head of the next message
  on the connection may have (`Chunks.Ended`).
* The destructor of `ThreadPool` drains the queue if and only if the pool has a worker (`ThreadPool.DrainsExactly`).
* `ClientPool` keeps within `max_size` if and only if `0 <= min_size <= max_size` (`ClientPool.BoundExactly`), and its count is the
  number of clients if and only if `min_size` is not negative.
* `base64_encode` keeps the length in 32 bits; its round trip holds if and only if the input is shorter than 2^32 bytes
  (`Base64.RoundTripExactly`).
* `issue_http_request` ends its lines with LF, where section 3 of RFC 7230 asks for CRLF. The parser accepts both, and requests and
  responses are read back with either.

## Model

| member | source | states |
|---|---|---|
| `Runs.RunSplit` | Experiments/00/utils/http_parser.c:670-2128 | split invariance: a run over `a + b` is a run over `a` and then one over `b`, with the same struct (`nread` included) and the same joined callbacks; if the first stops early, at the same byte |
| `Runs.RunAnyCutting` | Experiments/00/utils/http_parser.c:670-2128 | feeding the buffers of any cutting gives the run over the whole input |
| `Execute.Parse` | Experiments/00/utils/http_parser.c:625-2128 | the code refines the byte-wise run: same struct, same joined callbacks, same bytes consumed when there is no error; it fails exactly when the run fails, with the same errno at the same byte, and callbacks that lack at most the piece whose mark is set; when the run exceeds the header size, the errno, the byte and the callbacks are those of the bulk scan that holds the byte, if one does; two body callbacks of one call are never adjacent and none is empty |
| `Execute.FlushFits` | Experiments/00/utils/http_parser.c:2097-2117 | when a buffer ends at most one of the five marks is set, and flushing the five in order makes the callbacks the byte-wise trace |
| `Overflow.ParseWithinLimit` | Experiments/00/utils/http_parser.c:154-161 | a call whose buffer fits into what is left of the header size agrees with the byte-wise run in struct, callbacks, errno and bytes consumed |
| `Overflow.FitsLimit` | Experiments/00/utils/http_parser.c:154-161 | such a buffer never exceeds the header size |
| `Overflow.HaltExactly` | Experiments/00/utils/http_parser.c:1469-1690 | a value scan past the limit ends in an error of its own if and only if a byte that the value cannot hold is read ahead, and there |
| `Overflow.ErrorDiffersExactly` | Experiments/00/utils/http_parser.c:1245-1690 | for every failing call whose byte-wise run exceeds the header size: errno differs if and only if the byte is in a value whose scan began earlier in the call and a refused byte is read before the line or the buffer ends; errno and position are then those of that byte; the call never stops earlier |
| `Overflow.PlainRefusal` | Experiments/00/utils/http_parser.c:1497-1515 | the condition in closed form for values nobody looks into: a control byte at a place the capped loop reads, which passes every (max + 1)st byte |
| `Overflow.LongAndMalformed` | Experiments/00/utils/http_parser.c:1497-1515 | for every status line, a connection that starts with it and a long value with a control byte: one-byte calls refuse the size, one call refuses the control byte |
| `Overflow.LongButWellFormed` | Experiments/00/utils/http_parser.c:1469-1690 | for every status line and a value that is only too long: the errno is the same, but one call stops at the CR and has reported the whole value |
| `Execute.ScanField` | Experiments/00/utils/http_parser.c:1245-1379 | the bulk scan of a header name (inner loop capped at `max_header_size`, count added at the end) does what one-byte steps do, and past the limit stops at the end of the name |
| `Execute.ScanValue` | Experiments/00/utils/http_parser.c:1469-1690 | the bulk scan of a header value, with its capped skip, does what one-byte steps do, and past the limit stops at CR, LF, a refused byte or the end of the buffer |
| `Execute.TakeIdentity` | Experiments/00/utils/http_parser.c:1922-1955 | the jump through a body of known length equals its bytes one by one |
| `Execute.TakeChunk` | Experiments/00/utils/http_parser.c:2051-2071 | the same for chunk data |
| `Execute.TakeEof` | Experiments/00/utils/http_parser.c:1958-1962 | the same for a body that ends with the connection |
| `Execute.AllVisits` | Experiments/00/utils/http_parser.c:66-78 | the re-execute jumps of one byte end, by the rank of the states, and keep the correspondence with the byte-wise run |
| `HttpParser.HttpParser.constructor` | Experiments/00/utils/http_parser.c:2194-2202 | a fresh struct satisfies the invariant and has made no callback |
| `HttpParser.HttpParser.Execute` | Experiments/00/utils/http_parser.c:625-2128 | one call on the struct: nothing on a struct in error; end of input by state; otherwise as `Execute.Parse`, failures included, at most all bytes consumed, all of them if no error and no upgrade, fewer on an error; no assert fires |
| `HttpParser.HttpParser.ExecuteAll` | Experiments/00/utils/http_parser.c:625-2128 | one call per buffer leaves the struct and callbacks of the run over the concatenation; if that run fails the struct is in error, as the call on the first buffer that does not go through fails |
| `Invariants.VisitKeeps` | Experiments/00/utils/http_parser.c:703-2113 | every pass through the switch keeps the invariant and no assert in it fails |
| `Invariants.RunKeeps` | Experiments/00/utils/http_parser.c:1357-1358 | over any input from a good struct: no failing assert, and the struct stays good |
| `Shape.VisitShaped` | Experiments/00/utils/http_parser.c:2090-2111 | what a visit may do with the marks, so that at most one is set at the end of a buffer |
| `Shape.VisitFails` | Experiments/00/utils/http_parser.c:703-2113 | a visit that ends in an error makes no callback, and the error is not the one for the header size |
| `Guarantees.NoAssertFires` | Experiments/00/utils/http_parser.c:2010-2020 | for every reachable struct and every further input no assert fires; `nread` stays within the limit, the other counters within their fields |
| `Guarantees.FramingExclusive` | Experiments/00/utils/http_parser.c:1785-1920 | section 3.3.3 of RFC 7230 in every reachable state, lenient modes off: chunked without a length, a length without a transfer coding, no request delimited by the end of the connection |
| `Grammar.VisitPhase` | Experiments/00/utils/http_parser.c:703-2113 | the callbacks of one visit are admitted by the message grammar at the phase that goes with the state |
| `Guarantees.TraceFollowsGrammar` | Experiments/00/utils/http_parser.c:703-2113 | every reachable trace is a prefix of messages: begin, URL or status, (field, value)*, headers complete, body or balanced chunks with trailers, message complete |
| `Guarantees.DeadAfterMessage` | Experiments/00/utils/http_parser.c:1964-1971 | on every run, after a completed message, the parser is in the dead state if and only if `http_should_keep_alive` is false |
| `Guarantees.NothingAfterClose` | Experiments/00/utils/http_parser.c:704-712 | after a message that does not keep the connection alive no calls whatever begin another message or report anything |
| `Guarantees.DeadIsSilent` | Experiments/00/utils/http_parser.c:704-712 | in the dead state no input makes a callback or leaves the state |
| `Traces.ReachableOk` | Experiments/00/utils/http_parser.c:1209-1690 | every reachable struct agrees with its trace, however it was cut: the order of callbacks, the text of the header line being read, the lengths announced by the lines, and the state between messages |
| `Ledgers.VisitLedger` | Experiments/00/utils/http_parser.c:1196-1955 | every visit keeps the length field and flag in agreement with the Content-Length lines reported so far |
| `Guarantees.LengthAnnounced` | Experiments/00/utils/http_parser.c:1899-1955 | in a body of known length, on every run, the header lines of the message announce exactly one length, and it is the bytes still to come plus the body bytes reported |
| `Views.VisitText` | Experiments/00/utils/http_parser.c:1196-1767 | every visit keeps the matcher in agreement with the name and the value reported so far |
| `Counting.CountIsExact` | Experiments/00/utils/http_parser.c:154-161 | on every run `nread` is the number of header bytes since it was last reset |
| `HeaderText.NameRecognised` | Experiments/00/utils/http_parser.c:1209-1361 | the name matcher stands at a known header if and only if the text is that name, ignoring case |
| `Guarantees.NamesAreRecognised` | Experiments/00/utils/http_parser.c:1209-1379 | after the colon, on every reachable run, the matcher knows exactly the reported name |
| `Guarantees.ChunkedOnlyIfLast` | Experiments/00/utils/http_parser.c:1563-1722 | on every run, a byte turns on `F_CHUNKED` only by ending a Transfer-Encoding line whose last element is `chunked`; a lenient parser takes a NUL before an element for a blank |
| `Codings.CodingExactly` | Experiments/00/utils/http_parser.c:1563-1658 | the matcher has found `chunked` after a value if and only if the last comma-separated element is `chunked` and the parser begins to match there, by recursion over the elements |
| `Codings.PlainListExactly` | Experiments/00/utils/http_parser.c:1563-1658 | if every earlier element is not empty, begins with a token character and is no beginning of `chunked`: if and only if the last element is `chunked` |
| `Codings.HiddenComma` | Experiments/00/utils/http_parser.c:1581-1658 | a comma behind a beginning of `chunked` is not seen |
| `Codings.DeadElement` | Experiments/00/utils/http_parser.c:1563-1579 | after an empty element, or one that begins with no token character, nothing is found |
| `Codings.MissedLists` | Experiments/00/utils/http_parser.c:1563-1658 | five values whose last element is `chunked` and is missed |
| `Codings.FoundList` | Experiments/00/utils/http_parser.c:1563-1658 | `gzip, chunked` is found |
| `Folds.FoldedCodingLine` | Experiments/00/utils/http_parser.c:1396-1732 | a folded Transfer-Encoding value makes the message chunked if and only if its last element is `chunked`, the parser begins to match there and the value is folded only behind commas |
| `Options.OptionsExactly` | Experiments/00/utils/http_parser.c:1598-1676 | a Connection value asks for exactly the options among the elements that the parser reads |
| `Guarantees.LengthIsExact` | Experiments/00/utils/http_parser.c:1522-1561 | at the end of a Content-Length line the length is the decimal number reported, not wrapped and not the all-ones sentinel |
| `Bodies.SizedBodyEnd` | Experiments/00/utils/http_parser.c:1922-1955 | the bytes of a body of known length are reported once, in order and complete before the message ends |
| `Bodies.EofBody` | Experiments/00/utils/http_parser.c:1958-1962 | until the connection ends every byte is body |
| `Lengths.LengthRoundTrip` | Experiments/00/utils/http_parser.c:1899-1971 | conservation: on every run, after a head that led to a body framed by Content-Length and one of whose header lines says n, under any cutting, the body callbacks are exactly the next n bytes, then the message completes once |
| `Chunks.ChunkedRoundTrip` | Experiments/00/utils/http_parser.c:1973-2088 | every list of chunks encoded by section 4.1 of RFC 7230, with extensions and plain or Connection trailers, under any cutting: one chunk_header, the data and one chunk_complete per chunk, then the last chunk, the trailers and one message_complete |
| `Payload.JoinedKeepsBodies` | Experiments/00/utils/utils.h:152-162 | joining callbacks loses no body call of one execute call |
| `Payload.PayloadReader.constructor` | Experiments/00/utils/utils.h:112-118 | a response parser before its first byte, and no payload yet |
| `Payload.PayloadReader.ExtractPayload` | Experiments/00/utils/utils.h:124-162 | null if not all bytes were consumed, else a copy of the last body callback with a NUL; that is the whole body exactly when there was one body callback |
| `Payload.LengthPayload` | Experiments/00/utils/utils.h:124-136 | a response that lies in one buffer and whose header line says n gives back the n bytes after its head |
| `Payload.ChunkedPayload` | Experiments/00/utils/utils.h:124-162 | a chunked response gives back its last chunk; its whole body if and only if it has one chunk; nothing defined if it has none |
| `Payload.EofPayload` | Experiments/00/utils/utils.h:124-162 | a response that lasts until the end of the connection gives back what follows its head, nothing defined if nothing does |
| `Responses.ResponseRun` | Experiments/00/utils/http_parser.c:751-1971 | every response with any version, status code, reason, plain and Connection lines, framed by a length, by a coding list, by the end of the connection or without a body, is read back |
| `Responses.EofByCode` | Experiments/00/utils/http_parser.c:2131-2156 | a response without a framing line lasts until the end of the connection if and only if its status code allows a body |
| `Responses.ExtractOfResponse` | Experiments/00/utils/utils.h:124-162 | for every such response in one buffer: the last piece of the body is given back, nothing defined if there is none, and the whole body if and only if it comes in one piece |
| `Responses.TwoChunksLoseOne` | Experiments/00/utils/utils.h:124-162 | a response with the chunks `A` and `B` gives back `B` |
| `UrlParser.ScanUrl` | Experiments/00/utils/http_parser.c:2389-2462 | the field loop succeeds if and only if no byte is refused, and the fields are exactly the bytes that belong to them |
| `UrlParser.ParseHost` | Experiments/00/utils/http_parser.c:2302-2382 | succeeds if and only if the host text is accepted; userinfo, host and port are exactly their bytes; other fields are untouched |
| `UrlParser.ReadPort` | Experiments/00/utils/http_parser.c:2482-2506 | succeeds if and only if the decimal value is at most 65535, and returns it |
| `UrlParser.ParseUrl` | Experiments/00/utils/http_parser.c:2389-2509 | succeeds if and only if the text is an accepted URL; the fields are non-empty, inside, disjoint, in order and of their character classes, every byte outside them is a delimiter, the port is exact |
| `UrlParser.LabelsOrdered` | Experiments/00/utils/http_parser.c:478-623 | fields come in the order schema, userinfo, host, port, path, query, fragment |
| `UrlParser.LabelClass` | Experiments/00/utils/http_parser.c:2220-2300 | every byte of an accepted URL is of the class of its field, and a delimiter if it has none |
| `UrlAgreement.MayEnd` | Experiments/00/utils/http_parser.c:2464-2479 | an accepted URL ends in a state in which the message parser lets a URL end |
| `UrlAgreement.UrlIsTaken` | Experiments/00/utils/http_parser.c:1020-1088 | every accepted URL followed by a space takes the message parser past the URL, which is reported as it is |
| `Verbs.VerbOfPrefix` | Experiments/00/utils/http_parser.c:969-1018 | from the byte that decides on, every beginning of a method's text leads to that method |
| `Verbs.MethodRun` | Experiments/00/utils/http_parser.c:903-1018 | every known method is recognised by its text |
| `HeaderLines.PlainLine` | Experiments/00/utils/http_parser.c:1196-1767 | a header line that means nothing to the parser, with either line end, any blanks and an empty value or not, is reported and changes nothing else but the count |
| `HeaderLines.LengthLine` | Experiments/00/utils/http_parser.c:1423-1561 | a Content-Length line sets the flag and the exact number, up to the largest that is accepted |
| `HeaderLines.CodingLine` | Experiments/00/utils/http_parser.c:1402-1732 | every Transfer-Encoding line is reported and makes the message chunked if and only if its value lists `chunked` where the parser looks |
| `Connections.ConnectionLine` | Experiments/00/utils/http_parser.c:1444-1732 | every Connection or Proxy-Connection line is reported and sets exactly the flags its value asks for |
| `Heads.HeadRun` | Experiments/00/utils/http_parser.c:1196-1920 | a header block with at most one framing line among plain and Connection lines, and its blank line: the lines are reported and the body is read as the framing line says |
| `Messages.MessageRun` | Experiments/00/utils/http_parser.c:1196-2088 | a whole message after its first line is reported as it was written, in each framing |
| `Requests.RequestRoundTrip` | Experiments/00/utils/http_parser.c:903-2088 | every request of any version and framing, with either line end, is read back: method, URL, headers, body, one message, and the parser is between messages |
| `Printer.MessageIsRequest` | Experiments/00/utils/utils.h:236-243 | the printed message is such a request |
| `Printer.PrintedRequestIsReadBack` | Experiments/00/utils/utils.h:235-243 | for every known method but CONNECT, accepted URL, ip text and payload, and any cutting, parsing the printed message gives back method, URL, payload as the body and exactly one completed message |
| `ThreadPool.AlwaysGood` | Experiments/02/common/ThreadPool.h:36-100 | every step keeps mutual exclusion, the order of tasks, the counting of wakeups and the meaning of `stop` |
| `ThreadPool.NoLostWakeup` | Experiments/02/common/ThreadPool.h:45-60 | no reachable state has all live workers asleep with no notification owed and a task queued or the pool stopped |
| `ThreadPool.TakenInOrder` | Experiments/02/common/ThreadPool.h:41-62 | tasks leave the queue in the order of enqueue, and each taken task was finished once or is run by one worker |
| `ThreadPool.NothingAfterStop` | Experiments/02/common/ThreadPool.h:77-86 | after `stop` nothing is accepted |
| `ThreadPool.Drained` | Experiments/02/common/ThreadPool.h:53-56 | once all of at least one worker have returned, the queue is empty and the tasks finished are those accepted |
| `ThreadPool.NeverStuck` | Experiments/02/common/ThreadPool.h:36-100 | a pool in which nothing can go on has finished every accepted task and either waits for more or is destroyed |
| `ThreadPool.DestructorDrains` | Experiments/02/common/ThreadPool.h:91-100 | after the stop every run without new calls is bounded, and where it ends the destructor is through and exactly the accepted tasks are finished |
| `ThreadPool.WithoutWorkers` | Experiments/02/common/ThreadPool.h:36-62 | with no worker there is a run in which a task is accepted and the destructor gets through without it |
| `ThreadPool.NothingIsRun` | Experiments/02/common/ThreadPool.h:36-62 | with no worker no run ever takes or finishes a task |
| `ThreadPool.DrainsExactly` | Experiments/02/common/ThreadPool.h:36-100 | every run that ends the destructor has finished exactly the accepted tasks if and only if the pool has a worker |
| `ClientPool.Conserved` | Experiments/02/common/ClientPool.h:232-308 | every step keeps that no client is idle twice, idle and held, or connected twice, and keeps the count |
| `ClientPool.PoolConserved` | Experiments/02/common/ClientPool.h:206-308 | in every interleaving the count is the number of idle and held clients if and only if min is not negative, and never above max if min is not |
| `ClientPool.BoundExactly` | Experiments/02/common/ClientPool.h:206-281 | the pool never has more than max clients if and only if `0 <= min <= max` |
| `Base64.Base64Encode` | Experiments/02/common/utils.h:62-104 | the loop writes the encoding of the input, of its first length modulo 2^32 bytes |
| `Base64.WriteLast` | Experiments/02/common/utils.h:86-100 | one or two bytes left over are padded and written with their `=` |
| `Base64.Write` | Experiments/02/common/utils.h:75-81 | the masks, shifts and table lookups of one group write its sextets |
| `Base64.SumsAreSextets` | Experiments/02/common/utils.h:75-78 | the source's bit operations on 8-bit values are the four sextets of three bytes |
| `Base64.DecodeEncode` | Experiments/02/common/utils.h:62-104 | a decoder by section 4 of RFC 4648 gives back the input; the output has 4 * ceil(n / 3) characters |
| `Base64.EncodeShape` | Experiments/02/common/utils.h:97-98 | alphabet characters, then as many `=` as bytes are missing in the last group |
| `Base64.RoundTripExactly` | Experiments/02/common/utils.h:69-72 | the round trip of `base64_encode` holds if and only if the input is shorter than 2^32 bytes |

## Left out

- The copies of `http_parser.c` and `utils.h` under `Experiments/01`, `02`, `06` and `08`: the same logic again.
- Sockets, `send` and `recv` loops, timing, RDMA programs, and the Redis, memcached, MongoDB and Pheromone clients: input and output, or calls into code that is not in the repository.
- `Experiments/09/src-gen/anna.pb.h`: generated accessors.
- Non-strict mode, pausing, failing callbacks, and `on_headers_complete` returning 1 or 2.
- Status, errno and version names, `parse_payload_size`, the RPC trace bookkeeping of `ClientPool`: table lookups and easy loops.
- HttpParser.HttpParser.Execute: requires that `max_header_size` plus the buffer length is below 2^32, so that the header counter does not wrap within a call.
- HttpParser.HttpParser.ExecuteAll: nothing is said when the run over the whole input ends for an upgrade, since the caller has to stop feeding there.
- Execute.Parse: the struct that a failing call leaves is not described; a parser in error does nothing more.
- Guarantees.ChunkedOnlyIfLast: one direction, because a trace does not show where a value was folded; the condition that goes both ways is about the bytes of the line (`HeaderLines.CodingLine`, `Folds.FoldedCodingLine`).
- Folds.FoldedCodingLine: a value that is empty before its first fold is left out.
- HeaderLines.PlainLine: folded lines are left to the invariants (`Traces.ReachableOk`).
- HeaderLines.LengthLine: blanks behind the number and folded lines are left to the invariants (`Guarantees.LengthIsExact`).
- Heads.HeadRun: Upgrade lines are left out, and more than one framing line.
- Requests.RequestRoundTrip: CONNECT and upgrades are left out.
- Responses.ExtractOfResponse: Upgrade lines are left out; `Payload.LengthPayload`, `Payload.ChunkedPayload` and `Payload.EofPayload` take any head.
- Chunks.ChunkedRoundTrip: trailers named Upgrade, Content-Length or Transfer-Encoding are left out.
- UrlParser.ParseUrl: buffers longer than 65535 bytes, whose offsets do not fit the 16-bit fields of the result, are not modelled; the result is a returned value, not a struct updated through a pointer.
- Payload.PayloadReader.ExtractPayload: the first call on a reader only; the heap buffer and its release, and negative lengths, are not modelled.
- Printer.PrintedRequestIsReadBack: payloads longer than 18446744073709551609 bytes, whose length the parser refuses, are excluded.
- ThreadPool.DestructorDrains: futures, exceptions thrown by tasks and threads that fail to start are not modelled; the pool is a value that steps change, since the calls on it overlap.
- ClientPool.PoolConserved: safety only. `Remove` does not notify waiters, timeouts are a free choice, and pushing a client back after a failed connect is one step although the source does it without the mutex; the pool is a value that steps change, since calls of `Pop` overlap.
