# Verified model of a small epoll web server

The server reads HTTP requests with an incremental line splitter and a request state machine over
one fixed buffer, prints responses into another, sends them with a resumable `writev`, closes idle
connections through a sorted timer list, hands requests to a worker pool that borrows database
connections from a second pool, and logs through a blocking ring queue. A request printer from the
load tool `webbench` comes with it. This project models those parts in Dafny and proves what they
guarantee, for every input, every run and every interleaving. `dafny verify dfyconfig.toml` checks
all of it. Nothing was executed.

## How it is built

Each object that the source updates in place is a class whose methods are proved equal to functions
on values; the properties are lemmas about those functions, or about an independent definition of
what the code is for.

| file | what is in it |
|---|---|
| `Common.dfy`, `CString.dfy` | options and distinct sequences; the C string functions the server calls, as scans of a buffer, `%d` and `atol` |
| `RequestParser.dfy` | `parse_line`, the three parsers and the loop of `process_read`, from one parser state to the next |
| `Observation.dfy` | what the rest of the server sees of a parsed request |
| `Reference.dfy` | the meaning of a request on the plain input, without buffer, indices or in-place writes |
| `Spelling.dfy` | what request lines, targets and headers mean, on their text and for every spelling |
| `BodyScan.dfy` | where the body of an input is, and what `parse_line` makes of one that is incomplete |
| `LineSplitting.dfy` | the one way to cut an input at CR LF |
| `ChunkIndependence.dfy`, `ChunkedRuns.dfy`, `StreamCuts.dfy` | how the input is cut into reads, and when that shows |
| `Sessions.dfy` | connections that are kept open for several requests |
| `HttpConn.dfy`, `Process.dfy`, `Exchange.dfy` | the connection object, `process()`, and a whole exchange from the reads to the wire |
| `Response.dfy`, `ShortWrite.dfy` | the response printer and the scatter/gather writer |
| `WebBench.dfy`, `BenchRoundTrip.dfy` | the request printer, and its requests as the server reads them |
| `TimerList.dfy`, `EventLoop.dfy`, `Server.dfy` | the pointer list, the main loop as a state machine, and the main loop's handlers on the real list |
| `Pools.dfy`, `PoolObjects.dfy` | the two pools as one interleaving system, and their critical sections |
| `Ownership.dfy`, `TimedOwnership.dfy` | who holds a connection, without and with the clock of the main loop |
| `BlockQueue.dfy`, `LogFile.dfy` | the ring queue, and the logger above it |

Behaviour that C++ leaves undefined is an outcome of its own, `Undefined`, never a precondition that
hides it: the null `m_url` that reaches `strncasecmp`, an overflowing `m_check_index +
m_content_length`, a terminator in front of the buffer, and a `writev` on foreign memory.

## Where the code and its intent differ

The model follows the code. Each difference is stated with the exact condition under which the code
does what it is meant to do.

- The CONTENT case sets `LINE_OPEN`, so the loop condition runs `parse_line` over an incomplete body
  (lines 228 and 268 of `http/src/http_conn.cpp`). `BoundaryIff` says after which calls a read
  boundary is invisible to all that can follow; `CutsInvisibleIff` says for every input when no way of
  cutting it can show: it has no body, or a length of at most one, or a body that stops
  `parse_line` at its first byte, or one that stays incomplete without an overflow only some cuts meet. `CutBodyShows` is a request that is recognised in one
  read and never when the bytes of its body arrive alone. The variant `Repaired` leaves the loop
  there; it is chunk independent on every input. On a single call it differs from the code only where
  the scan of an incomplete body makes `m_check_index + m_content_length` overflow (`RepairIff`).
- After a short write `write` compares and shortens the first iovec by its current length (lines
  171-181). `StepExactIff` and `ResponseExactIff` give the condition for the offered places: at most
  one write ends strictly inside the head. `CompletedSends` says what a completed transfer has sent
  otherwise: the end of the head is lost and as many bytes of the file are sent twice. So
  `FileDeliveredIff`: the kernel's answers deliver every file of a length exactly when at most one of
  them ends inside the head or the transfer never completes. `FileCutTwice` is such a run for every
  file, and in `PageSpins` every error page keeps the main loop in `write` for ever: the first iovec is
  empty before the head is sent, there is no second one, and `writev` takes nothing. The variant
  `Repaired`, which uses the length of the head, needs no condition.
- `init()` between two requests of a kept connection drops what is buffered behind the first one.
  `SecondAnswerIff`: the next answer of the session is the one that is meant, whatever is read next,
  exactly when nothing is.
- `FILE_REQUEST` with an empty file prints a page and then falls through to failure; `LINE_BAD` ends
  a call with `NO_REQUEST`, like an incomplete line.
- `vsnprintf` is offered one byte less than the room that is checked, so a text that misses the room by
  one or two bytes is cut and still counted; no response comes near that.
- `close_conn`, called by a worker, takes the connection off the user count but leaves its timer:
  `Accounting` shows that count and list agree exactly in the runs without such a close. A worker
  calls it for every page that does not exist (`NO_RESOURCE` is a `default` of `process_write`), and
  also for a connection that a tick has closed meanwhile, since `cb_func` leaves `m_sockfd`: then the
  count goes down twice, and `ClosedTwice` is a run that ends with a count below zero. When
  the descriptor is given out again, the timer left behind closes the new connection, however active
  it is: `ClosedEarly` is such a run, and `IdleGuarantee` says for every run which connections a tick
  closes, namely those that were idle for 3 * TIMESLOT and those with such a stale timer that has expired.
- A timer may close a connection that is queued or being processed; `HeldForLong` says when: its last
  read is at least 3 * TIMESLOT old, or a stale timer for it has expired. `OneHolderIff` says exactly which
  interleavings keep at most one holder for each connection; `ClosedWhileQueued` is one that does not.
  `ReusedBeforeModfd` is one without any timer: the number is reused between `close_conn` and the
  `modfd` behind it.
- `append` fails when the work queue is full, and nobody looks: the connection stays open and is never
  armed again. `KeptIff` says that this is the only step that loses one, and when; `DropLoses` is a run.
- `pop` gives up when its wait succeeds, whatever arrived (`PopIsOneStep`).
- `tick` leaves `tail` behind when it empties the list, so the list invariant says nothing about
  `tail` there.
- `write_log` ignores the result of `push`. `LosslessIff`: no interleaving loses a line exactly when
  there is at most one producer.

## Model

| member | source | states |
|---|---|---|
| RequestParser.LineShape | http/src/http_conn.cpp:360-389 | in a reachable state a line is delivered exactly when the first line break is CR LF, so the LF branch never delivers one |
| RequestParser.LineWF | http/src/http_conn.cpp:360-389 | parse_line keeps the ordered indices, the pointers that end before the current line, and that the byte before m_check_index is no CR |
| RequestParser.RewriteFits | http/src/http_conn.cpp:430-432 | the strcat of "judge.html" ends at or below m_check_index, so it cannot touch the next line |
| RequestParser.RequestLineWF | http/src/http_conn.cpp:391-436 | parse_request_line changes nothing at or behind m_check_index, leaves m_url a string inside its own line, and keeps the state well formed |
| RequestParser.HeaderWF | http/src/http_conn.cpp:438-476 | parse_headers keeps the state well formed, with m_host a string inside its own line |
| RequestParser.DispatchWF | http/src/http_conn.cpp:234-275 | every case of the switch that goes on keeps the state well formed |
| RequestParser.TurnsBound | http/src/http_conn.cpp:228-276 | from any point of the loop two unexamined bytes pay for each turn, but for the one free CONTENT turn |
| RequestParser.ProcessReadTurns | http/src/http_conn.cpp:221-278 | a call runs the loop body at most (m_read_index - m_check_index) / 2 + 1 times, so it ends |
| CString.EqCIIff | http/src/http_conn.cpp:399-401 | strcasecmp finds two texts equal exactly when they differ at most in the case of the 26 letters |
| CString.PrefixCIIff | http/src/http_conn.cpp:417-422 | strncasecmp finds a prefix exactly when the bytes of it do |
| CString.AtolText | http/src/http_conn.cpp:464-464 | white space, a sign and a number, whatever follows, are read as that number within the range of a long |
| CString.AtolNothing | http/src/http_conn.cpp:464-464 | a text without a number is read as 0 |
| CString.AtolFormatInt | http/src/http_conn.cpp:675-677 | every int that is printed is read back as itself |
| Spelling.ThreeParts | http/src/http_conn.cpp:391-415 | every line of three parts: GET and POST in any spelling, HTTP/1.1 in any spelling, parted by a space or a tab, are served and no others |
| Spelling.FewParts | http/src/http_conn.cpp:393-411 | a line of one or two parts is refused |
| Spelling.OriginForm | http/src/http_conn.cpp:426-432 | a target that starts with a slash is its own path, and the bare slash the welcome page |
| Spelling.AbsoluteForm | http/src/http_conn.cpp:417-425 | behind http and https in any spelling the path starts at the first slash behind the host; without one the call is undefined for http and refused for https |
| Spelling.OtherForm | http/src/http_conn.cpp:426-428 | every other target is refused |
| Spelling.NamedHeader | http/src/http_conn.cpp:450-471 | each of the three headers in any spelling, behind any blanks, with any value; nothing clears the linger flag |
| Spelling.OtherHeader | http/src/http_conn.cpp:472-474 | every other header changes nothing |
| Spelling.SpelledRequest | http/src/http_conn.cpp:221-278 | a whole request means the same in every spelling: method, path, host, linger flag, length and body |
| Reference.LineRefines | http/src/http_conn.cpp:360-389 | the line delivered in place and the bytes behind it are the first line and the rest of the plain input |
| Reference.RequestLineRefines | http/src/http_conn.cpp:391-436 | the in-place parser yields the code, method and path that the text of the line means |
| Reference.HeaderRefines | http/src/http_conn.cpp:450-475 | a header line changes content length, linger flag and host as its text means, and nothing else |
| Reference.BodyRefines | http/src/http_conn.cpp:259-270 | the CONTENT case answers as the bytes behind the blank line mean, in both variants; with a negative length the terminator cuts exactly the string it falls into |
| Reference.BodyObserved | http/src/http_conn.cpp:480-484 | a complete body is the text of its length from m_start_line on, wherever m_check_index is |
| Reference.HeadersRefine | http/src/http_conn.cpp:245-270 | from the first header on the loop computes the meaning of the rest of the input |
| Reference.ProcessReadComputesMeaning | http/src/http_conn.cpp:221-278 | process_read on any received bytes computes the meaning of the plain input: code, method, url, host, linger, content length, body |
| Reference.UndefinedTargetIff | http/src/http_conn.cpp:417-425 | the null m_url is dereferenced exactly for an http target without a '/' behind its host |
| Reference.TerminatorInRange | http/src/http_conn.cpp:478-487 | when a body is handed over, which one byte is written then, and when the call is undefined |
| BodyScan.BodyHeadRefines | http/src/http_conn.cpp:441-446 | the CONTENT state is reached exactly for inputs with a body, at its first byte and with its length |
| BodyScan.ReadsComputeMeaning | http/src/http_conn.cpp:118-278 | reads that do not cut the body, or whose cuts cannot be seen, give the one-call outcome, which is the meaning of the input |
| LineSplitting.SplitUnique | http/src/http_conn.cpp:360-389 | an input has only one cut into break-free lines and a rest without a complete line |
| LineSplitting.DeliverIsSplit | http/src/http_conn.cpp:360-389 | the lines parse_line delivers, and what stays in the buffer, are that cut |
| LineSplitting.ReadsConserveInput | http/src/http_conn.cpp:360-389 | over all reads the delivered lines rejoined with CR LF, and the rest, are the bytes that were read; no line holds a line break |
| LineSplitting.BadLineAbsorbs | http/src/http_conn.cpp:373-385 | a bad line stays bad at the same byte whatever arrives later |
| ChunkIndependence.LineAppend | http/src/http_conn.cpp:360-389 | later bytes change no delivered or bad line; an incomplete one is taken up where it stopped |
| ChunkIndependence.RequestLineAppend | http/src/http_conn.cpp:391-436 | parsing a request line commutes with the arrival of later bytes |
| ChunkIndependence.HeaderAppend | http/src/http_conn.cpp:438-476 | parsing a header commutes with the arrival of later bytes |
| ChunkIndependence.ContentAppend | http/src/http_conn.cpp:478-487 | a body that is complete gives the same outcome when more bytes follow it |
| ChunkedRuns.IncompleteStays | http/src/http_conn.cpp:228-276 | while the body is incomplete a call only moves m_check_index and m_start_line and never hands the request over |
| ChunkedRuns.FinalAppend | http/src/http_conn.cpp:221-278 | what ends a request is not changed by later bytes, in both variants |
| ChunkedRuns.Resume | http/src/http_conn.cpp:221-278 | a harmless call that wants more bytes can be forgotten: with any continuation the next call gives the same state |
| ChunkedRuns.HarmfulBoundary | http/src/http_conn.cpp:228-270 | after a harmful call the missing bytes complete the request in one piece but not in two |
| ChunkedRuns.BoundaryIff | http/src/http_conn.cpp:228-270 | a read boundary is invisible to every continuation if and only if the call before it is harmless, or its body can never fit and its scan has not come near an overflow |
| ChunkedRuns.LateBoundary | http/src/http_conn.cpp:228-270 | a boundary in a body that stays incomplete shows only when m_check_index has run so far that its sum with the length overflows |
| BodyScan.ScanEnds | http/src/http_conn.cpp:228-270 | where the scan of an incomplete body stops, and when it overflows, on the plain bytes |
| BodyScan.RepairIff | http/src/http_conn.cpp:259-270 | on one call the repaired loop has the outcome of the loop as written if and only if the scan it leaves out does not overflow |
| ChunkedRuns.RunIsOneCall | http/src/http_conn.cpp:118-278 | from any state between two calls, reads with harmless boundaries give the outcome of one call on everything |
| ChunkedRuns.ChunkIndependent | http/src/http_conn.cpp:221-278 | the code as written is chunk independent for requests without a body, with an uncut one, one that stops parse_line, or one that stays incomplete |
| ChunkedRuns.RepairedChunkIndependent | http/src/http_conn.cpp:259-270 | the repaired loop is chunk independent for every input and every way of cutting it |
| StreamCuts.CutShows | http/src/http_conn.cpp:228-270 | every other request with a complete body is recognised in one read, and not at all or with another body when it is read in the given pieces |
| StreamCuts.CutsInvisibleIff | http/src/http_conn.cpp:228-270 | for every input that fits the buffer: no way of cutting it into reads can be seen if and only if the stated condition on its bytes holds |
| StreamCuts.CutInvisibleIff | http/src/http_conn.cpp:228-270 | given reads of an input that ends with its body have the one-read outcome if and only if each that ends inside the body ends behind a part that stops parse_line at its first byte |
| StreamCuts.CutBodyShows | http/src/http_conn.cpp:268-268 | a POST with a two-byte body, read as head, byte and byte, is never recognised |
| Sessions.RequestsInOrder | http/src/http_conn.cpp:183-192 | a client that sends each request in reads of its own, no body cut visibly, is answered request by request, up to the first that does not linger |
| Sessions.SessionInOrder | http/src/http_conn.cpp:183-192 | for any reads: in order, each as it is meant, when init() finds nothing buffered, no read shows, no length is negative and no call is undefined |
| Sessions.LeftoverIsDropped | http/src/http_conn.cpp:83-106 | whatever is buffered behind a lingering request is gone for the rest of the session |
| Sessions.NextAnsweredIff | http/src/http_conn.cpp:83-106 | the read behind init() is answered as it is meant, whatever it brings, if and only if nothing was buffered |
| Sessions.SecondAnswerIff | http/src/http_conn.cpp:183-192 | behind a lingering request the next answer of the session is the one that is meant, whatever is read, if and only if no byte was read behind that request |
| HttpConnection.HttpConn.ParseLine | http/src/http_conn.cpp:360-389 | the loop over the buffer is the one-scan splitter, and writes only the two NULs |
| HttpConnection.HttpConn.ParseRequestLine | http/src/http_conn.cpp:391-411 | the in-place parser is the one on values and leaves the bytes behind the received ones alone |
| HttpConnection.HttpConn.ParseVersion | http/src/http_conn.cpp:408-415 | cutting off the version in place |
| HttpConnection.HttpConn.ParseUrl | http/src/http_conn.cpp:417-435 | stripping absolute forms, and the welcome page, in place |
| HttpConnection.HttpConn.AppendWelcome | http/src/http_conn.cpp:429-432 | no byte at or behind m_check_index changes |
| HttpConnection.HttpConn.ParseHeaders | http/src/http_conn.cpp:438-476 | the fields it sets are those of the parser on values |
| HttpConnection.HttpConn.ParseContent | http/src/http_conn.cpp:478-487 | the terminator stays inside the buffer and the NULs behind the received bytes stay |
| HttpConnection.HttpConn.ProcessRead | http/src/http_conn.cpp:221-278 | the loop is process_read on values; an unfinished request leaves a valid object for the next read |
| HttpConnection.HttpConn.constructor | http/src/http_conn.cpp:83-106 | a new connection is valid and in the initial state |
| HttpConnection.HttpConn.Reset | http/src/http_conn.cpp:83-106 | init() brings any connection back to the initial state |
| HttpConnection.HttpConn.Read | http/src/http_conn.cpp:118-141 | appends exactly what the socket delivered; success leaves a byte free for the terminator of a body |
| HttpConnection.DrainIs | http/src/http_conn.cpp:123-140 | whatever arrives in whatever pieces is taken in order; success exactly if it leaves room and the socket would block |
| Process.Process | http/src/http_conn.cpp:202-218 | a bad request gets the page of BAD_REQUEST, a complete one what do_request answers, an incomplete one is armed for reading; the response is ready to be sent |
| Exchange.Receive | main.cpp:234-252 | reads and process calls leave the response to what the request means, or the page for a refused one, ready to be sent |
| Exchange.Send | main.cpp:261-282 | the write calls send what the writer on values sends |
| Exchange.Serve | main.cpp:234-282 | for every accepted or refused request: when no read shows and at most one write ends inside the head, the wire carries a prefix of its response, and exactly that on completion |
| ShortWrite.StepExactIff | http/src/http_conn.cpp:169-181 | a short write keeps the iovecs exact if and only if it is not a second one that ends strictly inside the head |
| ShortWrite.StepRepaired | http/src/http_conn.cpp:169-181 | with the repaired step every short write does |
| ShortWrite.RunExactIff | http/src/http_conn.cpp:154-181 | the same over runs from any correct point of a transfer |
| ShortWrite.ResponseExactIff | http/src/http_conn.cpp:154-181 | from process_write on, the iovecs offer the rest of the response throughout if and only if at most one write ends strictly inside the head |
| ShortWrite.CallSends | http/src/http_conn.cpp:144-199 | one call sends the next part of the response and leaves a correct state for its resumption |
| ShortWrite.CallIs | http/src/http_conn.cpp:154-197 | a call sends as many bytes as writev takes; it is done when none is left, waits when the socket is full, and fails when writev does |
| ShortWrite.ShortWritesDeliver | http/src/http_conn.cpp:144-199 | over any suspensions, with at most one write that ends inside the head, the socket has got a prefix of head and file, all of it exactly on completion, and the two counters add up to its length |
| ShortWrite.CompletedSends | http/src/http_conn.cpp:144-199 | a completed transfer has sent the response if at most one write ended inside the head; else the last g bytes of the head are lost and g bytes of the file sent twice, which is the response only if the file repeats them |
| ShortWrite.DeliversIff | http/src/http_conn.cpp:144-199 | a completed transfer of a file whose first byte is not in the head has sent the response if and only if at most one write ended inside the head |
| ShortWrite.ScheduleIff | http/src/http_conn.cpp:144-199 | the answers of the kernel deliver every file of a length if and only if at most one of them ends inside the head or the transfer never completes |
| ShortWrite.HeadCutTwice | http/src/http_conn.cpp:171-181 | two writes inside any head with a file behind it, and the last byte of the head is lost and the first of the file doubled |
| ShortWrite.SpinsForEver | http/src/http_conn.cpp:171-181 | two writes inside any response of one part, and write never returns |
| ShortWrite.ForeignMemory | http/src/http_conn.cpp:171-181 | three writes inside the head of any response with a file, and writev is handed memory in front of the file |
| Response.FileDeliveredIff | http/src/http_conn.cpp:320-337 | the same exact condition for the head this server prints and every file of a length |
| Response.FileCutTwice | http/src/http_conn.cpp:320-337 | the failing run for every file the server sends |
| Response.PageSpins | http/src/http_conn.cpp:351-356 | the run that never returns for every error page |
| Response.PrintIff | http/src/http_conn.cpp:645-666 | which texts are printed as they are, which are cut and still counted, and which are refused |
| Response.PrintStores | http/src/http_conn.cpp:645-666 | which bytes of the buffer a call writes, and its result, in every case |
| Response.HttpReply.AddResponse | http/src/http_conn.cpp:645-666 | result, whole buffer and m_write_index for every text and every fill of the buffer |
| Response.HttpReply.AddStatusLine | http/src/http_conn.cpp:668-670 | the same for the status line |
| Response.HttpReply.AddHeaders | http/src/http_conn.cpp:672-683 | the same for length, linger flag and blank line, each only behind a success |
| Response.HeadersStop | http/src/http_conn.cpp:672-674 | what is printed and returned when one of the three parts does not fit |
| Response.HttpReply.ProcessWrite | http/src/http_conn.cpp:281-357 | for every code the buffer is exactly the response, nothing is cut, and the iovecs are ready to send response and file |
| Response.HttpReply.Advance | http/src/http_conn.cpp:169-181 | the bookkeeping in place is the step whose exactness is proved |
| Response.HttpReply.Transfer | http/src/http_conn.cpp:154-198 | the loop of write sends what the writer on values sends |
| Response.HttpReply.Write | http/src/http_conn.cpp:144-199 | result, registration, bytes on the wire, and the reset behind a finished response |
| Response.HttpReply.Reset | http/src/http_conn.cpp:83-106 | init() leaves nothing to send |
| Response.HeadersFit | http/src/http_conn.cpp:672-680 | headers take at most 53 bytes for every 32-bit length |
| Response.PrintHeadersFits | http/src/http_conn.cpp:672-683 | in front of 55 free bytes no part of them fails and they are appended as a whole |
| Response.HeadersMeaning | http/src/http_conn.cpp:672-683 | the printed headers mean their content length and linger flag, in front of any body |
| Response.HeadersRoundTrip | http/src/http_conn.cpp:672-683 | the server's own parser reads back length and linger flag of the headers it prints, and the body behind them |
| Response.ReplyReadsBack | http/src/http_conn.cpp:281-357 | every answer is a status line and headers that announce exactly the bytes behind the blank line |
| Response.RepliesAre | http/src/http_conn.cpp:281-357 | every reply byte by byte, with its status, length, linger flag and page; the other codes print nothing |
| Response.StatusReadsBack | http/src/http_conn.cpp:668-670 | the status code can be read back from the first line |
| WebBench.RequestFits | test_presure/webbench-1.5/webbench.c:199-291 | the request of every accepted url fits its array with the terminating NUL |
| WebBench.Bench.BuildRequest | test_presure/webbench-1.5/webbench.c:199-291 | refuses exactly the urls that are not accepted, prints the request, and sets host, port and version |
| WebBench.Bench.SplitAuthority | test_presure/webbench-1.5/webbench.c:246-262 | the host is the text up to the first ':' or '/', the port what stands behind the ':', and an array would overflow exactly when one of them is too long |
| WebBench.AcceptedIff | test_presure/webbench-1.5/webbench.c:223-262 | on the text of a url: which are accepted, refused, or overflow an array |
| WebBench.NoSchemeRefused | test_presure/webbench-1.5/webbench.c:223-227 | a url without "://" is refused |
| WebBench.RefusedText | test_presure/webbench-1.5/webbench.c:242-245 | so is one without a slash behind the host |
| WebBench.PartsOf | test_presure/webbench-1.5/webbench.c:239-263 | where host, port and path of a url are |
| WebBench.PortText | test_presure/webbench-1.5/webbench.c:254-257 | the port is the number behind the colon, and 80 for 0 |
| WebBench.NoPortText | test_presure/webbench-1.5/webbench.c:246-261 | it stays as it was without a colon |
| WebBench.RequestText | test_presure/webbench-1.5/webbench.c:212-289 | every printed request, part by part, for each verb, version, proxy and reload |
| WebBench.ProtocolIs | test_presure/webbench-1.5/webbench.c:207-219 | which version each verb and option asks for |
| BenchRoundTrip.TargetPath | test_presure/webbench-1.5/webbench.c:263-267 | the printed target, direct or absolute, leads the server to the path of the url |
| BenchRoundTrip.RequestMeaning | test_presure/webbench-1.5/webbench.c:199-291 | a printed HTTP/1.1 GET means the path and, in direct mode, the host of its url |
| BenchRoundTrip.BenchRequestServed | http/src/http_conn.cpp:221-278 | however a printed request is cut into reads, the server reaches GET_REQUEST with that path and host |
| TimerList.InsertSorted | timer/src/lst_timer.cpp:118-140 | stable insertion keeps a sorted list sorted, in front of exactly the later keys |
| TimerList.ReinsertInPlace | timer/src/lst_timer.cpp:40-43 | a key that grew but not past its successor is where stable insertion would put it |
| TimerList.ChainInsert | timer/src/lst_timer.cpp:123-128 | the four pointer assignments make a doubly linked chain with the node in its place |
| TimerList.ChainRemove | timer/src/lst_timer.cpp:86-87 | the two pointer assignments leave a doubly linked chain without the node |
| TimerList.WalksAgree | timer/include/lst_timer.h:29-50 | walked forwards from head or backwards from tail a valid list is the same sequence |
| TimerList.SortTimerList.AddTimer | timer/src/lst_timer.cpp:15-32 | the timer goes behind all with an equal or earlier expiry, in every branch |
| TimerList.SortTimerList.AddTimerAfter | timer/src/lst_timer.cpp:118-140 | the same for the overload, from any node that is not later |
| TimerList.SortTimerList.FindPlace | timer/src/lst_timer.cpp:119-131 | the traversal ends at the place of stable insertion |
| TimerList.SortTimerList.DelTimer | timer/src/lst_timer.cpp:60-89 | removes exactly its node in all four branches and keeps the order of the others |
| TimerList.SortTimerList.AdjustTimer | timer/src/lst_timer.cpp:35-57 | a timer whose expiry grew ends where removing and stably inserting it would put it, for head, middle and tail |
| TimerList.SortTimerList.Tick | timer/src/lst_timer.cpp:92-115 | calls back exactly the timers with expire <= now, in ascending order, and leaves the others |
| EventLoop.StepKeeps | main.cpp:161-290 | every event keeps a timer in the sorted list for each open descriptor; without worker closes, the bijection |
| EventLoop.Accounting | main.cpp:67-74 | in every run the user count is the list length less the closes by workers, late ones included; they agree exactly without one, and then open descriptors, list nodes and users_timer entries are in bijection |
| EventLoop.CountBounded | main.cpp:165-169 | the user count never exceeds MAX_FD |
| EventLoop.ExpiryIsActivity | main.cpp:240-271 | the expiry of an open connection is its last accept, read or write plus 3 * TIMESLOT |
| EventLoop.TickFires | timer/src/lst_timer.cpp:92-115 | a tick calls back exactly the expired timers, once each and ascending |
| EventLoop.TickCloses | main.cpp:59-74 | a tick closes an open descriptor exactly when its own timer or a stale one for it has expired |
| EventLoop.IdleGuarantee | main.cpp:59-64 | in every run a tick at t closes an open connection if and only if it was last active not later than t - 3 * TIMESLOT or has a stale timer that has expired |
| EventLoop.NoStaleTimer | main.cpp:177-189 | runs without worker closes have no stale timers |
| EventLoop.ClosedEarly | http/src/http_conn.cpp:109-115 | a connection accepted one second before is closed by the timer of an earlier one with its number |
| EventLoop.ClosedTwice | http/src/http_conn.cpp:109-115 | a connection closed by a tick and again by its worker takes the user count below zero |
| Server.EventServer.CbFunc | main.cpp:67-74 | closes the descriptor and lowers the count |
| Server.EventServer.OnAccept | main.cpp:161-192 | the handler on the pointer list makes the accept step, or refuses at the limit |
| Server.EventServer.OnGone | main.cpp:193-201 | hang-up and failed read or write: call-back and del_timer make the closing step |
| Server.EventServer.OnActive | main.cpp:244-252 | the assignment to expire and adjust_timer make the activity step |
| Server.EventServer.OnWorkerClose | http/src/http_conn.cpp:109-115 | close_conn by a worker, also of a closed connection, makes the step that leaves the timer behind |
| Server.EventServer.OnTick | main.cpp:59-64 | tick with its call-backs makes the tick step |
| Pools.StepKeeps | threadpool/include/threadpool.h:58-92 | each semaphore operation and critical section keeps the token counts, the order of tasks and connections, the whereabouts of each task and the partition of the connections |
| Pools.EveryInterleaving | cgimysql/src/sql_connection_pool.cpp:42-70 | so does every interleaving: queue = semaphore + threads between its operations, free + used = all connections |
| Pools.TokensAreGood | threadpool/include/threadpool.h:76-84 | no worker past a semaphore finds an empty list, no connection is in two hands, every accepted task is taken once and in order |
| Pools.EachTaskOnce | threadpool/include/threadpool.h:58-92 | in every interleaving each accepted task is exactly once in the queue, in the hands of a worker, or finished |
| Pools.NeverBlocks | cgimysql/src/sql_connection_pool.cpp:42-55 | with at most as many workers as connections getConnection never returns NULL and never waits |
| Pools.TooManyWorkers | cgimysql/src/sql_connection_pool.cpp:44-46 | with more workers some interleaving hands out NULL |
| Pools.NeverBlocksIff | cgimysql/src/sql_connection_pool.cpp:96-105 | the two pools compose without blocking if and only if there is a connection for every worker |
| PoolObjects.ThreadPool.AppendSection | threadpool/include/threadpool.h:59-66 | the critical section makes the step of the system, and refuses exactly at the limit |
| PoolObjects.ThreadPool.TakeSection | threadpool/include/threadpool.h:77-90 | the critical section makes the step of the system, and the worker goes on with the task that was taken, or not at all for a null one; in a reachable state it always finds one |
| PoolObjects.ConnectionPool.Init | cgimysql/src/sql_connection_pool.cpp:15-39 | all handles are idle, and the semaphore and the counters agree with them |
| PoolObjects.ConnectionPool.GetSection | cgimysql/src/sql_connection_pool.cpp:48-54 | front() is never called on an empty list, and the section makes the step of the system |
| PoolObjects.ConnectionPool.ReleaseSection | cgimysql/src/sql_connection_pool.cpp:62-67 | the returned connection was not idle, and the section makes the step of the system |
| Ownership.StepIff | http/src/http_conn.cpp:55-60 | a step keeps one holder for each connection if and only if it does not reuse a held descriptor |
| Ownership.OneHolderIff | main.cpp:158-283 | in every interleaving each connection always has at most one holder if and only if no accept reuses a held descriptor |
| Ownership.OneHolderMeans | threadpool/include/threadpool.h:82-90 | then nothing is queued twice and no connection of a worker is queued, armed, in the main loop or with another worker |
| Ownership.CarefulRunsHaveOneHolder | http/src/http_conn.cpp:202-218 | with no timer closing a queued or processed connection, and no reuse between close_conn and modfd, there is one holder throughout |
| Ownership.KeptIff | http/src/http_conn.cpp:202-218 | no step loses a connection but an append to a full queue, and that one exactly if it is open and nobody else holds it |
| Ownership.NoneIsLost | main.cpp:158-283 | in every interleaving without a full queue each open connection is held |
| Ownership.ExactlyOneHolder | main.cpp:158-283 | and by exactly one holder when no held descriptor is reused |
| Ownership.DropLoses | main.cpp:240-252 | a run that leaves a connection open and unarmed for good |
| Ownership.TakenInOrder | threadpool/include/threadpool.h:82-83 | workers take connections in the order in which they were queued |
| TimedOwnership.HeldForLong | main.cpp:59-74 | a tick closes a queued or processed connection only if its read is at least 3 * TIMESLOT old or a stale timer for it has expired |
| TimedOwnership.PromptRunsHaveOneHolder | main.cpp:152-290 | in every run of main loop, workers and clock in which held requests are younger than that, with no stale timer and no reuse between close_conn and modfd, each connection has one holder |
| TimedOwnership.ExactlyOneHolder | main.cpp:152-290 | and in such a run without a full queue each open connection has exactly one |
| Ownership.ClosedWhileQueued | main.cpp:67-74 | a timer that closes a queued connection, and a reuse of its number, give two holders |
| Ownership.ReusedBeforeModfd | http/src/http_conn.cpp:213-217 | a reuse between close_conn and modfd gives two holders without any timer |
| BlockQueue.FirstInFirstOut | log/include/block_queue.h:96-149 | over any operations popped ++ queued = accepted pushes since the last clear, within capacity |
| BlockQueue.RecordIsApply | log/include/block_queue.h:96-149 | that recorded queue is the one the operations leave |
| BlockQueue.PopIsOneStep | log/include/block_queue.h:111-125 | a pop takes the oldest item at one moment or leaves the queue alone; it gives up exactly on a successful wait |
| BlockQueue.TimedPopIsOneStep | log/include/block_queue.h:127-149 | so does the pop with a timeout; it gives up exactly when it had to wait and the wait succeeded or brought nothing |
| BlockQueue.BlockQueue.constructor | log/include/block_queue.h:11-20 | an empty queue of the given capacity |
| BlockQueue.BlockQueue.ContentsAt | log/include/block_queue.h:120-121 | the contents are the slots behind m_front, counted modulo the capacity |
| BlockQueue.BlockQueue.Congruent | log/include/block_queue.h:103-122 | m_back and m_front + m_size are congruent modulo the capacity |
| BlockQueue.BlockQueue.Clear | log/include/block_queue.h:28-34 | the contents are gone |
| BlockQueue.BlockQueue.Full | log/include/block_queue.h:36-44 | full exactly at capacity |
| BlockQueue.BlockQueue.Empty | log/include/block_queue.h:46-54 | empty exactly without contents |
| BlockQueue.BlockQueue.Size | log/include/block_queue.h:78-84 | the number of items |
| BlockQueue.BlockQueue.Back | log/include/block_queue.h:67-76 | the newest element, exactly if there is one |
| BlockQueue.BlockQueue.Push | log/include/block_queue.h:96-109 | appends to the contents, or is refused exactly at capacity and leaves them |
| BlockQueue.BlockQueue.Pop | log/include/block_queue.h:111-125 | the ring makes the pop on sequences, whatever other threads do during its waits |
| BlockQueue.BlockQueue.PopTimed | log/include/block_queue.h:127-149 | the same for the pop with a timeout, which waits once |
| LogFile.RotationOverRuns | log/src/log.cpp:104-131 | after any messages on any days the open file is numbered m_count / m_split_lines of its day |
| LogFile.OneDay | log/src/log.cpp:104-131 | messages of one day raise the count by one each; the open file carries the date and number of the last one that made it full |
| LogFile.LastDayDecides | log/src/log.cpp:107-124 | over any dates: the count is the number of messages behind the last day change, and the open file carries the whole date of the message that opened it |
| LogFile.TodayIsLast | log/src/log.cpp:119-124 | m_today is the day of the last message |
| LogFile.Log.WriteLog | log/src/log.cpp:104-166 | whatever other threads do meanwhile, a line goes to the file open at that moment or to the queue, and is lost exactly when they filled the queue between full() and push() |
| LogFile.Log.RotateFile | log/src/log.cpp:104-133 | the rotation in place keeps the numbering of the open file |
| LogFile.OneProducerLosesNothing | log/src/log.cpp:157-166 | with one producer every line it came with is in the file, in the queue or in its hands, and the room it saw is still there |
| LogFile.TwoProducersCanLose | log/src/log.cpp:157-160 | two producers that both see the last place lose a line |
| LogFile.LosslessIff | log/src/log.cpp:157-160 | no interleaving loses a line if and only if there is at most one producer |
| LogFile.DrainedInOrder | log/src/log.cpp:157-160 | with any producers queued lines reach the file in the order in which they were queued |

## Left out

- ShortWrite.DeliversIff: for files whose first byte is not in the head; `ShortWrite.CompletedSends` says for all others what was sent, and `Response.FileDeliveredIff` needs no such condition.
- Sessions.SessionInOrder: responses are taken to be sent completely and the answers of `do_request` not to close the connection, in all results about sessions.
- Server.EventServer.OnGone: events for a descriptor whose timer has left the list are not modelled, since `users_timer` then holds a deleted timer.
- BenchRoundTrip.BenchRequestServed: for urls without blanks, line breaks or NULs, and HTTP/1.1 GET requests, since the server refuses every other version and method of this printer.
- Reference.ProcessReadComputesMeaning: with a negative content length the url and host that the terminator cuts are stated relative to where the parser has them in the buffer.
- `do_request`, the page table, login and registration, SQL and MySQL calls; process() takes the answer of `do_request` as a parameter.
- Sockets, epoll, signals, alarms, `stat` and `mmap`: their answers are parameters of the methods and events of the state machines. A failing `accept` is not modelled.
- `users_timer` entries of descriptors that are closed stay behind, as in the source, and are claimed nothing about.
- `http_conn` is two classes, `HttpConn` for the read side and `HttpReply` for the write side; `Process` ties them together.
- Logging and `printf` inside the parser, which do not change its state.
- Mutexes, condition variables and semaphores below one step per operation, wake-up liveness, and the data race on `m_user_count`.
- Deleting a timer is its removal from the list; memory is not modelled.
- `unmap`, destructors, `destroyPool` and shutdown: no claim about released resources.
- `block_queue::front`, which reads the last popped slot, and `max_size`.
- `Log::init`, time stamps, line formatting and `flush`; of a file name only the date and the number are kept. Rotation compares the day of the month, so the same day of a later month is the same day to it, as in the source.
- File sizes beyond an int are converted as `add_headers` and `bytes_to_send` do; what is then sent is not claimed.
- The start-up read of the user table, which takes one database connection before any task is queued.
- `webbench` option parsing, its processes and its sockets.
