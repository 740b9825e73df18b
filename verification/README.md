# A networking library, verified

A Dafny model of six pieces of a C++ networking library, with the properties
they are meant to have proved for all inputs and all runs. `dafny verify
dfyconfig.toml` checks the project.

- **The session's byte queues** (`Outgoing*.dfy`, `Incoming*.dfy`). Each half of
  `TCPSession` is given twice: as a state machine over messages and bytes, on
  which runs are reasoned about, and as a class with the source's own fields
  (arrays that grow and are shifted, a list of offsets, a list of files) whose
  methods are proved to do what the state machine does. The two halves share no
  field and have a lock each, so every method is one step and they are separate
  classes. Sockets and disks are arguments: a script of answers to write(2), the
  text that a read(2) brought.
- **The HTTP/1.1 header parser and printer** (`Http*.dfy`, `MsgHdr.dfy`,
  `RequestPrefix.dfy`). The parser is a set of functions from the text received
  so far to *more data*, *error*, or a header and the text left; the class with
  its loops is proved against them. In the loops, the walk pointer and the count
  of bytes left are represented by the text that remains.
- **URLs** (`Url*.dfy`), in the same two forms.
- **Chunked bodies** (`Chunks.dfy`, `ChunkForms.dfy`, `ChunkReader.dfy`).
- **Base64** (`Base64.dfy`, `Bits.dfy`) and the **Internet checksum** (`Checksum.dfy`).
- **Shared descriptors** (`Descriptor*.dfy`, `IPComm.dfy`): addresses in a
  memory, so that aliasing, use after deletion and a second close can be stated
  over every interleaving, and the class on real references, which that memory
  follows.

What one call or one text comes to is stated outright, on fields and
characters, in `OutgoingCalls.dfy`, `IncomingCalls.dfy`, `DescriptorCalls.dfy`,
`HttpWords.dfy`, `HttpForms.dfy`, `UrlForms.dfy` and `ChunkForms.dfy`; what holds
over runs, round trips and whole messages is in the other files.

`Scan.dfy` and `Buffers.dfy` hold the scanning and bounded printing steps the
text modules share. `Receiver.dfy`, `Streaming.dfy`, `Segmentation.dfy`,
`Overruns.dfy`, `ChunkedResponse.dfy` and `EndToEnd.dfy` join the sender, the
parser and the receiver.

## Where the code differs from what it is for

Each of these is a proved statement about the code as it is.

- A file message of which a non-blocking socket cut a chunk short is never
  completed: the file's cursor has moved on (`BehindIff`, `GapIsForever`). Only
  if the file is longer than its stated length can it complete, with wrong bytes
  (`SkippedIff`). A file message without a body, or with a file that is too
  short, is never sent (`SentIff`).
- A URL with a query or fragment but no path or port is read back with another
  host (`UrlRoundTrip`, `QueryLost`), and one without a scheme with some other
  scheme if the text or the memory behind it shows one: so a request for a path,
  without header lines, is misread if its body has a "://" (`RequestReadIff`,
  `BodyTaken`).
- A part of a URL with one of three marks is read as STR_TAINTED, except the
  query, in which they are kept (`UrlRead`).
- A header that ends with an empty value is printed but cannot be read back
  (`ResponseRoundTrip`, `RequestRoundTrip`, `EmptyValueLost`).
- A body length of 2^31 or more is announced as another length
  (`BodyLenRoundTrip`, `TwoGigabytes`).
- A request whose query has a key with its '=' at offset 16 or later is lost if
  the reads are cut inside that key (`PrefixesWait`, `LostIff`), and a request
  with nothing behind its header is waited for (`MessageArrives`).
- Chunk data ends at a CR whatever the chunk size said (`ChunkedBodyIsJoined`,
  `CrLost`), and the count left over is one too high for each chunk. The chunk
  parser is handed the length of the header for that of the text behind it: a
  chunked response with a longer body is never taken, a shorter one is taken
  from memory that was not received, and a byte of each chunk stays in the buffer
  (`ChunkedTaken`).
- `ClearIncomingMsg` leaves an unstreamed body in the buffer
  (`ClearExposesNext`) and, like any error, forgets the framing type, so that a
  session reads one header only (`OnceOnly`). With a negative Content-Length it
  moves memory from before the buffer (`OverrunStep`, `LeavesIff`). A file that is
  still open is let go with an error event and never closed (`LostStep`).
- Once a 32-bit accumulator wraps, the checksum depends on the byte order of the
  host (`ByteOrderIndependent`, `ByteOrderLost`), although a stored checksum still
  verifies (`StoredChecksumVerifies`).
- On a big-endian host the checksum of an odd number of octets is not the
  padded one (`OddLengthOnBigEndian`, `OneOctet`).
- Assigning the only owner of a descriptor to itself uses it after its deletion
  (`StepIsSafe`, `SelfAssigned`).

## Model

| member | source | states |
|---|---|---|
| EndToEnd.MessageArrives | TCPSession.cc:353-449 | For every header that can arrive, response or request, every body, in memory or at the front of a file, every run of the sender in which the message left the queue first and as sent, and every way of cutting the reads: the buffer holds the sender's body and then the bytes that follow it as soon as the message is complete, and it is, except a request with nothing at all behind its header |
| EndToEnd.CallArrives | TCPSession.cc:455-621 | The same from the call that queues the message on a new session: it takes the message, whatever its body, and when that leaves the queue as sent, whatever else is called, it arrives |
| EndToEnd.CallDrains | TCPSession.cc:455-621 | From that call on, with no other: the write-and-pop loop empties the queue and the message arrives |
| EndToEnd.CallTakes | TCPSession.cc:455-621 | AddMsgBuf and AddMsgFile queue every message with a header that can arrive, behind all others |
| EndToEnd.ResponseArrives | TCPSession.cc:353-449 | For a response: the message is complete, its header is the sender's, the buffer holds the sender's body and then the bytes that follow it |
| EndToEnd.QueuedMessageArrives | TCPSession.cc:723-948 | The same from any sender state with the message in front: its write-and-pop loop empties the queue and the receiver's loop completes the message |
| EndToEnd.FileArrives | TCPSession.cc:957-1041 | The receiver may direct the body to a file once the header is found: reads of any sizes and disk writes of any positive sizes end with the file closed and equal to the sender's body, the bytes after it in the buffer |
| Receiver.ArrivedIsComplete | TCPSession.h:225-230 | While the stream comes in, IsIncomingMsgComplete holds exactly when header and body have arrived, for a request with one byte past the header, and then the body is at the front of the buffer |
| Receiver.AllArrives | TCPSession.cc:629-707 | Reads of any positive sizes bring in the whole stream, although each is limited by the room in the buffer |
| Receiver.Early | TCPSession.cc:378-394 | On every beginning of the stream that is too short for its header the parser waits: it reports neither an error nor a wrong header |
| Receiver.WireArrives | TCPSession.cc:629-707 | From an empty buffer, reads of any sizes end with the body delivered, complete exactly if the bytes it takes are on the wire |
| Receiver.InitOn | TCPSession.cc:353-449 | One InitIncomingMsg keeps the receiver in step with the stream, never reports an error, and succeeds exactly when enough of it is there |
| Streaming.StreamEnds | TCPSession.cc:957-1041 | From any point of streaming: as many rounds of reading and writing as there are bytes missing, of any positive sizes, end with the file closed, the body and nothing else in it, and what follows at the front of the buffer |
| Streaming.RoundFiling | TCPSession.cc:957-1041 | Each round keeps the file the start of the body and strictly lowers what is missing |
| ChunkedResponse.ChunkedTaken | TCPSession.cc:378-445 | A chunked response is taken exactly if its header is longer than its chunks less a byte for each and their last CRLF, otherwise waited for; when taken, the joined body is in front, the header states its length, and the uncounted bytes follow; also if the chunks are old memory and were not received |
| ChunkedResponse.MeasuredLen | TCPSession.cc:420-424 | The length added to a chunked header is read back exactly below 2^31 |
| Segmentation.LostIff | TCPSession.cc:378-394 | For a URL with a scheme or a path alone: some sequence of reads and attempts ends with the session reset exactly if a query key of the request that is not empty has its '=' at offset 16 or later |
| Segmentation.CutKeyResets | TCPSession.cc:378-394 | With a cut key at the end of the buffer the next InitIncomingMsg drops everything received, unless the memory behind the buffer shows a scheme that the request does not have |
| EndToEnd.FramedOk | MsgHdr.cc:278-293 | A header given its length by set_body_len can arrive, also a request for a path that had no header line before, and reads back that length |
| OutgoingRun.WireOfRun | TCPSession.cc:723-948 | Over every run of adds, writes with any partial sends, and pops of sent messages, the wire is the popped messages' headers and bodies in queue order, then the beginning of the front one, on a blocking socket or if no file is longer than its stated length |
| OutgoingRun.NoneLost | TCPSession.cc:455-616 | Over every run at all, the messages that left the queue followed by those in it are the accepted ones, in order |
| OutgoingRun.Run | TCPSession.cc:723-948 | Every run keeps the invariant that ties the wire to the log of departed messages and the front's offsets |
| OutgoingRun.GapIsForever | TCPSession.cc:863-908 | Once a chunk of a file no longer than its stated length was cut short, no later calls ever complete that message: it stays unsent or leaves the queue as unsent |
| OutgoingFiles.SentIff | TCPSession.cc:863-908 | A file message can be sent, by some run, exactly if it has a body and its file is at least as long |
| OutgoingFiles.SkippedIff | TCPSession.cc:863-908 | It can count as sent with bytes of its file left out exactly on a non-blocking socket, for a body that is not empty and a file that is longer |
| OutgoingFiles.BehindIff | TCPSession.cc:892-908 | It can fall behind its file exactly on a non-blocking socket, if there is anything to send, also if the file fits |
| OutgoingRun.LongFile | TCPSession.cc:863-908 | A concrete file longer than its stated length, cut once: the message counts as sent with a wrong byte on the wire |
| OutgoingRun.EmptyFile | TCPSession.cc:863-878 | The write that finishes the header of a file message without a body is an error |
| OutgoingRun.BlockingIsWhole | TCPConn.cc:451-481 | On a blocking socket no run ever cuts a chunk short |
| OutgoingDrain.DrainEmpties | TCPSession.cc:1085-1176 | If each turn's socket takes enough of what that turn writes to get further, the write-and-pop loop ends with an empty queue after at most as many turns as unsent bytes and messages, all of them on the wire in order; files may be longer than their stated length |
| OutgoingDrain.TurnProgress | TCPSession.cc:723-948 | Each turn of that loop strictly lowers the unsent bytes plus messages and loses no message |
| OutgoingDrain.WillingIff | TCPSession.cc:753-924 | What the socket must do is exact: a write gets further without an error and without falling behind the file exactly if some bytes of a header or of memory go out and a chunk that is reached goes out whole |
| OutgoingDrain.LiveIsWilling | TCPConn.cc:451-481 | A non-blocking socket that takes anything and then stalls is enough for a message in memory and for a header that it does not finish |
| OutgoingDrain.SteadyIsWilling | TCPConn.cc:451-481 | A socket that never stalls is enough for every message |
| OutgoingDrain.StateTests | TCPSession.h:233-241 | In every valid state IsOutgoingDataPending holds exactly when bytes are unsent, IsOutgoingMsgSent exactly when as many bytes of the front are out as it has |
| Outgoing.SentIsExact | TCPSession.h:233-241 | A message counts as sent exactly when its length is out; the bytes are then its own, unless it is a file longer than stated that was cut short |
| Outgoing.WriteItemOk | TCPSession.cc:753-924 | One write only appends bytes of the message, in order, whatever the socket takes |
| Outgoing.WriteKeeps | TCPSession.cc:723-948 | A write keeps the queue invariant, also when it fails and drops the queue |
| Outgoing.PopKeeps | TCPSession.cc:1085-1176 | A pop keeps the queue invariant and moves the front's bytes to the log |
| Outgoing.AddKeeps | TCPSession.cc:455-616 | Adding a message keeps the invariant and the wire |
| Outgoing.Send | TCPConn.cc:451-481 | The write loop takes at most what it was given, and on a blocking socket all of it or an error |
| OutgoingCalls.AddIs | TCPSession.cc:463-535 | A message, in memory or with a file and with any body, is queued behind all others exactly if its header has a first character that is no NUL; otherwise nothing changes |
| OutgoingCalls.SendIs | TCPConn.cc:451-481 | The loop over write(2): after partial writes that do not finish, a failure is an error on either socket, EAGAIN one on a blocking socket only, and a write of what is left ends it; what was taken before is out in every case |
| OutgoingCalls.FailedWrite | TCPSession.cc:773-786 | A call of Write whose write(2) fails, after any partial writes, returns 0, sets an event and leaves an empty queue, with the bytes that went out on the wire |
| OutgoingCalls.NotReadyWrite | TCPSession.cc:753-792 | A non-blocking socket that is not ready is no error: the bytes taken are returned and no message is lost |
| OutgoingCalls.WriteMem | TCPSession.cc:760-793 | A message in memory: one loop over all bytes that are not out yet, and the offset moves by what was taken |
| OutgoingCalls.WriteHeader | TCPSession.cc:795-827 | The same for the header of a file message that is not finished |
| OutgoingCalls.WriteChunk | TCPSession.cc:829-910 | Behind the header: one loop over the next 4096 bytes of the file, or what is left of the body or the file; the file is read that far whatever goes out |
| OutgoingCalls.WriteNoChunk | TCPSession.cc:834-891 | A file that cannot be opened or read, or ends too early, sends nothing and drops the queue with an event |
| OutgoingCalls.WriteBoth | TCPSession.cc:795-945 | A header that goes out as a whole is followed by a chunk in the same call, which returns the bytes of one of them |
| OutgoingCalls.NothingToWrite | TCPSession.cc:729-737 | With an empty queue or no connection Write is an error that changes nothing |
| OutgoingCalls.PopIs | TCPSession.cc:1085-1176 | The front leaves, sent or not, and counts as sent exactly if as many of its bytes are out as it has; the others stay |
| OutgoingFields.LinkedAt | TCPSession.cc:469-474 | The link the fields do not state: the lengths in wpending before a message add up to where its header and body start in wbuf, and its file has as many disc entries before it |
| OutgoingFields.SumsMatch | TCPSession.cc:483-529 | wbuf_len is the sum of the lengths in wpending, and wfiles has one file for each disc entry |
| OutgoingSession.TCPSession.ConnWrite | TCPConn.cc:451-481 | The loop over write(2) puts out what Send says, and returns 0 on an error although bytes may be out |
| OutgoingSession.TCPSession.AddMsgBuf | TCPSession.cc:455-536 | Returns true exactly for a header that begins with a character other than NUL, whatever the body; then header and body go to the end of the buffer, which grows if it must, and the fields match the queue with that message behind all others |
| OutgoingSession.TCPSession.AddMsgFile | TCPSession.cc:540-621 | The same with the header in the buffer and the file at the end of the list |
| OutgoingSession.TCPSession.Write | TCPSession.cc:723-948 | On its buffer, offsets and files it does what the queue's write does, with the same return value and error event, also when a file cannot be opened, positioned or read |
| OutgoingSession.TCPSession.PopOutgoingMsgQueue | TCPSession.cc:1085-1176 | After the memmove and the erasures the fields match the queue without its front |
| OutgoingSession.TCPSession.ResetWbuf | TCPSession.cc:1263-1272 | The fields are empty, and so is the queue |
| OutgoingSession.TCPSession.IsOutgoingMsgSent | TCPSession.h:233-241 | The test on the front's offsets is the queue's |
| OutgoingSession.TCPSession.IsOutgoingDataPending | TCPSession.cc:1194-1214 | The loop over the offsets answers whether any byte is unsent |
| Incoming.RunConserves | TCPSession.cc:629-707 | Over every run, the bytes received, with each chunked text replaced by its body, are those that left the buffer followed by those in it, there is room to read, and within a message what left since the header is what the file holds |
| Incoming.DoConserves | TCPSession.cc:353-1078 | Every single operation, errors, resets and chunked messages included, keeps that conservation |
| Incoming.DoCycles | TCPSession.cc:957-1078 | Every operation in its turn keeps file and file_offset equal to what was streamed |
| Incoming.CompleteHasArrived | TCPSession.h:225-230 | A complete message has arrived in full; in memory it is complete exactly when it has, with the body in front |
| IncomingCalls.CompleteIs | TCPSession.h:225-230 | In memory a message is complete exactly when its body has arrived; one directed to a file exactly when the file has all of it or as many bytes as the whole body are in the buffer |
| IncomingCalls.OpenedIs | TCPSession.cc:327-348 | A new session has room for 4096 bytes, a framing type, no message and no file |
| IncomingCalls.ReadFails | TCPSession.cc:629-707 | A read that fails, or on a blocking socket is not ready, returns 0 with an event and resets the session; a non-blocking socket that is not ready changes nothing |
| IncomingCalls.ReadTakes | TCPSession.cc:629-707 | What arrives is appended as far as there is room, and a buffer that is full grows by 4096 |
| IncomingCalls.InitFinds | TCPSession.cc:425-439 | The header that was found leaves the buffer and its length is the message's |
| IncomingCalls.InitStays | TCPSession.cc:359-393 | Without data nothing happens, a header that is not there in full is waited for, one that is an error resets the session |
| IncomingCalls.InitWithoutFraming | MsgHdr.cc:381-432 | Without a framing type there is an event, and a complete message without a body |
| IncomingCalls.ChunksPlaced | TCPSession.cc:400-439 | A chunked body replaces the bytes that were counted for it; its length is added to the header, or there is an event and the stated length stays if the header states one |
| IncomingCalls.ChunksCut | TCPSession.cc:400-412 | It ends at its first NUL |
| IncomingCalls.ChunksWrong | TCPSession.cc:378-393 | Chunks out of order reset the session |
| IncomingCalls.SetFileIs | TCPSession.cc:207-243 | The file is empty and the offset 0, with an event exactly if it cannot be opened; while a file is open nothing is set |
| IncomingCalls.StreamFails | TCPSession.cc:957-1004 | Without an open file or a header it is an error that changes nothing; a file that takes no more resets the session |
| IncomingCalls.StreamTakes | TCPSession.cc:985-1043 | The file takes what it can of what is in the buffer and belongs to the body; it is closed, and 0 returned, exactly when it has the whole body |
| IncomingCalls.ClearIs | TCPSession.cc:1050-1078 | A body in memory leaves the buffer, or as much of it as is there |
| IncomingCalls.ClearFile | TCPSession.cc:1050-1078 | Of a message directed to a file nothing leaves the buffer, and the file is forgotten |
| Incoming.StreamedFileIsBody | TCPSession.cc:957-1041 | When StreamIncomingMsg returns 0 the closed file is exactly the body and the buffer starts with the byte after it |
| Incoming.ClearExposesNext | TCPSession.cc:1050-1078 | Clearing a complete message leaves the next one in front exactly when the body was in memory or streamed in full, where a negative length stands for no body |
| Incoming.OnceOnly | TCPSession.cc:1071-1072 | After a clear or a reset, over every run that follows, no header is read: an attempt on a non-empty buffer returns true with an error and takes nothing |
| Incoming.OverrunStep | TCPSession.cc:957-1078 | A message whose header states a negative length is complete at once; clearing it, streaming it, or walking off the memory behind a chunked header is exactly what leaves the buffer |
| Incoming.RunOverruns | TCPSession.cc:957-1078 | A run leaves the buffer exactly if one of its operations does one of these |
| Incoming.UnchunkedMore | TCPSession.cc:629-707 | What arrives after a chunked text was replaced comes behind it: replacing and reading commute |
| Overruns.LeavesIff | TCPSession.cc:957-1078 | For every header that can arrive and every text that starts with it: some run of calls leaves the buffer exactly if the header states a negative length |
| Overruns.MinusOneLeaves | TCPSession.cc:1061-1063 | A response with Content-Length -1, received and cleared, leaves the buffer |
| Incoming.LostStep | File.cc:279-302 | An operation leaves an open file descriptor without an owner exactly if it clears or resets a message whose file is open |
| Incoming.RunLost | File.cc:417-425 | Over every run the number of lost file descriptors is the number of such operations |
| IncomingSession.TCPSession.Read | TCPSession.cc:629-707 | Reading into the array, growing it by 4096 when full, is the state machine's read; end of file is a read of nothing |
| IncomingSession.TCPSession.InitIncomingMsg | TCPSession.cc:353-449 | The header that is parsed is taken off the front of the array and its length kept; a chunked body is put together, copied to the front and its length added to the header; an error resets |
| IncomingSession.ParsedAnswers | TCPSession.cc:378-432 | What the session does with each answer of its parsers is what the state machine does, for every outcome of header and chunks |
| IncomingSession.TCPSession.StreamIncomingMsg | TCPSession.cc:957-1041 | What write(2) took moves from the front of the array to the file |
| IncomingSession.TCPSession.ClearIncomingMsg | TCPSession.cc:1050-1078 | The body leaves the array, or the file is let go, with an error event and its descriptor lost if it was open, and the meta-data is cleared |
| IncomingSession.TCPSession.ShiftRbuf | TCPSession.cc:1220-1238 | The memmove takes out the given bytes after the offset, or as many as there are |
| IncomingSession.TCPSession.SetRfile | TCPSession.cc:207-243 | An open file is an error; otherwise the message goes to the new, empty file from offset 0 |
| IncomingSession.TCPSession.ResetRbuf | TCPSession.cc:1242-1256 | Everything received is dropped, and so are the framing type and the file, with an error event and its descriptor lost if it was open |
| IncomingSession.TCPSession.IsIncomingMsgComplete | TCPSession.h:225-230 | The test on offsets and lengths is the state machine's |
| HttpStable.DecidedStaysDecided | HTTPFraming.cc:497-586 | Unless the text becomes a request: a header, status, bytes used or error reported on a prefix is reported on every extension |
| HttpStable.RetryIsParseOnce | HTTPFraming.cc:916-1190 | Parsing from scratch after each read, for every segmentation, gives what one parse of all the bytes gives |
| HttpStable.ResponseStable | HTTPFraming.cc:916-1128 | A decision of the response parser on a prefix stands on every extension, which is handed back unread |
| HttpStable.MsgHdrStable | HTTPFraming.cc:1196-1367 | The same for one header line with its parameters |
| RequestPrefix.PrefixesWait | HTTPFraming.cc:660-911 | The parser waits at every byte of a printed request up to its end if no query key that is not empty has its '=' at offset 16 or later, whatever the memory behind the buffer holds; with such a key it does not, for a URL with a scheme and whatever memory, and for a path with none |
| RequestPrefix.PrefixOutcome | URL.cc:136-194 | On the first k bytes of a printed request: an error exactly if they are at least 16 and end inside a query key, and the memory behind does not show a scheme that the request lacks; otherwise more data |
| RequestPrefix.LineToCome | URL.cc:384-405 | A request with a header line names a scheme, or none, in every buffer, exactly if its URL has one or shows none |
| UrlPrefix.UrlCut | URL.cc:340-514 | On every beginning of a printed URL, with a scheme or without: an error exactly inside a query key, otherwise the parser waits or leaves nothing; it always waits while the memory behind a URL without a scheme shows one |
| RequestPrefix.RequestPrefixRejected | URL.cc:163-169 | The shortest example: a request that is read in full although its first 16 bytes are rejected |
| HttpStable.AfterUriStable | HTTPFraming.cc:760-911 | What follows the URL of a request is decided on a prefix as on every extension |
| HttpPrint.ResponseRoundTrip | HTTPFraming.cc:374-466 | For every well-formed response: parsing what was printed, followed by anything, gives it back with the rest untouched, exactly when no header line ends with an empty value |
| HttpPrint.InitFromPrintedResponse | HTTPFraming.cc:497-586 | The dispatcher reads a printed response, and bytes_used is its printed length |
| HttpPrint.RequestRoundTrip | HTTPFraming.cc:660-911 | A printed request, for a URL with a scheme or without, followed by anything but nothing is read back with the rest untouched, exactly when its URL has no marks and has a path or port before a query or fragment, and no header line ends with an empty value |
| HttpPrint.RequestReadIff | URL.cc:384-405 | For each text and memory that follow: a printed request is read back exactly if its URL is separated and has no marks, and the first ':' from the target on shows a scheme exactly if the URL has one |
| HttpPrint.OriginReadIff | HTTPFraming.cc:374-383 | The abs_path form is read back as the request for that path, query and fragment, exactly if it is not empty, has a path before a query or fragment and no marks, and no "://" is behind the first ':' that follows |
| HttpPrint.OriginIs | URL.cc:228-260 | The abs_path form of a request is the request for the path, query and fragment alone |
| HttpPrint.BodyTaken | URL.cc:384-405 | A concrete request for a path, without header lines, that is misread because of its body |
| HttpPrint.EmptyValueLost | HTTPFraming.cc:1264-1271 | A response with one header of an empty value, printed and not read back |
| HttpPrint.InitFromPrintedRequest | HTTPFraming.cc:497-586 | The dispatcher reads a printed request whose URL is read back where it stands, and bytes_used is its printed length |
| HttpWords.SameNoCaseIs | HTTPFraming.cc:205-254 | The comparison in any case: equal lengths, and each character equal or the same letter in the other case |
| HttpWords.LengthRead | HTTPFraming.cc:205-220 | The first header named Content-Length in any case gives the length, its digits read as a number after whitespace, whatever headers come before and after |
| HttpWords.NoLength | HTTPFraming.cc:205-220 | Without one the length is 0 |
| HttpWords.ChunkedRead | HTTPFraming.cc:241-254 | A response is chunked exactly if the first header named Transfer-Encoding in any case says so in any case |
| HttpWords.AppendRead | HTTPFraming.cc:591-613 | A header goes to the end of the list, unless one of its name in any case is there, which is an error |
| HttpWords.MethodRead | HTTPFraming.cc:700-726 | Each of the five methods is read in any case |
| HttpWords.VersionRead | HTTPFraming.cc:951-1009 | Any two numbers after HTTP/ in any case: 1.1, 1.0 and 0.9 are read, and every other pair is an error |
| HttpWords.PrintedVersionRead | HTTPFraming.cc:951-1009 | The same for the version as it is printed |
| HttpWords.Phrases | HTTPFraming.cc:52-105 | The phrase of each of the 16 status codes, and that of every other code |
| HttpWords.PrintedResponse | HTTPFraming.cc:374-466 | A response with parameters and a length, byte by byte as it is printed |
| HttpWords.PrintedRequest | HTTPFraming.cc:374-383 | A request with every part of a URL, byte by byte, in both forms |
| HttpWords.MethodNames | HTTPFraming.cc:34-38 | The words of the five methods |
| HttpWords.UnknownKind | HTTPFraming.cc:531-559 | Text that begins with no method and no HTTP/, in any case, is an error from its sixth byte on, and waited for until then |
| HttpWords.KnownKind | HTTPFraming.cc:694-698 | A request of fewer than 16 bytes is waited for, and so is HTTP/ alone |
| HttpWords.SpaceInFront | HTTPFraming.cc:516-578 | Whitespace in front of a header is counted as used and changes nothing else |
| HttpForms.HdrRead | HTTPFraming.cc:1196-1367 | A header line in any form, with parameters and any whitespace before a value or key, is read as its name, value and parameters up to their first NUL; a CR without LF is an error |
| HttpForms.HdrsRead | HTTPFraming.cc:1093-1108 | So is every list of such lines up to the empty line |
| HttpForms.FoldedLine | HTTPFraming.cc:1223-1234 | A line that begins with whitespace is an error |
| HttpForms.ResponseRead | HTTPFraming.cc:916-1128 | A response in any form, with a known version and any numbers and phrase, is read as what it means; what follows it is untouched, and an empty line that is not CR LF is an error |
| HttpForms.RequestRead | HTTPFraming.cc:660-911 | A request in any form, with a target that is read: as its method, target, version and headers |
| HttpForms.CodeEnds | HTTPFraming.cc:1021-1046 | A status code that no space follows is an error |
| HttpForms.VersionRefused | HTTPFraming.cc:951-976 | A major version that no '.' follows is an error, and what is not HTTP/ is waited for |
| HttpForms.RequestVersionRead | HTTPFraming.cc:760-848 | After the target of a request: an unknown version, or one that no CR LF follows, is an error |
| HttpForms.RequestRefused | HTTPFraming.cc:735-743 | A method that no space follows is an error |
| HttpForms.TargetEnds | HTTPFraming.cc:760-778 | A target that no space follows is an error, and what is not HTTP/ behind it is waited for |
| HttpPrint.MsgHdrSolid | HTTPFraming.cc:1264-1349 | Whatever the text, the parser never returns a header line that ends with an empty value |
| Http.BodyLenRoundTrip | MsgHdr.cc:278-293 | The length that was set is the length that is read exactly below 2^31 |
| MsgHdr.MsgHdr.SetBodyLen | MsgHdr.cc:278-293 | Appends the Content-Length header unless there is one; what is then read back is right exactly below 2^31 |
| MsgHdr.MsgHdr.BodyLen | MsgHdr.cc:146-162 | The stated length, and 0 without a framing type |
| MsgHdr.MsgHdr.HdrLen | MsgHdr.cc:128-144 | The length of the printed header, cut to the buffer, and 0 without a framing type |
| Http.TwoGigabytes | MsgHdr.cc:278-293 | A body of 2^31 bytes is announced as -2^31 |
| HttpFraming.HTTPFraming.InitFromBuf | HTTPFraming.cc:497-586 | The walk over the buffer, with its fields set on the way, reports and stores what the parsing functions define, and returns false on an error |
| HttpFraming.HTTPFraming.ParseResponseHdr | HTTPFraming.cc:916-1190 | The status-line and header loops set version, code and headers as defined, or wait, or report an error |
| HttpFraming.HTTPFraming.ParseRequestHdr | HTTPFraming.cc:660-911 | The request-line and header loops set method, URL, version and headers as defined, or wait with no headers kept, or report an error, which the caller turns into a false return |
| HttpFraming.HTTPFraming.ParseMsgHdr | HTTPFraming.cc:1196-1404 | One line's loops append the header they define, or nothing |
| HttpFraming.HTTPFraming.ParseMsgHdrs | HTTPFraming.cc:1093-1111 | The loop over the lines stops at the empty line with all headers appended in order |
| HttpFraming.HTTPFraming.AppendMsgHdr | HTTPFraming.cc:619-651 | A name that is there, in any case, is an error and changes nothing |
| HttpFraming.HTTPFraming.GetMsgLen | HTTPFraming.cc:205-220 | The first Content-Length in any case, as strtol reads it, or 0 |
| HttpFraming.HTTPFraming.HdrLen | HTTPFraming.cc:200-202 | The length of that text |
| HttpFraming.HTTPFraming.PrintHeader | HTTPFraming.cc:450-466 | The bounded printing loops write the header text, cut to the buffer |
| Buffers.CutIs | HTTPFraming.cc:450-466 | A printed text is kept up to 4095 characters |
| HttpFraming.HTTPFraming.PrintMsgHdrs | HTTPFraming.cc:398-447 | The nested loops write every header with its parameters, cut to the buffer |
| HttpFraming.HTTPFraming.PrintStartLine | HTTPFraming.cc:374-395 | The start line for either kind of message |
| Url.UrlRoundTrip | URL.cc:340-514 | A printed URL, with a scheme or without, followed by a space is read back with exactly its length used, exactly when a path or port separates the host from a query or fragment, it has no marks, and the text shows a scheme only if the URL has one; without a separator the host read is another one, or, if it is spelled like the mark of an unknown host, the query |
| Url.UrlRead | URL.cc:85-134 | What is read of a printed URL whose parts have marks: each such part is STR_TAINTED, the query is kept |
| Url.OtherScheme | URL.cc:384-401 | If the text behind a URL without a scheme shows one, a scheme is read |
| Url.ReadUnmarked | URL.cc:85-134 | No URL is ever read with a mark outside its query |
| Url.QueryIff | URL.cc:136-194 | set_query reads exactly the texts of pairs, a '&' after the last allowed, as those pairs; every other text is an error |
| Url.PortAny | URL.cc:429-444 | A port is any digits, cut to the largest unsigned long and then to 16 bits |
| UrlForms.SchemeFormRead | URL.cc:340-514 | Every form of a URL behind a scheme, each part there or not and empty or not, is read as what it means, up to a NUL in a part, or is an error if its query is no list of pairs |
| UrlForms.FormRead | URL.cc:340-514 | The same without a scheme, such as foo:13500, if neither the text nor the memory behind shows one |
| UrlForms.Opened | URL.cc:429-495 | A part that is opened at the end of the text is waited for |
| UrlForms.Blank | URL.cc:361-382 | So is text that is empty, whitespace alone, or begins with a NUL |
| Url.QueryLost | URL.cc:408-414 | A concrete URL with a query right after its host: host and query are read as the host |
| Url.UrlShrinks | URL.cc:340-514 | A URL that is read used at least one byte |
| Url.PairsTrip | URL.cc:136-194 | Every list of query pairs is read back from its text |
| UrlClass.URL.InitFromBuf | URL.cc:340-514 | The walk sets the fields the reading functions define, and reports not enough data or an error where they do |
| UrlClass.URL.SetQuery | URL.cc:136-194 | The loop over the pairs appends those that the text defines, or reports an error at a key without '=' |
| UrlClass.URL.PrintAbsoluteUri | URL.cc:263-288 | The printed URL, cut to the buffer |
| UrlClass.URL.PrintAbsPath | URL.cc:228-260 | Path, query and fragment, cut to the buffer |
| Chunks.ChunkedBodyIsJoined | HTTPFraming.cc:1451-1543 | For every well-formed sequence of chunks and every count: the body is the data joined exactly when no data contains a CR and the count is larger than the bytes counted, which are one fewer for each chunk and two fewer at the end; with too small a count the parser waits |
| Chunks.ChunksAssemble | HTTPFraming.cc:1451-1543 | The same from any point between chunks, without leaving the buffer that was grown for them |
| Chunks.RoomSuffices | HTTPFraming.cc:1498-1511 | After the growth rule the count and the chunk size stay below the capacity |
| Chunks.CrLost | HTTPFraming.cc:1513-1520 | One chunk of three bytes with a CR in the middle is not put together |
| Chunks.AssembledHasNoCr | HTTPFraming.cc:1513-1520 | Whatever the text, no assembled body contains a CR |
| Chunks.HexLineOk | HTTPFraming.cc:1452-1462 | A size in hex digits, with any extension, is read as that size |
| ChunkForms.SizeRead | HTTPFraming.cc:1452-1462 | A size line with whitespace, a sign or 0x in front and anything that is no digit behind: the number, or the limit of a long that is next to it |
| ChunkForms.AnyCase | HTTPFraming.cc:1462 | Hex digits have their value in either case |
| ChunkForms.NoSize | HTTPFraming.cc:1462 | A line that begins with no number states the size 0 |
| ChunkForms.AnyChunk | HTTPFraming.cc:1451-1539 | A chunk whose data is not of the stated size: the data up to the CR, or an overrun if it is longer than the room that the size makes |
| ChunkForms.SizeZero | HTTPFraming.cc:1451-1543 | A size of 0 ends the body |
| ChunkForms.NoLineFeed | HTTPFraming.cc:1464-1537 | A CR that no LF follows is an error after the size as after the data |
| ChunkForms.SpaceSkipped | HTTPFraming.cc:1444-1448 | Whitespace in front of the first size is skipped |
| ChunkReader.ParseChunkedMsgBody | HTTPFraming.cc:1407-1547 | The loops put the defined body and a NUL in the array they grow |
| ChunkReader.NextChunk | HTTPFraming.cc:1451-1539 | One turn of the chunk loop |
| Base64.DecodeInvertsEncode | Base64.cc:43-132 | Decode(Encode(b)) == b for every octet sequence (section 4 of RFC 4648) |
| Base64.EncodeInvertsDecode | Base64.cc:43-132 | Encode(Decode(s)) == s exactly for the canonical padded texts of section 3.5 of RFC 4648 |
| Base64.DecodedLength | Base64.cc:87-132 | The length of a decoding is 3/4 of the longest alphabet prefix, rounded down |
| Base64.EncodedLength | Base64.cc:43-85 | The length of an encoding is 4 times the number of started groups |
| Base64.EncodeAppend | Base64.cc:43-85 | Encoding distributes over appending after whole groups |
| Base64.FillersUnused | Base64.cc:112-129 | The 255 that find answers for an empty slot reaches no octet that is kept |
| Base64.TableIsLetters | Base64.cc:33-36 | The table is that of RFC 4648 |
| Base64.EncodeMasks | Base64.cc:53-58 | The four assignments with their masks and shifts compute the four sextets of a 24-bit group |
| Bits.EncoderMasks | Base64.cc:53-58 | On bit vectors: each mask and shift of the encoder is the division or remainder it stands for |
| Base64.UnpackedIsGroup | Base64.cc:101-105 | The three assignments with their masks, shifts and overflow compute the three octets of a 24-bit group |
| Bits.DecoderLeft | Base64.cc:101-105 | On bit vectors: the shifts to the left of the decoder, with the bits they drop |
| Bits.DecoderRight | Base64.cc:101 | On bit vectors: a shift to the right of the decoder |
| Base64.Base64Encode | Base64.cc:43-85 | The state-carrying loop encodes as RFC 4648 defines |
| Base64.Base64Decode | Base64.cc:87-132 | The state-carrying loop decodes the longest alphabet prefix |
| Checksum.StoredChecksumVerifies | IPComm.cc:34-60 | With the checksum stored in a zero field at any even place, the checksum of the whole is 0, for buffers of any length (section 1 of RFC 1071) |
| Checksum.ByteOrderIndependent | IPComm.cc:41-57 | Summing little-endian words gives the byte-swap of the big-endian checksum of the padded buffer (section 2(B) of RFC 1071) exactly if the numbers of times the two 32-bit accumulators wrap fit together |
| Checksum.ByteOrderUpTo | IPComm.cc:41-57 | Up to 262148 octets that is: exactly if neither accumulator wraps; up to 131074 octets it always holds |
| Checksum.ByteOrderLost | IPComm.cc:41-57 | 131076 octets of ones: both hosts answer 1, and the byte-swap of 1 is 256 |
| Checksum.OddLengthOnBigEndian | IPComm.cc:49-51 | On a big-endian host an odd buffer of any length is summed as if padded exactly when its last octet is 0 |
| Checksum.OneOctet | IPComm.cc:49-51 | A single octet, and the two different results |
| Checksum.WordOrderIndependent | IPComm.cc:41-47 | Permuting the words leaves the checksum unchanged |
| Checksum.NoWrap | IPComm.cc:37-51 | Up to 131074 octets the 32-bit accumulator does not wrap |
| Checksum.BoundIsExact | IPComm.cc:37-51 | Octets of ones wrap the accumulator exactly from 131075 of them on |
| Checksum.BoundIsTight | IPComm.cc:37-51 | At 131075 and 131076 octets of ones the result is wrong |
| Checksum.FoldClosedForm | IPComm.cc:53-56 | The fold is the sum modulo 65535, with 65535 in place of a nonzero multiple's 0 |
| Checksum.CalculateCksum | IPComm.cc:34-60 | The loops compute that checksum, also where the accumulator wraps |
| Descriptors.EveryInterleaving | IPComm.cc:179-272 | Over every interleaving from an empty memory, in which an allocation may take any free address, also the one just freed: there is no use after deletion and no close of a closed descriptor exactly when no sole owner is assigned to itself; counts stay exact, and the open file descriptors are those still referenced |
| Descriptors.StepIsSafe | IPComm.cc:179-272 | One operation faults exactly for a sole self-assignment, keeps all counts exact and loses no open file descriptor, except one overwritten by a second Socket, also one that fails |
| Descriptors.SelfAssigned | IPComm.cc:227-272 | The shortest program that faults |
| Descriptors.AssignStep | IPComm.cc:227-272 | Assignment, also between objects that share a descriptor |
| Descriptors.ReleaseIsExact | IPComm.cc:184-191 | The last release closes and deletes, any other closes nothing |
| Descriptors.CloseKeepsOwned | IPComm.cc:982-1006 | Close closes the object's file descriptor for all that share it |
| DescriptorCalls.ReleaseIs | IPComm.cc:184-191 | Letting go of a descriptor: if no other object shares it, it is gone and its file descriptor closed, else it has one count less |
| DescriptorCalls.ConstructAndCopy | IPComm.cc:157-225 | A new object has a descriptor of its own with no file descriptor; a copy shares one and counts |
| DescriptorCalls.AssignIs | IPComm.cc:227-272 | Assignment between two sharers changes nothing; between others the old descriptor is let go of and the new one counts one more, with the whole memory stated |
| DescriptorCalls.ClearAndDestroy | IPComm.cc:518-541 | After clear the object has a new descriptor, after its destruction none, and the old one is let go of |
| DescriptorCalls.CloseAndSocket | IPComm.cc:982-1006 | Close and Socket change the file descriptor for all who share it, and what is open |
| IPComm.IPComm.Assign | IPComm.cc:227-272 | On shared Descriptor objects: operator= uses a deleted descriptor exactly for a sole self-assignment, and otherwise leaves every count exact |
| IPComm.IPComm.Destroy | IPComm.cc:179-191 | The destructor leaves every count exact, closing and deleting with the last owner |
| IPComm.IPComm.Copy | IPComm.cc:194-225 | The copy points to the same Descriptor object and its count is exact |
| IPComm.IPComm.Socket | IPComm.cc:732-737 | The new file descriptor, or -1, for all who share the descriptor |
| IPComm.IPComm.Clear | IPComm.cc:518-541 | The object gets a descriptor of its own, at any free address, also the one just freed, and every count is exact |
| IPComm.IPComm.Close | IPComm.cc:982-1006 | Every object that shares the descriptor sees it closed, its file descriptor is no longer open, and no count and no other descriptor changes |

## Left out

- IncomingSession.TCPSession.InitIncomingMsg: after an overrun nothing is promised.
- IncomingSession.TCPSession.StreamIncomingMsg: after an overrun nothing is promised.
- IncomingSession.TCPSession.ClearIncomingMsg: after an overrun nothing is promised.
- Incoming.RunConserves: an operation that overruns leaves the state as it was, marked.
- ChunkedResponse.ChunkedTaken: for chunk data without CR and NUL and a header that states no length; for other bodies, `IncomingCalls` says what the session makes of what the chunk parser answers.
- Incoming.LostStep: the session's File is its only owner, as no copy of a session is modelled.
- IncomingSession.TCPSession.SetRfile: the path is left out; whether the file could be opened is an argument.
- OutgoingSession.TCPSession.Write: no two queued files share a descriptor, as two copies of one File would.
- ChunkReader.ParseChunkedMsgBody: where the source would read or write outside its memory the result is `Overrun`, and nothing is said of what happens then.
- HttpPrint.RequestRoundTrip: only for printable header text as the scanner needs it (no NUL, names without ':', values without ';' or CR, no leading whitespace), and for a URL that names a scheme, or none, in every buffer; for one buffer `RequestReadIff` is exact.
- RequestPrefix.PrefixesWait: for schemes without '/', as every scheme of RFC 3986 is; with a late key and memory behind a path, `PrefixOutcome` is exact byte by byte.
- MsgHdr.MsgHdr.BodyLen: the length is a signed number, as the session stores it; the detour through size_t is not modelled.
- SSL: the plain TCP path is taken everywhere, as when ssl_ is null.
- The 4096-byte scratch buffers that tokens are copied to: a token is as long as its text. The printers' limit is modelled, and a printed string is its C string.
- More than one incoming message for a session, for the reason in `OnceOnly`.
- set_storage without a file, msg_id, whdrs_ and delete_whdr, handles, timeouts and thread identifiers: they do not touch the bytes.
- The BASIC framing type.
- hdr_len in the incoming meta-data, which nothing reads.
- IPComm fields other than the descriptor, and IPComm's network calls, which only read it.
- malloc failure, locks, logging and the text of error events; an event is a boolean.
- DNS, stat, syslog and everything behind a system call.
