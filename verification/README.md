# Log analyzer: a verified model

A Dafny model of the client/server log analyzer: a client uploads a log file over TCP, the
server analyses it line by line while it arrives, and the client gets a result document back.
The project also covers the skyline rectangle packer the C++ client carries with it.

`dafny verify dfyconfig.toml` checks everything.

## What is modelled

The server is a pipeline of four stateful parts, each a fast incremental form of a simple
function on the whole file.  Each part is a class whose methods are proved against that
function, and the properties are proved about the functions.

| file | content |
|---|---|
| `lines.dfy` | splitting a stream into lines, whole-file semantics and the bounded-carry splitter |
| `wire.dfy` | big-endian integers, frame header, payload writer and reader |
| `framing.dfy` | the frame parser on a whole stream and the decoder that takes it in pieces |
| `logline.dfy` | the line grammar and the scanner, including the speed value |
| `aggregation.dfy` | the statistics as a fold over lines, and the aggregator with its sorted table and cache |
| `numbers.dfy`, `grammar.dfy` | what digits are worth, and the line format by the characters of a line |
| `tallies.dfy` | the figures of the statistics as numbers of lines |
| `speedranges.dfy` | least and greatest speed when the hour table is full |
| `labels.dfy` | hour keys against the labels printed for them |
| `csvline.dfy`, `csvdocument.dfy`, `resultcsv.dfy` | quoting and splitting fields, the document reader, the document writer and the round trip |
| `showing.dfy` | what every row of the document says of the lines |
| `sessions.dfy` | one connection as a step machine over reads, completed writes, timer and closed handles |
| `offsets.dfy` | the offsets handed on with the lines, which lines are lost, and the lines as they stand in the stream |
| `upload.dfy` | the upload end to end, from the octets on the connection to the result |
| `connecting.dfy` | a new connection: HELLO, an upload and the document read back; any other beginning |
| `answering.dfy` | the answer to every frame, silence, and the end of a connection |
| `tcpsession.dfy` | the session object that keeps that machine in fields |
| `cancelprotocol.dfy`, `serving.dfy` | client and server over FIFO channels with cancellation, and the session as that server, however its reads are cut |
| `leaving.dfy`, `halfframes.dfy` | a client that leaves an upload without a CANCEL, and a session that gets half a frame |
| `client.dfy` | reading ANALYZE_DONE and putting the document together |
| `tcpserver.dfy` | the table of sessions: accepting, shutting down, close callbacks |
| `owning.dfy` | a session as an entry of that table |
| `skyline.dfy`, `nodesupply.dfy` | the packer: geometry of the outline, and how many nodes it needs |
| `packorder.dfy` | the turns of the rectangles, and what decides them |
| `rectsort.dfy`, `rectpack.dfy` | the packer's two sorts, and the linked nodes changed in place |

What the functions mean is stated a second time without them: in the characters of a line
(`grammar.dfy`), the octets of a stream (`Offsets.ReportedStand`, `Framing.HeaderDecides`,
`Wire.HeaderLayout`), numbers of lines (`tallies.dfy`), the rows a client reads
(`showing.dfy`), the numbers on the wire (`answering.dfy`) and the outlines between two
rectangles (`packorder.dfy`).

What a run cannot choose is a parameter: whether the transport takes the n-th write request,
clock and memory readings, the number formatting, and the cuts of the stream.

## Where code and documentation disagree

The model follows the code, and a condition under which the documented property does hold is
proved in each case, exact unless noted under "Left out".

- The splitter promises a bound on line length, but checks it only for lines a cut falls into
  and for tails: a long line inside one fragment is reported (`Lines.CutInvariance`,
  `Lines.LongLineCut`).
- Line offsets are described as positions in the stream; a line thrown away does not advance
  them.  They are true exactly when no fragment begins inside a line above the limit in front
  (`Offsets.OffsetOfLine`, `Offsets.OffsetsExactIff`).
- The check total of the result document is described as equal to the number of lines; lines
  thrown away are only in the former (`ResultCsv.CheckRow`).
- Past 10000 hours a speed is counted but not compared, also when it is the very first: then the
  initial zeros stay in for good (`SpeedRanges.ExtremesIff`, `SpeedRanges.SpuriousMinimum`).
- An empty chunk is refused with the words for one that is too large
  (`Uploads.ChunkSizeDecides`).
- The end of an upload makes the session ready even when one of its own replies has just
  closed the connection (`Sessions.EndForgetsClosing`).
- A file name with a line break followed by a section heading opens a section when the
  document is read back; no other name does (`ResultCsv.DocumentRoundTrip`).
- The cancel contract covers the points that send CANCEL and drain.  A token that fires in the
  begin handshake or while UPLOAD_END is sent leaves the connection in use without either, and
  then no later upload completes (`Leaving.NothingCompletes`).
- The packer's comment says that quantized widths always leave enough nodes.  What is quantized
  is the room asked for, not the room taken: the nodes are enough for every sequence of
  rectangles exactly when there are as many as columns, a target one unit high apart
  (`NodeSupply.NodesSufficeIff`); for widths that are multiples of the quantum fewer will do
  (`NodeSupply.GridLeavesNode`, `NodeSupply.GridIsKept`).
- The waste of a right-aligned place over the bare floor is not only the area below it
  (`Skylines.WasteWithSurplus`).

## Model

| member | source | states |
|---|---|---|
| `Uploads.EndToEnd` | 01.Sources/SERVER/src/net/TcpSession.cpp:270-291 | For every file without a line over 8192 octets, every cut into chunks of 1 to 1 MiB, every cut of the framed stream into reads and every interleaving with completed writes and short silences: a ready session ends ready between frames, has sent BEGIN_ACK, acks 16 MiB apart, one ANALYZE_DONE and the result; the figures in each ack and in ANALYZE_DONE count the lines received so far (all, accepted, with a speed, by module), and the result is the document of the file's own lines |
| `Connecting.ConnectionServes` | 01.Sources/SERVER/src/net/TcpSession.cpp:435-461 | From a new connection: for every HELLO with a 16-bit version and a name of up to 65535 octets, every upload after it and every cut of the two into reads, the session answers HELLO_ACK and then serves the upload as UploadSucceeds says |
| `Connecting.ConnectionSays` | 01.Sources/SERVER/src/net/TcpSession.cpp:507-593 | The same with what the client reads back: every section of the document says of the lines analysed, which are all the file's own if none is above the limit, what Showing.DocumentSays spells out |
| `Connecting.OtherwiseRefused` | 01.Sources/SERVER/src/net/TcpSession.cpp:374-381 | Any other first frame, or a HELLO whose payload is not its two fields, however cut into reads: one ERROR 3 goes out, what follows in the same read is not looked at, and the connection is to close when it has been written |
| `Connecting.HelloIff` | 01.Sources/SERVER/src/net/TcpSession.cpp:435-444 | The two fields of HELLO are found exactly in a payload that begins with them |
| `Uploads.UploadSucceeds` | 01.Sources/SERVER/src/net/TcpSession.cpp:336-364 | The same for any file, long lines included: the upload completes, nothing but the expected replies is sent, and what was analysed is exactly the file; the session's earlier uploads do not appear in the statement |
| `Uploads.CompletedIsExchange` | 01.Sources/SERVER/src/net/TcpSession.cpp:507-593 | What was sent for any file, told by its lines: the figures count the lines analysed, analysed and given-up lines together are the file's, ANALYZE_DONE and the document carry the number given up, and the document's context is the upload's name, size and the readings of one moment |
| `Uploads.OneReadWillDo` | 01.Sources/SERVER/src/net/TcpSession.cpp:254-291 | Such a run exists for every well-cut upload, so the two statements above are never empty: the whole framed stream can arrive in one read |
| `Offsets.OffsetsAreTrue` | 01.Sources/SERVER/src/net/TcpSession.cpp:288-291 | The offset handed to add_line for the i-th line of a file is the position in the file at which that line begins |
| `Offsets.OffsetsExactIff` | 01.Sources/SERVER/src/net/TcpSession.cpp:523-527 | After any stream, however cut, the running offset equals the stream's length if and only if no fragment begins inside a finished line above the limit and the unfinished last line is within it; otherwise it falls short |
| `Offsets.OffsetOfLine` | 01.Sources/SERVER/src/net/TcpSession.cpp:288-291 | For every stream, cut and line: the line is reported unless it is above the limit and a fragment begins inside it, and the offset handed on with it is where it begins if and only if no line before it was lost so; otherwise the offset falls short |
| `Offsets.OffsetOfTail` | 01.Sources/SERVER/src/net/TcpSession.cpp:523-527 | The unfinished last line is handed on at its true position under the same condition |
| `Offsets.FeedSurvivors` | 01.Sources/SERVER/src/parse/LineSplitter.h:61-125 | From any state and for any cut the lines reported are exactly those that are not above the limit with a fragment beginning inside them |
| `Offsets.ReportedStand` | 01.Sources/SERVER/src/parse/LineSplitter.h:61-148 | However a stream is cut, each line reported stands in the stream where it is said to: the octets there are the line, an optional carriage return and the line feed, or the end; one for every finished line that is not lost, in order, and the unfinished one within the limit |
| `Offsets.LinesStand` | 01.Sources/SERVER/src/parse/LineSplitter.h:139-148 | The lines of a whole file cover it from end to end, and from each nothing is cut but the line feed and one carriage return before it |
| `Uploads.AnalysedWhole` | 01.Sources/SERVER/src/net/TcpSession.cpp:522-528 | With no line above the limit the lines analysed are all those of the file, whatever the fragments were, and none is given up |
| `Uploads.Piece` | 01.Sources/SERVER/src/net/TcpSession.cpp:293-331 | An acknowledgement reports the octets received so far and figures that count the lines of exactly that prefix of the file, and is due 16 MiB after the one before |
| `Uploads.ChunkSizeDecides` | 01.Sources/SERVER/src/net/TcpSession.cpp:404-410 | A chunk frame is analysed exactly when it has 1 to 1 MiB octets; an empty one is refused with PAYLOAD_TOO_LARGE like one too large |
| `Uploads.FeedWithin` | 01.Sources/SERVER/src/net/FrameDecoder.cpp:75-151 | While a known frame is next in the stream a feed never fails, never reads beyond it, and ends it with its own header and payload |
| `Uploads.PiecesReassemble` | 01.Sources/SERVER/src/net/TcpSession.cpp:601-609 | The result chunks are non-empty, at most 64 KiB each, and put together give the document |
| `Uploads.FiguresTell` | 01.Sources/SERVER/src/net/TcpSession.cpp:574-585 | The figures sent are the number of lines, of accepted lines, of lines with a speed and of accepted lines by module |
| `Uploads.FrameProcessed` | 01.Sources/SERVER/src/net/TcpSession.cpp:336-364 | A whole frame at the start of a read goes to the sink or to the dispatch, and the rest of the read is dealt with from there if the handler says so and dropped otherwise |
| `Sessions.StepKeeps` | 01.Sources/SERVER/src/net/TcpSession.cpp:270-332 | Every event keeps the session well-formed: last ack <= received <= declared with a gap under 16 MiB while uploading, and the close bookkeeping consistent |
| `Sessions.RunKeeps` | 01.Sources/SERVER/src/net/TcpSession.cpp:746-801 | The same along every run |
| `Sessions.NotifiedOnce` | 01.Sources/SERVER/src/net/TcpSession.cpp:784-801 | In every run of a new connection the owner is told of the end exactly when the second of two handles has closed, at most once, and no event follows |
| `Sessions.ClosingIsFinal` | 01.Sources/SERVER/src/net/TcpSession.cpp:746-758 | No event leads out of Closing, and nothing is sent there |
| `Sessions.ClosingIsKnown` | 01.Sources/SERVER/src/net/TcpSession.cpp:746-775 | While every write is taken, a session has closing handles if and only if it is Closing |
| `Sessions.EndForgetsClosing` | 01.Sources/SERVER/src/net/TcpSession.cpp:587-592 | When received, declared and claimed agree the end of an upload leaves the session Ready, and over closing handles exactly when one of the write requests for its replies is refused |
| `Sessions.EndForgetsClosingExample` | 01.Sources/SERVER/src/net/TcpSession.cpp:587-592 | A concrete upload and transport for which Ready overwrites Closing |
| `Sessions.SilenceIsCounted` | 01.Sources/SERVER/src/net/TcpSession.cpp:158-195 | In an upload, fewer than three silent slices in a row change only their count; the third closes the connection |
| `Sessions.FlushIsDue` | 01.Sources/SERVER/src/net/TcpSession.cpp:655-678 | In every run a session that is to close after its last frame is closing already or has a frame on the way, and the completion of the last one closes it |
| `Sessions.FlushThenClose` | 01.Sources/SERVER/src/net/TcpSession.cpp:717-742 | While nothing but completed writes comes in, a refused connection closes with the last frame already handed over and not before |
| `Sessions.LeftoversDoNotMatter` | 01.Sources/SERVER/src/net/TcpSession.cpp:479-489 | Two sessions that differ only in what finished, cancelled or refused uploads left behind send the same and stay alike in every run |
| `Sessions.DispatchConsistent` | 01.Sources/SERVER/src/net/TcpSession.cpp:366-433 | Every frame in every state keeps the received and acknowledged counts within the declared size |
| `Answering.IdleAnswers` | 01.Sources/SERVER/src/net/TcpSession.cpp:383-400 | What an idle session answers to every frame: BYE closes, CANCEL is ignored, an UPLOAD_BEGIN whose payload begins with a size and a name is accepted unless the size is 0 (ERROR 5) or refused (ERROR 3, close due), anything else is ERROR 3 and nothing changes |
| `Answering.UploadAnswers` | 01.Sources/SERVER/src/net/TcpSession.cpp:402-429 | What a session in an upload answers to every frame that is no chunk of 1 to 1 MiB octets: UPLOAD_END brings the result exactly if claimed, declared and received agree (else ERROR 5, or 3 for under eight octets), CANCEL is ERROR 9 and forgets the upload, any other chunk is ERROR 4, any other frame ERROR 3 |
| `Answering.IdleEnds` | 01.Sources/SERVER/src/net/TcpSession.cpp:198-199 | Silence outside an upload: ERROR 8 is sent, and when the writes under way have completed the connection is closed |
| `Answering.SilentFromTheStart` | 01.Sources/SERVER/src/net/TcpSession.cpp:198-199 | A connection over which nothing is ever said is closed by its timer |
| `Answering.StallEnds` | 01.Sources/SERVER/src/net/TcpSession.cpp:163-196 | Two silent slices of an upload change their count only; with the third ERROR 8 is sent and the connection closes at once |
| `Answering.ReadsEndSilence` | 01.Sources/SERVER/src/net/TcpSession.cpp:213-229 | After every read that leaves the connection open the count of silent slices is zero and the timer armed |
| `Answering.PeerGone` | 01.Sources/SERVER/src/net/TcpSession.cpp:235-250 | End of stream or a failed write: the session closes without another message, its two handles close, the owner is told once, and nothing can happen after that |
| `TcpSessions.TcpSession.OnRead` | 01.Sources/SERVER/src/net/TcpSession.cpp:213-229 | One read leaves the object in the state the step machine prescribes, with the idle timer re-armed unless it is closing |
| `TcpSessions.TcpSession.ProcessData` | 01.Sources/SERVER/src/net/TcpSession.cpp:336-364 | The loop over a read, with streamed payload going to the sink while it arrives |
| `TcpSessions.TcpSession.FeedDecoder` | 01.Sources/SERVER/src/net/TcpSession.cpp:340-341 | One feed: the decoder advances as specified and the streamed piece is analysed at once |
| `TcpSessions.TcpSession.DispatchFrame` | 01.Sources/SERVER/src/net/TcpSession.cpp:366-433 | A complete frame goes to the handler of the current state |
| `TcpSessions.TcpSession.PayloadChunk` | 01.Sources/SERVER/src/net/TcpSession.cpp:270-332 | A streamed piece is refused when it exceeds the declared size; otherwise splitter, statistics, offset and counts become those of all pieces so far, with an ack every 16 MiB |
| `TcpSessions.TcpSession.Absorb` | 01.Sources/SERVER/src/net/TcpSession.cpp:288-291 | A piece through the splitter into the statistics keeps them equal to the specification of all pieces received |
| `TcpSessions.TcpSession.Analyze` | 01.Sources/SERVER/src/net/TcpSession.cpp:288-291 | Folding a run of lines adds each at its place and advances the offset by the raw sizes |
| `TcpSessions.TcpSession.HandleHello` | 01.Sources/SERVER/src/net/TcpSession.cpp:435-461 | HELLO with both fields makes the session ready and is answered; a malformed one is refused |
| `TcpSessions.TcpSession.HandleBegin` | 01.Sources/SERVER/src/net/TcpSession.cpp:463-505 | A well-formed UPLOAD_BEGIN resets everything kept of an upload and is answered; size zero is refused without closing, a malformed one with |
| `TcpSessions.TcpSession.HandleEnd` | 01.Sources/SERVER/src/net/TcpSession.cpp:507-593 | UPLOAD_END is accepted exactly when received, declared and claimed agree, and then the result is made and sent; otherwise the upload is aborted |
| `TcpSessions.TcpSession.FinishLines` | 01.Sources/SERVER/src/net/TcpSession.cpp:523-528 | The unfinished last line is analysed and the lines given up are entered as oversize |
| `TcpSessions.TcpSession.FinishUpload` | 01.Sources/SERVER/src/net/TcpSession.cpp:530-541 | The document is built from the final statistics and the upload's own figures |
| `TcpSessions.TcpSession.SendResultCsv` | 01.Sources/SERVER/src/net/TcpSession.cpp:595-617 | RESULT_BEGIN, the pieces in order and RESULT_END are handed to the transport, as far as it takes them |
| `TcpSessions.TcpSession.AbortUpload` | 01.Sources/SERVER/src/net/TcpSession.cpp:655-678 | An abort answers with its code and goes back to ready; a cancel forgets the upload, anything else closes after the flush |
| `TcpSessions.TcpSession.Send` | 01.Sources/SERVER/src/net/TcpSession.cpp:682-708 | A frame is queued if the transport takes it; a refused write closes the session; nothing is sent while closing |
| `TcpSessions.TcpSession.Close` | 01.Sources/SERVER/src/net/TcpSession.cpp:746-782 | Closing is entered once, and both handles are told to close once |
| `TcpSessions.TcpSession.OnWriteDone` | 01.Sources/SERVER/src/net/TcpSession.cpp:717-742 | A failed write closes; a completed one closes when a close is due and none is left |
| `TcpSessions.TcpSession.OnTimer` | 01.Sources/SERVER/src/net/TcpSession.cpp:158-200 | A silent slice of an upload is counted and the third gives up; outside an upload the idle limit is answered with an error and a close after the flush |
| `TcpSessions.TcpSession.OnHandleClosed` | 01.Sources/SERVER/src/net/TcpSession.cpp:784-801 | The owner is told when the last handle has closed |
| `TcpSessions.TcpSession.OnReadEnd` | 01.Sources/SERVER/src/net/TcpSession.cpp:235-250 | End of stream or a read error closes the session |
| `CancelProtocol.DrainEndsClean` | 01.Sources/CLIENT/CSHARP/Network/ServerConnection.cs:932-999 | Over all runs with FIFO channels and repeated uploads: when a drain ends by ERROR or RESULT_END the server is ready, none of its frames is in flight, and at most the one CANCEL remains toward it |
| `CancelProtocol.LateCancelIsHarmless` | 01.Sources/SERVER/src/net/TcpSession.cpp:394-397 | A CANCEL ends an upload only if it was sent for that upload and its client is draining; any other is dropped without a reply |
| `CancelProtocol.NeverRefused` | 01.Sources/CLIENT/CSHARP/Network/ServerConnection.cs:420-523 | A client that keeps to the protocol is never refused: every reply in flight is for the current upload, ERROR only answers an empty file or a cancel, and the client fails only on an empty file or a document over 64 MiB |
| `CancelProtocol.DoneMatchesUpload` | 01.Sources/CLIENT/CSHARP/Network/ServerConnection.cs:525-579 | While waiting the client reads acks and then one ANALYZE_DONE with exactly the octets it declared and sent; RESULT_END comes only at the announced size and is the last frame in flight |
| `CancelProtocol.DrainGoesOn` | 01.Sources/CLIENT/CSHARP/Network/ServerConnection.cs:951-990 | A drain is never stuck: a reply or a request is always in flight, and only reading and serving remain possible |
| `CancelProtocol.NeverStuck` | 01.Sources/CLIENT/CSHARP/Network/ServerConnection.cs:420-579 | Nor is any other stage: an idle client can begin, a sending one can send on or finish, one that waits has something in flight to it or to the server, and from the first chunk to the last piece of the result it can cancel |
| `CancelProtocol.DrainIsBounded` | 01.Sources/CLIENT/CSHARP/Network/ServerConnection.cs:951-990 | A drain is over within a number of steps fixed by what is in flight when it starts and the longest result |
| `Leaving.NothingCompletes` | 01.Sources/CLIENT/CSHARP/Network/ServerConnection.cs:521-521 | Over all runs: after a token has fired within or after the sending of UPLOAD_BEGIN or before, within or after that of UPLOAD_END, no later upload gets as far as its analysis before the server has decided to close |
| `Leaving.LeavingIsNeverClean` | 01.Sources/CLIENT/CSHARP/Network/ServerConnection.cs:355-358 | Such an exit always leaves something on the way, half a frame, or a server that waits for more of the upload |
| `Leaving.LeavingSpoils` | 01.Sources/CLIENT/CSHARP/Network/ServerConnection.cs:355-358 | What each of the exits leaves: a reply the next upload does not expect, an old upload still open in front of the next UPLOAD_BEGIN, or an end still to be answered |
| `Leaving.SpoiledStays` | 01.Sources/CLIENT/CSHARP/Network/ServerConnection.cs:420-523 | No step of the client or the server, further exits included, leads out of that |
| `Leaving.LeavingTheEnd` | 01.Sources/CLIENT/CSHARP/Network/ServerConnection.cs:521-521 | Runs that leave with nothing or only the header of UPLOAD_END written: both channels are empty and the next upload is refused |
| `Leaving.LeavingTheResult` | 01.Sources/CLIENT/CSHARP/Network/ServerConnection.cs:521-521 | A run that leaves with all of UPLOAD_END written: the next upload reads the old answer and gives up |
| `Leaving.LeavingTheHandshake` | 01.Sources/CLIENT/CSHARP/Network/ServerConnection.cs:355-358 | A run that leaves the begin handshake: the next upload is refused |
| `Leaving.LeavingTheBegin` | 01.Sources/CLIENT/CSHARP/Network/ServerConnection.cs:355-355 | The same for one that leaves between the two writes of UPLOAD_BEGIN |
| `Leaving.AtEndReached` | 01.Sources/CLIENT/CSHARP/Network/ServerConnection.cs:420-521 | An upload of one octet reaches the state in which UPLOAD_END is to be sent |
| `Leaving.IdleCheckMends` | 01.Sources/CLIENT/CSHARP/Network/ServerConnection.cs:1021-1056 | Throwing away what arrives between uploads, as the idle link check does, restores the conversation exactly when the server had answered everything |
| `CancelProtocol.StepKeeps` | 01.Sources/CLIENT/CSHARP/Network/ServerConnection.cs:425-523 | Every client and server step keeps the conversation's invariant |
| `CancelProtocol.RunKeeps` | 01.Sources/CLIENT/CSHARP/Network/ServerConnection.cs:932-999 | Every run keeps it |
| `Serving.SessionServes` | 01.Sources/SERVER/src/net/TcpSession.cpp:336-364 | For every sequence of requests and every cut of their frames into reads, a session between frames answers as the protocol's server does one request after the other, with at most one ack in a chunk, and ends in the corresponding state; only the last request may be one that makes it close |
| `Serving.FeedServed` | 01.Sources/SERVER/src/net/TcpSession.cpp:336-364 | One feed anywhere inside a request's frame: more of it has come, or its answer is complete |
| `Serving.PieceServed` | 01.Sources/SERVER/src/net/TcpSession.cpp:270-332 | A piece of a chunk: received so far, acknowledged at most once, or refused with SIZE_MISMATCH once and the rest ignored |
| `Serving.ChunkServed` | 01.Sources/SERVER/src/net/TcpSession.cpp:404-410 | When all of a streamed chunk has come the session has answered it as the protocol says, the second error after an overrun included |
| `Serving.DispatchServes` | 01.Sources/SERVER/src/net/TcpSession.cpp:366-433 | The same for every frame that is not streamed, in any state |
| `HalfFrames.HalfEndSwallows` | 01.Sources/CLIENT/CSHARP/Network/ServerConnection.cs:244-256 | The header of an UPLOAD_END without its claim takes the first octets of the next frame for it: the end is refused and the rest of the read dropped |
| `HalfFrames.BeginSwallowed` | 01.Sources/CLIENT/CSHARP/Network/ServerConnection.cs:244-256 | For an UPLOAD_BEGIN those octets are the number the conversation model uses |
| `HalfFrames.HalfBeginSwallows` | 01.Sources/CLIENT/CSHARP/Network/ServerConnection.cs:244-256 | The header of an UPLOAD_BEGIN without its payload takes the first octets of the next UPLOAD_BEGIN for a size and an empty name: the session is in an upload nobody asked for, and goes on with what is left of the frame |
| `HalfFrames.GarbageRefused` | 01.Sources/SERVER/src/net/FrameDecoder.cpp:84-109 | Octets that are not a header are refused in every state, and nothing after them is read |
| `Serving.ServesEnd` | 01.Sources/SERVER/src/net/TcpSession.cpp:507-593 | A whole UPLOAD_END in any state is answered as the protocol says, with the document's size as the one free choice |
| `ClientResults.ReceiveResult` | 01.Sources/CLIENT/CSHARP/Network/ServerConnection.cs:612-680 | A document is returned if and only if the frames start with RESULT_BEGIN of its size, pieces that add up to it and RESULT_END, and then exactly that document and no frame beyond it; otherwise the outcome names the first frame in the way, a size out of range, or the end of the connection |
| `ClientResults.GatherPieces` | 01.Sources/CLIENT/CSHARP/Network/ServerConnection.cs:647-676 | Pieces are collected up to the first other frame: RESULT_END compares their size with the announced one, an ERROR or another frame is handed on, and so is the end of the connection |
| `ClientResults.SignedIs` | 01.Sources/CLIENT/CSHARP/Network/ServerConnection.cs:625-640 | The announced size as the client takes it: the same modulo 2^64, in the signed range |
| `ClientResults.DeliversOne` | 01.Sources/CLIENT/CSHARP/Network/ServerConnection.cs:612-680 | No sequence of frames starts with two different documents |
| `ClientResults.ResultArrives` | 01.Sources/SERVER/src/net/TcpSession.cpp:595-617 | The frames in which the server sends a document of up to 64 MiB deliver exactly it, whatever follows |
| `ClientResults.ParseAnalyzeDone` | 01.Sources/CLIENT/CSHARP/Network/ServerConnection.cs:582-609 | Parsing succeeds exactly when all ten fields can be read, and returns them in order |
| `ClientResults.DoneRoundTrip` | 01.Sources/SERVER/src/net/TcpSession.cpp:574-585 | Every ANALYZE_DONE that is written is read back field for field; cut short anywhere it is refused |
| `ClientResults.DoneUnderstood` | 01.Sources/SERVER/src/net/TcpSession.cpp:574-585 | The payload of ANALYZE_DONE as the server writes it: each figure arrives at the client in the field named for it |
| `Lines.LineSplitter.Feed` | 01.Sources/SERVER/src/parse/LineSplitter.h:61-125 | One fragment: the callbacks made and the state left are those of splitting the whole unfinished line with the fragment, although only a bounded carry is kept |
| `Lines.LineSplitter.Scan` | 01.Sources/SERVER/src/parse/LineSplitter.h:104-124 | The lines inside a fragment are reported without copying, and the tail is carried or given up |
| `Lines.LineSplitter.Finish` | 01.Sources/SERVER/src/parse/LineSplitter.h:129-136 | The end of the stream reports the carried last line, and the oversize count is then the number of lines thrown away |
| `Lines.LineSplitter.Emit` | 01.Sources/SERVER/src/parse/LineSplitter.h:139-148 | A trailing carriage return is cut and one line is counted |
| `Lines.LineSplitter.Reset` | 01.Sources/SERVER/src/parse/LineSplitter.h:44-50 | Reset forgets a line cut in the middle and one being thrown away |
| `Lines.LineSplitter.CarryIsBounded` | 01.Sources/SERVER/src/parse/LineSplitter.h:61-153 | The carry is at most max_line, has no line feed, and is empty while discarding |
| `Lines.StreamAccounts` | 01.Sources/SERVER/src/parse/LineSplitter.h:61-136 | For every stream, every cut and every limit: lines are reported once and in order except some above the limit, and lines + oversize is the number of lines |
| `Lines.CutInvariance` | 01.Sources/SERVER/src/parse/LineSplitter.h:104-113 | A stream is reported the same however it is cut if and only if none of its finished lines is above the limit |
| `Lines.LongLineCut` | 01.Sources/SERVER/src/parse/LineSplitter.h:91-102 | Cutting a long line just before its line feed loses it, not cutting it does not |
| `Lines.ShortStream` | 01.Sources/SERVER/src/parse/LineSplitter.h:61-136 | With every line within the limit, any cut reports exactly the lines of the file |
| `Lines.SplitIsFaithful` | 01.Sources/SERVER/src/parse/LineSplitter.h:61-125 | The reference splitting loses nothing: finished lines and tail make up the stream, and contain no line feed |
| `Lines.SplitConcat` | 01.Sources/SERVER/src/parse/LineSplitter.h:75-102 | Splitting two fragments is splitting the first, then its tail with the second |
| `Wire.FieldsRoundTrip` | 01.Sources/SERVER/src/net/FrameDecoder.cpp:10-62 | Any sequence of u8, u16, u32, u64 and str16 values is read back identically and nothing else is consumed |
| `Wire.FieldsTruncated` | 01.Sources/SERVER/src/net/FrameDecoder.cpp:19-62 | On a proper prefix the fields before the cut are read and then a read fails |
| `Wire.FieldsReadIff` | 01.Sources/SERVER/src/net/FrameDecoder.cpp:19-62 | Reads of given kinds succeed exactly on octets that begin with fields of these kinds, and return those |
| `Wire.FieldLayout` | 01.Sources/SERVER/src/net/FrameDecoder.h:22-54 | A number is its octets, most significant first; a text is its length in two octets and then itself |
| `Wire.LongTextCut` | 01.Sources/SERVER/src/net/FrameDecoder.cpp:8-17 | A text of over 65535 octets is written as its first 65535 |
| `Wire.HeaderLayout` | 01.Sources/SERVER/src/net/Protocol.h:163-187 | Where each header field stands: the letters BYDA, version, kind, flags, length |
| `Wire.PayloadReader.Get` | 01.Sources/SERVER/src/net/FrameDecoder.cpp:27-62 | A read of any kind: after one failure all fail, and the position stays in the buffer |
| `Wire.PayloadReader.Need` | 01.Sources/SERVER/src/net/FrameDecoder.cpp:19-25 | Enough octets remain and no read has failed, or the reader is marked failed |
| `Wire.PayloadWriter.Put` | 01.Sources/SERVER/src/net/FrameDecoder.h:22-54 | A write appends exactly the field's encoding; a string over 65535 octets is cut to that length |
| `Wire.HeaderRoundTrip` | 01.Sources/SERVER/src/net/Protocol.h:163-187 | Every header that fits its fields is decoded to itself |
| `Wire.EncodeHeader` | 01.Sources/SERVER/src/net/Protocol.h:173-179 | The sixteen octets of the header are written at their offsets |
| `Wire.ValueOfBigEndian` | 01.Sources/SERVER/src/net/Protocol.h:119-159 | Big-endian storing and loading are inverse on every width |
| `Wire.StoreBe16` | 01.Sources/SERVER/src/net/Protocol.h:119-125 | The two octets are written most significant first and the rest of the buffer is kept |
| `Wire.StoreBe32` | 01.Sources/SERVER/src/net/Protocol.h:127-132 | The same for four octets |
| `Wire.StoreBe64` | 01.Sources/SERVER/src/net/Protocol.h:134-139 | The same for eight octets, by the shifting loop |
| `Wire.LoadBe64` | 01.Sources/SERVER/src/net/Protocol.h:153-159 | The loop computes the big-endian value of the eight octets |
| `Wire.BigEndianDigit` | 01.Sources/SERVER/src/net/Protocol.h:134-139 | What a shift by eight bits per lower digit leaves in the low octet is that digit |
| `Framing.FrameDecoder.Feed` | 01.Sources/SERVER/src/net/FrameDecoder.cpp:75-151 | One feed for any sink: state, status, octets consumed and the streamed piece are those of the specification, and a complete unstreamed payload is in the buffer |
| `Framing.FrameDecoder.Drain` | 01.Sources/SERVER/src/net/FrameDecoder.h:80-92 | The documented loop over one read returns exactly the frames of the whole-stream parser, the rest of an unfinished one and its error code |
| `Framing.FrameDecoder.TakePayload` | 01.Sources/SERVER/src/net/FrameDecoder.cpp:125-148 | A payload is handed over or copied up to the frame's end and no further |
| `Framing.FrameDecoder.StartFrame` | 01.Sources/SERVER/src/net/FrameDecoder.cpp:95-123 | A header is refused for magic, version or size in this order; otherwise the sink's answer decides where the payload goes, and an empty payload is never streamed |
| `Framing.FrameDecoder.ResetFrame` | 01.Sources/SERVER/src/net/FrameDecoder.cpp:66-73 | A reset makes the decoder a new one |
| `Framing.FeedDec` | 01.Sources/SERVER/src/net/FrameDecoder.cpp:75-151 | A feed takes only what the frame needs, makes progress on non-empty input unless failed, and its pieces add up to the payload |
| `Framing.FeedParses` | 01.Sources/SERVER/src/net/FrameDecoder.cpp:75-151 | What a feed means for the frames of the whole stream, for every state and status |
| `Framing.FeedBroken` | 01.Sources/SERVER/src/net/FrameDecoder.cpp:84-109 | Failure is sticky: the same error again, nothing consumed |
| `Framing.ReadsDoNotMatter` | 01.Sources/SERVER/src/net/FrameDecoder.h:80-92 | Parsing read by read gives the frames, the rest and the failure of parsing the whole stream, for all cuts |
| `Framing.HeaderDecides` | 01.Sources/SERVER/src/net/FrameDecoder.cpp:95-123 | Any sixteen octets: refused with 1 without the letters BYDA, with 2 for a version other than 1, with 4 for a length over 4 MiB, in this order and for good; otherwise the frame is delivered once its payload is there |
| `Framing.SerializedFramesArrive` | 01.Sources/SERVER/src/net/FrameDecoder.cpp:155-168 | The receiver gets exactly the frames given to serialize_frame, whatever follows |
| `Framing.SerializeFrame` | 01.Sources/SERVER/src/net/FrameDecoder.cpp:155-168 | Header and payload are appended in this order |
| `LogLines.ParseLogLine` | 01.Sources/SERVER/src/parse/LogLine.cpp:205-300 | The scanner returns for every string the reason, module, hour key and speed value of the specification |
| `LogLines.AcceptedIffInGrammar` | 01.Sources/SERVER/src/parse/LogLine.h:4-4 | A line is accepted if and only if it has the documented form with a date in range and a whitelisted module |
| `LogLines.ShapeUnique` | 01.Sources/SERVER/src/parse/LogLine.cpp:205-300 | A line is taken apart in at most one way |
| `LogLines.ParseOfShape` | 01.Sources/SERVER/src/parse/LogLine.cpp:205-300 | What is parsed from a line of the documented form, and which reason it gets otherwise |
| `LogLines.ShapeOfParse` | 01.Sources/SERVER/src/parse/LogLine.cpp:225-300 | Every line in which a module name was found, accepted or not, has the documented form, with that name |
| `LogLines.FindSpd` | 01.Sources/SERVER/src/parse/LogLine.cpp:97-158 | The search terminates and agrees with its specification; value and out-of-range never come together |
| `LogLines.SpdDecidedByFirstAnchor` | 01.Sources/SERVER/src/parse/LogLine.cpp:97-158 | The result is decided by the first 'spd[' not preceded by an identifier character and by the text up to the next ']' alone |
| `LogLines.DecimalIff` | 01.Sources/SERVER/src/parse/LogLine.cpp:120-132 | The token is a number exactly when it is a signed decimal, and its digits are the token's |
| `LogLines.CheckDecimal` | 01.Sources/SERVER/src/parse/LogLine.cpp:120-132 | The scan of the token accepts exactly those |
| `LogLines.CheckTimestamp` | 01.Sources/SERVER/src/parse/LogLine.cpp:32-50 | The fixed template is matched position by position |
| `LogLines.LookupModule` | 01.Sources/SERVER/src/parse/LogLine.cpp:57-88 | The two-step lookup finds a name exactly when it is in the whitelist, at its index |
| `LogLines.ScanFields` | 01.Sources/SERVER/src/parse/LogLine.cpp:225-246 | Three bracketed runs of 1 to 20 digits, with the reason for the first deviation |
| `Grammar.AcceptedIff` | 01.Sources/SERVER/src/parse/LogLine.cpp:205-300 | By the characters of the line: accepted if and only if it is a timestamp of the layout, three bracketed numbers of 1 to 20 digits, the tag, one of the five names, a colon, a blank and a payload, with a month of 1 to 12, a day of 1 to 31 and an hour up to 23 in the stamp |
| `Grammar.CompleteLine` | 01.Sources/SERVER/src/parse/LogLine.cpp:262-298 | A line complete up to its payload: an unlisted name is UnknownModule, a date outside the calendar BadTimestamp, otherwise the module is the name's, the hour key YYYYMMDDHH of the digits shown, and the speed that of the payload |
| `Grammar.RefusedFor` | 01.Sources/SERVER/src/parse/LogLine.cpp:205-260 | Every other line and its reason: the first part of the format that is not there, in the code's order |
| `Grammar.SpeedRead` | 01.Sources/SERVER/src/parse/LogLine.cpp:97-158 | The value up to the bracket after the first 'spd[' that is a word of its own: a decimal of under 64 characters is worth its digits over a power of ten, or out of range outside 0 to 1000000000; anything else is no speed |
| `Grammar.SpeedMissing` | 01.Sources/SERVER/src/parse/LogLine.cpp:97-158 | Without such a key a line has no speed |
| `Numbers.DecimalWorth` | 01.Sources/SERVER/src/parse/LogLine.cpp:134-156 | A decimal times ten to the number of its places is the number its digits make without the point, negative with a minus sign |
| `Numbers.NumberConcat` | 01.Sources/SERVER/src/parse/LogLine.cpp:16-24 | The value of two runs of digits put together, which with that of a single digit settles what digits are worth |
| `Numbers.U64sIs` | 01.Sources/SERVER/src/analyze/CsvWriter.cpp:37-41 | A printed number reads back as itself and has no leading zero |
| `Numbers.PaddedIs` | 01.Sources/SERVER/src/analyze/Aggregator.cpp:193-202 | So does a padded one, with zeros only to fill the width |
| `Aggregation.Aggregator.AddLine` | 01.Sources/SERVER/src/analyze/Aggregator.cpp:130-191 | One line changes the fields exactly as the fold prescribes, cache and insertion included |
| `Aggregation.Aggregator.BucketFor` | 01.Sources/SERVER/src/analyze/Aggregator.cpp:75-99 | The bucket of a key is found or inserted at its place, and the cached index names the cached key also after insertions shift entries |
| `Aggregation.Aggregator.RecordReject` | 01.Sources/SERVER/src/analyze/Aggregator.cpp:101-128 | Count and first case of the reason, and the name table up to its cap |
| `Aggregation.Aggregator.CountHour` | 01.Sources/SERVER/src/analyze/Aggregator.cpp:156-177 | Counting in place equals counting in the sorted table |
| `Aggregation.Aggregator.Reset` | 01.Sources/SERVER/src/analyze/Aggregator.cpp:49-73 | Reset gives the empty statistics |
| `Aggregation.Aggregator.AddOversize` | 01.Sources/SERVER/src/analyze/Aggregator.h:58-58 | Only the oversize count changes |
| `Aggregation.HoursExact` | 01.Sources/SERVER/src/analyze/Aggregator.cpp:156-177 | The table holds the first 10000 distinct hours in key order, each with exactly the accepted lines of its hour, later ones included |
| `Aggregation.NamesExact` | 01.Sources/SERVER/src/analyze/Aggregator.cpp:118-127 | The name table holds precisely the first 64 distinct unknown names, each with its full count |
| `Aggregation.ReasonsExact` | 01.Sources/SERVER/src/analyze/Aggregator.cpp:101-117 | Per reason: the count, the number and offset of the first such line, and its excerpt |
| `Aggregation.Conservation` | 01.Sources/SERVER/src/analyze/Aggregator.cpp:130-191 | Accepted and refused lines add up to all lines, module totals to the accepted, bucket totals to the accepted less those past the cap, and each bucket's modules to its total |
| `Aggregation.SpeedTotals` | 01.Sources/SERVER/src/analyze/Aggregator.cpp:166-190 | Count and sum are those of all samples, past the cap as well |
| `Aggregation.SpeedExtremes` | 01.Sources/SERVER/src/analyze/Aggregator.cpp:179-190 | With at most 10000 distinct hours the extremes are the least and greatest of all samples |
| `SpeedRanges.ExtremesIff` | 01.Sources/SERVER/src/analyze/Aggregator.cpp:166-190 | For every stream the reported minimum and maximum are those of all samples if and only if every sample of an hour past the cap lies between two others that were compared, and, if the first sample of all was past the cap, zero is itself a sample |
| `SpeedRanges.RangeOfCompared` | 01.Sources/SERVER/src/analyze/Aggregator.cpp:166-190 | Whatever the stream, they are the extremes of the samples whose hour has a bucket, with a zero among them if the first sample of all had none |
| `SpeedRanges.TrackedIff` | 01.Sources/SERVER/src/analyze/Aggregator.cpp:156-171 | A line gets a bucket exactly when its hour is among the first 10000 distinct ones |
| `SpeedRanges.SpuriousMinimum` | 01.Sources/SERVER/src/analyze/Aggregator.cpp:166-190 | A stream of samples 5 and 7 whose reported minimum is 0: the first sample came past the cap |
| `Aggregation.PastCapExtremes` | 01.Sources/SERVER/src/analyze/Aggregator.cpp:166-171 | Once right, the extremes are still right after a line past the cap if and only if its sample lies within them |
| `Aggregation.ExcerptIsSafe` | 01.Sources/SERVER/src/analyze/Aggregator.cpp:25-43 | An excerpt is printable and at most 166 characters |
| `Aggregation.EscapeExcerpt` | 01.Sources/SERVER/src/analyze/Aggregator.cpp:25-43 | The loop builds the specified excerpt |
| `Aggregation.NeumaierAdd` | 01.Sources/SERVER/src/analyze/Aggregator.cpp:13-21 | Sum and compensation together grow by exactly the value |
| `Tallies.ReasonsCounted` | 01.Sources/SERVER/src/analyze/Aggregator.cpp:101-128 | The count kept for a reason is the number of lines with that reason |
| `Tallies.ModulesCounted` | 01.Sources/SERVER/src/analyze/Aggregator.cpp:153-154 | A module's total is the number of accepted lines that name it |
| `Tallies.HourAndModuleCounted` | 01.Sources/SERVER/src/analyze/Aggregator.cpp:175-177 | A module's count in an hour is the number of accepted lines of that hour that name it |
| `Tallies.OutOfRangeCounted` | 01.Sources/SERVER/src/analyze/Aggregator.cpp:149-151 | The guard's count is the number of accepted lines whose speed is out of range |
| `Tallies.SamplesListed` | 01.Sources/SERVER/src/analyze/Aggregator.cpp:180-190 | The samples are the speeds of the accepted lines that have one, each once and in order |
| `Tallies.TimesRead` | 01.Sources/SERVER/src/analyze/Aggregator.cpp:143-147 | The time range begins with the 26 characters in the brackets of the first accepted line and ends with those of the last |
| `Tallies.FirstRefused` | 01.Sources/SERVER/src/analyze/Aggregator.cpp:107-114 | What is kept of a reason is the number, the offset and the excerpt of its first line |
| `Tallies.DistinctIs` | 01.Sources/SERVER/src/analyze/Aggregator.cpp:156-171 | The distinct keys counted against a cap: each once, none missing, in order of first appearance |
| `Labels.KeyOrderIsLabelOrder` | 01.Sources/SERVER/src/analyze/Aggregator.cpp:193-202 | Of two lines the earlier hour has the smaller key and the label that sorts first |
| `CsvLines.QuotingRoundTrip` | 01.Sources/SERVER/src/analyze/CsvWriter.cpp:12-35 | For every non-empty list of arbitrary fields, splitting the comma-joined quoted fields returns the list, in the sense of section 2 of RFC 4180 |
| `CsvLines.SplitAtCommas` | 01.Sources/CLIENT/CSHARP/Network/Protocol.cs:444-491 | A line without quotes is split at its commas, nothing else is taken from it, and no field holds one |
| `CsvLines.QuotedIs` | 01.Sources/SERVER/src/analyze/CsvWriter.cpp:12-35 | A field is put in quotes exactly when it holds a comma, a quote or a line break |
| `CsvLines.CsvQuote` | 01.Sources/SERVER/src/analyze/CsvWriter.cpp:12-35 | The loop quotes exactly when needed and doubles quotes |
| `CsvLines.SplitLine` | 01.Sources/CLIENT/CSHARP/Network/Protocol.cs:444-491 | The loop over characters computes the fields of the specification |
| `CsvDocuments.Parse` | 01.Sources/CLIENT/CSHARP/Network/Protocol.cs:394-441 | The reader loop opens sections, takes headers and rows, and skips blank and comment lines as specified |
| `CsvDocuments.ReadTables` | 01.Sources/CLIENT/CSHARP/Network/Protocol.cs:394-441 | Reading the lines of a list of well-formed tables returns their names, headers and rows in order |
| `CsvDocuments.HeadingsAreSections` | 01.Sources/CLIENT/CSHARP/Network/Protocol.cs:406-416 | One section is opened for every heading line, whatever surrounds it |
| `CsvDocuments.CommentsIgnored` | 01.Sources/CLIENT/CSHARP/Network/Protocol.cs:418-424 | Blank lines and lines that begin with # change nothing of what is read |
| `CsvDocuments.Trimmed` | 01.Sources/CLIENT/CSHARP/Network/Protocol.cs:406-416 | Blanks, tabs and line ends around a section's name are not part of it |
| `ResultCsv.DocumentRoundTrip` | 01.Sources/SERVER/src/analyze/CsvWriter.cpp:72-228 | For all reachable statistics the document is read back as exactly its six tables if and only if the file name does not contain a line break followed by a section heading |
| `Showing.DocumentSays` | 01.Sources/SERVER/src/analyze/CsvWriter.cpp:108-228 | After any lines, what the client reads back says in terms of the lines: per hour the label its lines show and their number by module; total, accepted and refused lines, their ratio, the time range, number, sum, average (times the number it is the sum) and range of the speeds; per module its lines and their share; per reason, by name, its lines and the number, offset and excerpt of the first; the refused names and how often each occurs; and every column's name |
| `Showing.SummarySpeeds` | 01.Sources/SERVER/src/analyze/CsvWriter.cpp:141-155 | The speed rows of the summary: empty exactly when no line has a speed, otherwise the average times the number of samples is their sum |
| `Showing.HoursAreShown` | 01.Sources/SERVER/src/analyze/CsvWriter.cpp:108-122 | One row for each of the first 10000 distinct hours in their order, with the date and hour of its lines and five counts |
| `Showing.DispositionIs` | 01.Sources/SERVER/src/analyze/CsvWriter.cpp:178-196 | Every line by what became of it, under the name and description of each reason, and the TOTAL row |
| `Showing.DiagnosticsAre` | 01.Sources/SERVER/src/analyze/CsvWriter.cpp:198-214 | A row for exactly the reasons that occur, with the first line of each, and the guard's row if a speed was out of range |
| `Showing.NamesAreShown` | 01.Sources/SERVER/src/analyze/CsvWriter.cpp:219-225 | One row for each of the first 64 distinct unlisted names, sorted, with the number of its lines |
| `Showing.ExcerptIs` | 01.Sources/SERVER/src/analyze/Aggregator.cpp:25-43 | An excerpt shows the line's characters until 160 are reached, and dots exactly when the line is longer than that |
| `Showing.EscapeIs` | 01.Sources/SERVER/src/analyze/Aggregator.cpp:31-38 | A printable character is shown as itself, any other octet as a backslash, an x and its two hexadecimal digits |
| `ResultCsv.ReachableIsShowable` | 01.Sources/SERVER/src/analyze/Aggregator.cpp:25-43 | Nothing any line leaves in the statistics can break the document |
| `ResultCsv.BuildResultCsv` | 01.Sources/SERVER/src/analyze/CsvWriter.cpp:72-228 | The appending loops build exactly the document |
| `ResultCsv.DispositionRows` | 01.Sources/SERVER/src/analyze/CsvWriter.cpp:177-196 | The disposition rows with the running check total |
| `ResultCsv.CheckRow` | 01.Sources/SERVER/src/analyze/CsvWriter.cpp:184-195 | The TOTAL row is total_lines + oversize, hence total_lines exactly when oversize is 0 |
| `ResultCsv.LabelReproducesLine` | 01.Sources/SERVER/src/analyze/Aggregator.cpp:193-202 | The label printed for a line's hour shows the line's own date and hour digits |
| `ResultCsv.AppendTable` | 01.Sources/SERVER/src/analyze/CsvWriter.cpp:167-175 | A table is appended as heading, header, rows and a blank line |
| `TcpServers.TcpServer.AcceptOne` | 01.Sources/SERVER/src/net/TcpServer.cpp:114-150 | A connection gets a fresh id and is started only within the limit; above it, or when it cannot be taken, it is entered but never started; after a shutdown nothing is entered |
| `TcpServers.TcpServer.BeginShutdown` | 01.Sources/SERVER/src/net/TcpServer.cpp:160-203 | Every session is told to close and none is lost |
| `TcpServers.TcpServer.HandleClosed` | 01.Sources/SERVER/src/net/TcpSession.cpp:784-801 | A session leaves the table with its last handle, is reported once and only then |
| `TcpServers.TcpServer.OnSessionClosed` | 01.Sources/SERVER/src/net/TcpServer.cpp:205-215 | The session is erased if it is there |
| `TcpServers.DrainsToEmpty` | 01.Sources/SERVER/src/net/TcpServer.cpp:160-215 | After a shutdown, for every sequence of connections, closings and close callbacks: no session comes in, and the table is empty exactly when as many handles have closed as were open; until then one can close |
| `TcpServers.TcpServer.ShutDownDrains` | 01.Sources/SERVER/src/net/TcpServer.cpp:160-203 | A shutdown leaves the table as that statement starts from: every session closing |
| `Owning.SessionAsEntry` | 01.Sources/SERVER/src/net/TcpSession.cpp:746-801 | Every event of a session is to its owner nothing, a close, or one handle less, and the end is reported with the second handle |
| `RectPack.Context.PackRects` | 01.Sources/CLIENT/CPP/3rdparty/imgui/imstb_rectpack.h:546-584 | Over any number of calls: every rectangle keeps its index, id and size, empty ones sit at the origin, the flag tells failure, and the rest lie inside the target, apart from each other and from all packed before.  They follow a sequence of outlines in an order with the tallest first: at its turn each is put at the best place, and the outline raised over it, if and only if that is not too high and a node is left |
| `RectPack.Context.PackOne` | 01.Sources/CLIENT/CPP/3rdparty/imgui/imstb_rectpack.h:557-570 | One rectangle takes its turn on the outline it finds |
| `PackOrder.TurnTaken` | 01.Sources/CLIENT/CPP/3rdparty/imgui/imstb_rectpack.h:449-466 | A rectangle is put exactly when it fits; each cause of a failure rules out every place |
| `PackOrder.BestIs` | 01.Sources/CLIENT/CPP/3rdparty/imgui/imstb_rectpack.h:365-441 | The best place spelled out: at a point of the outline or, for best fit, up against one, as low as any other, then with as little waste, then as far left |
| `PackOrder.TurnUnique` | 01.Sources/CLIENT/CPP/3rdparty/imgui/imstb_rectpack.h:449-526 | The outline and a rectangle's size decide where it goes and the next outline |
| `PackOrder.OutcomeDecided` | 01.Sources/CLIENT/CPP/3rdparty/imgui/imstb_rectpack.h:546-584 | So the sizes in the order of packing decide every position |
| `PackOrder.FirstIsPacked` | 01.Sources/CLIENT/CPP/3rdparty/imgui/imstb_rectpack.h:557-570 | On an empty target with a node to spare, a rectangle whose quantized width and whose height fit is packed, at the origin |
| `RectPack.Context.PackRectangle` | 01.Sources/CLIENT/CPP/3rdparty/imgui/imstb_rectpack.h:449-526 | A rectangle is packed at the best place the heuristic knows, or not at all for one of the named causes, and then nothing changes |
| `RectPack.Context.FindBestPos` | 01.Sources/CLIENT/CPP/3rdparty/imgui/imstb_rectpack.h:347-447 | The place found is the least by height, waste and position among all the heuristic's options, and none is found only when no option is below the limits |
| `RectPack.Context.ScanLeft` | 01.Sources/CLIENT/CPP/3rdparty/imgui/imstb_rectpack.h:365-391 | The first pass finds the best of the left-aligned places |
| `RectPack.Context.ScanRight` | 01.Sources/CLIENT/CPP/3rdparty/imgui/imstb_rectpack.h:410-441 | The second pass finds the best of all left- and right-aligned places |
| `RectPack.Context.FindMinY` | 01.Sources/CLIENT/CPP/3rdparty/imgui/imstb_rectpack.h:291-339 | The walk computes the greatest height under the span and the waste of the specification |
| `RectPack.Context.Splice` | 01.Sources/CLIENT/CPP/3rdparty/imgui/imstb_rectpack.h:464-499 | Relinking in place: hidden nodes go to the free list, the first that stays gives way, no node is lost or shared |
| `RectPack.Context.Relink` | 01.Sources/CLIENT/CPP/3rdparty/imgui/imstb_rectpack.h:464-499 | The nodes then show exactly the raised outline |
| `RectPack.Context.Release` | 01.Sources/CLIENT/CPP/3rdparty/imgui/imstb_rectpack.h:485-493 | Nodes are moved to the free list up to the first whose successor lies beyond the edge |
| `RectPack.Context.constructor` | 01.Sources/CLIENT/CPP/3rdparty/imgui/imstb_rectpack.h:265-288 | A new target: two nodes in the outline, all the caller's nodes free |
| `RectPack.Context.SetupAllowOutOfMem` | 01.Sources/CLIENT/CPP/3rdparty/imgui/imstb_rectpack.h:245-263 | The quantum is the least with num_nodes * align >= width, or 1 |
| `RectPack.ShowsRaised` | 01.Sources/CLIENT/CPP/3rdparty/imgui/imstb_rectpack.h:475-499 | What the nodes hold after relinking, point by point |
| `Skylines.PackingIsSound` | 01.Sources/CLIENT/CPP/3rdparty/imgui/imstb_rectpack.h:449-526 | Putting a box on the outline keeps the outline strictly increasing from 0 to the sentinel, above every box, and all boxes inside and apart |
| `Skylines.RaisedIsSkyline` | 01.Sources/CLIENT/CPP/3rdparty/imgui/imstb_rectpack.h:475-499 | The raised outline is one |
| `Skylines.RaisedCovers` | 01.Sources/CLIENT/CPP/3rdparty/imgui/imstb_rectpack.h:475-499 | What was below the outline stays below it |
| `Skylines.RestIsAbove` | 01.Sources/CLIENT/CPP/3rdparty/imgui/imstb_rectpack.h:310-336 | Whatever reaches into the span of a place ends below it |
| `Skylines.TopIsMaximum` | 01.Sources/CLIENT/CPP/3rdparty/imgui/imstb_rectpack.h:310-336 | The height found is the maximum over the span, attained |
| `Skylines.SearchIsBest` | 01.Sources/CLIENT/CPP/3rdparty/imgui/imstb_rectpack.h:365-441 | No left- or right-aligned option beats the one kept |
| `NodeSupply.GridLeavesNode` | 01.Sources/CLIENT/CPP/3rdparty/imgui/imstb_rectpack.h:254-261 | With the outline on the quantum's grid one of the caller's nodes is always free |
| `NodeSupply.GridIsKept` | 01.Sources/CLIENT/CPP/3rdparty/imgui/imstb_rectpack.h:254-261 | Widths that are multiples of the quantum keep it there |
| `NodeSupply.NodesSufficeIff` | 01.Sources/CLIENT/CPP/3rdparty/imgui/imstb_rectpack.h:254-261 | For every target and both heuristics: the nodes last for every sequence of rectangles if and only if there are as many as columns; in a target one unit high also if the squares that use them up leave no room for another quantum |
| `NodeSupply.SquaresMakeRow` | 01.Sources/CLIENT/CPP/3rdparty/imgui/imstb_rectpack.h:464-499 | With fewer nodes than columns unit squares go side by side at their best places until every node is taken |
| `NodeSupply.StaysFlush` | 01.Sources/CLIENT/CPP/3rdparty/imgui/imstb_rectpack.h:464-499 | In a target one unit high the boxes stay one row filled from the left, for both heuristics |
| `RectPack.Context.ANodeIsLeft` | 01.Sources/CLIENT/CPP/3rdparty/imgui/imstb_rectpack.h:464-472 | A context with as many nodes as columns always has a free one |
| `NodeSupply.NodesRunOut` | 01.Sources/CLIENT/CPP/3rdparty/imgui/imstb_rectpack.h:254-261 | A concrete case: two nodes, a target four wide, and two squares of width one |
| `Skylines.WasteIsArea` | 01.Sources/CLIENT/CPP/3rdparty/imgui/imstb_rectpack.h:291-339 | The waste of a place that starts at a node or over a raised segment is the area lost below it |
| `Skylines.WasteWithSurplus` | 01.Sources/CLIENT/CPP/3rdparty/imgui/imstb_rectpack.h:316-333 | For a right-aligned place over the bare floor it is that area plus the surplus visited width, charged where the count is cut back or up to the top: never too little |
| `Skylines.WasteOvercounts` | 01.Sources/CLIENT/CPP/3rdparty/imgui/imstb_rectpack.h:316-333 | A concrete place that is charged too much |
| `RectSort.Sort` | 01.Sources/CLIENT/CPP/3rdparty/imgui/imstb_rectpack.h:555-573 | Sorted by the comparator and a permutation |
| `RectSort.TagsInPlace` | 01.Sources/CLIENT/CPP/3rdparty/imgui/imstb_rectpack.h:550-573 | Sorting by the parked indices brings every rectangle back to its index |

## Left out

- libuv, sockets, signals, logging, configuration and process handling: only their events and
  answers appear, as parameters or steps.
- Failure to initialise a session's handles, and allocation failure.
- That write callbacks come before the close callbacks is not assumed: after the last close
  callback a run of the machine simply ends.
- Floating-point rounding: speeds are reals, so the compensated sum is exact and strtod has no
  rounding and no overflow; `%.6f` and `%.4f` are arbitrary functions to text without comma,
  quote or line break.
- Text encoding: octets are characters below 256 on both sides; the client's UTF-8 decoding of
  the document, which comes before it is split into lines, is not part of this model.
- The words in error messages, the peer address and the ids in acknowledgements; frames sent by
  a session carry the figures the conversation and the result depend on.
- Wall-clock values of timers, including the client's own deadlines for a write and for a
  drain; a client that gives up by timeout leaves the conversation.
- Counters wider than their machine type: byte and line counts are unbounded, and so are the
  session ids.
- Coordinates beyond 32 bits in the packer: sums of coordinates and areas do not wrap.
- Uploads.EndToEnd: assumes that every write request is taken; what a refused one does is stated
  in Sessions.
- CancelProtocol.NeverRefused: the upload loop of the client is modelled as steps of a state
  machine, not as a loop over a stream object; progress figures and their display are left out.
- Leaving.NothingCompletes: a token that fires before the first write of UPLOAD_BEGIN has sent
  nothing and is no exit; two half frames in a row are not modelled, nor a file name that holds
  a frame header just where the octets behind a half UPLOAD_BEGIN are looked at (otherwise
  HalfFrames.GarbageRefused applies).  Bytes the idle link check of the user interface throws
  away are a separate statement, Leaving.IdleCheckMends.
- RectSort.Sort: the order of equal rectangles is not fixed, as it is not by the library sort.
- The user interfaces, the text editor of the C++ client, the second copy of the codec and the
  C++ transfer client, which add no property of their own.
