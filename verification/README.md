# mcpmesh: the wire path, and the state machines around it

This project models the part of mcpmesh that every byte between two of its processes goes through, and the
protocols built directly on it:

- the NDJSON codec: one compact JSON frame per line, a hard cap per line, a reader that survives dropped
  futures, oversized lines and hand-offs (`Utf8`, `Number`, `Json`, `Grammar`,
  `Compact`, `Codec`, `FrameIo`);
- the `connect` proxy's pump, two loops under one `select!` (`Pump`);
- the control client: hello handshake, one outstanding request, session and stream upgrade (`Messages`, `ControlApi`), and the
  `connect` command that chains handshake, upgrade and pump (`Proxy`);
- the singleton daemon and the callers that race to start it (`Singleton`, `Convergence`, `Autostart`);
- four text and arithmetic cores: the shortened socket path (`Paths`), the user-id slug (`Enroll`), the
  `mcpServers` block a human pastes (`ClientConfig`), and the total deserializer of `ReachabilitySource`
  (`Reachability`).

## How the model is built

**JSON is concrete.** `Json.Print` is the compact printer and `Json.FromText` a whitespace-tolerant parser for
RFC 8259 sections 2 to 7, over values whose objects are key-sorted lists. `Utf8` is a strict UTF-8 codec, so the
wire is bytes, not characters. A number is an integer in the `i64`/`u64` range or an opaque lexeme. `Grammar` states
the RFC's grammar apart from the parser, as syntax trees with a spelling and a meaning; the parser accepts a text with
a value if and only if the grammar gives the text that value within 127 nested containers. `Compact` tells the printer
in the same terms: of all texts with the value, the one without white space, with the shortest characters and the
members in byte order of their keys.

**One reference, one state machine, one object.** `Codec.Outcomes` says what a byte stream owes its receiver:
cut at the newlines, classify every line, look at the tail. `Codec.PollNext` is `FrameReader::next` byte by byte;
`FrameIo.FrameReader` is the class with the source's fields over any nesting of `BufReader`s. The object is proved
equal to the machine and the machine is proved to deliver exactly the reference. A future dropped between two byte
reads is a poll that found only so many bytes: nothing but the reader's own fields survives it.

**Concurrency is steps.** The pump, the daemons with their callers, and the concurrent dispatcher behind a control
connection are functions from a state and an event to a state; the theorems are over all event sequences. Partial
writes, failing flushes, failing half-closes, crashes, failing unlinks and binds are events like any other.

## What the code does that its comments do not say

- **The wire round trip has a second bound.** `write_frame` prints a value however deep it nests, while
  `serde_json::from_slice` stops at 127 nested containers. So a list of frames arrives as it was sent exactly when
  each fits the cap *and* nests at most 127 deep (`Codec.WireRoundTrip`, `Json.FromSliceToVec`); `Codec.DeepFrameRefused`
  gives the failing family.
- **A clean end of stream may leave bytes in the line buffer.** After a frame or a violation the buffer is empty
  and the hand-off lossless. After `Ok(None)` it is empty exactly when the stream ended with a terminator or in an
  oversized line; otherwise it holds the unterminated rest (`Codec.EndLeavesTail`, with `Codec.EndKeepsTailExample`).
- **The pump's code is that of the last frame read, not relayed.** It is noted before the frame is written. The two
  agree exactly when no frame has been cut on stdout, or the cut one does not change the code
  (`Pump.CodeOfRelayedIff`); a refusal that is read when stdout is already gone is returned although not a byte of
  it was relayed (`Pump.RefusalLostExample`).
- **A client may be connected to a daemon that is already gone.** The daemon writes its hello and the caller reads it
  later. The hello always comes from the holder of the lock, but by the time the call returns that daemon holds it
  exactly if it is not over yet (`Singleton.ConnectedToHolder`, with `Singleton.ConnectedToDeadExample`).
- **`"error": null` is an error.** `request_value` asks whether the key exists (`ControlApi.AnswersIff`).
- **The address-in-use exit is not dead on unix.** The stale-socket removal ignores its own failure, and then the
  bind meets a file: the daemon exits zero although nobody holds the lock
  (`Singleton.AddressInUseIffStuck`, with `Singleton.AddressInUseExample`). While removals work the comment is right
  (`Singleton.AddressInUseNeedsStuckFile`).
- **A deep profile root is rescued only by a short temp directory.** `Paths.SocketFitsIff` is the exact condition and
  `Paths.DeepTempDirExample` a path of 130 bytes.
- **The hello is also accepted as a four-element array**, as any derived struct is (`Messages.HelloIff`).

## Model

| member | source | states |
|---|---|---|
| Utf8.DecodeEncode | codec/src/lib.rs:1-2 | Every text survives its UTF-8 encoding. |
| Utf8.EncodeDecode | codec/src/lib.rs:95-98 | The decoder accepts nothing but what the encoder writes: no byte string has a second reading. |
| Utf8.EncodingTable | codec/src/lib.rs:1-2 | The table of RFC 3629: the number of bytes for each range of code points, and the code point as the sum of the bits its bytes carry. |
| Json.NormalizeKeepsLast | cli/src/proxy.rs:48-50 | An object read in any order ends up key-sorted, and of a repeated key the last binding wins. |
| Json.LookupIff | cli/src/proxy.rs:162-169 | In an object's sorted members a key is found with a value exactly when that member stands among them. |
| Json.DecimalRead | codec/src/lib.rs:95-98 | Every integer in the i64/u64 range prints as a lexeme that is all number and denotes that integer. |
| Number.LexPrefix | codec/src/lib.rs:95-98 | The text a number token was read from is, alone, a whole number token. |
| Number.LexExtends | codec/src/lib.rs:95-98 | White space, a comma or a closing bracket after a number never changes how much of the text is number. |
| Number.ThenGood | codec/src/lib.rs:95-98 | Token readers that stay within the text, do not depend on what follows and take in no line break keep all of that when they read one behind the other. |
| Json.ParseQuoted | cli/src/proxy.rs:50-55 | Any string, quotes, backslashes and control characters included, is read back exactly from its quoted form, whatever follows. |
| Json.ParsePrinted | codec/src/lib.rs:95-116 | A printed value in any context reads back as itself if its nesting is within the reader's depth budget and is refused otherwise. |
| Json.FromSliceToVec | codec/src/lib.rs:95-116 | `from_slice` inverts `to_vec` on every value nested at most 127 deep and refuses every deeper one. |
| Json.PrintOneLine | codec/src/lib.rs:113-119 | Compact text of any value holds no line break. |
| Json.ToVecOneLine | codec/src/lib.rs:113-119 | No wire encoding of a value holds byte 0x0A, so the terminator is unambiguous. |
| Compact.StringTight | codec/src/lib.rs:113-119 | A string is written with the shortest form of every character: itself, a one-letter escape, or a lowercase code point for the other control characters. |
| Compact.PrintIsTight | codec/src/lib.rs:113-119 | The printer writes, of all texts the grammar gives the value, the one without white space, with the shortest characters and members in key order. |
| Compact.ToVecIsTight | codec/src/lib.rs:115-117 | The wire encoding is the UTF-8 of that text. |
| Compact.LessIsByteOrder | cli/src/proxy.rs:48-50 | Key order is the order of the keys' UTF-8 bytes. |
| Json.FromSliceSound | codec/src/lib.rs:95-98 | Any accepted frame can be written again and read again as the same value. |
| Grammar.NumReads | codec/src/lib.rs:95-98 | Every number of RFC 8259 section 6 is read as one token, to its end. |
| Grammar.NumSound | codec/src/lib.rs:95-98 | Whatever is read as a number is one of the grammar: optional minus, no leading zero, digits after point and exponent. |
| Grammar.NumDenotes | codec/src/lib.rs:95-98 | The parser gives every number the meaning the grammar defines from its digits alone. |
| Grammar.NumberRead | codec/src/lib.rs:95-98 | A number's text is the integer of its decimal value if it has no fraction or exponent, is in the i64/u64 range and is not `-0`; otherwise a float with that very text. |
| Grammar.FloatIff | codec/src/lib.rs:95-98 | What a float can be: exactly the texts of numbers that are no such integers. |
| Grammar.FloatSurvives | codec/src/lib.rs:95-119 | Every such number crosses the wire with its text. |
| Grammar.UnitsRead | codec/src/lib.rs:95-98 | Every string of RFC 8259 section 7, short escapes, code points and surrogate pairs included, is read as the characters it denotes. |
| Grammar.UnitsSound | codec/src/lib.rs:95-98 | Whatever is read as a string is one of the grammar with that meaning; lone surrogates and bare control characters are not. |
| Grammar.Reads | codec/src/lib.rs:95-98 | Any syntax tree's text, white space anywhere the grammar allows it, is read as what the tree means if its nesting is within the budget, and refused otherwise. |
| Grammar.Sound | codec/src/lib.rs:95-98 | Whatever text is accepted is the text of a syntax tree with that meaning, within the budget, and the remainder is untouched. |
| Grammar.AcceptedIff | codec/src/lib.rs:95-98 | A text is accepted with a value if and only if the grammar gives it that value within 127 nested containers. |
| Grammar.DeepRefused | codec/src/lib.rs:95-98 | A text of the grammar that nests deeper is refused, members that are replaced by a later binding included. |
| Grammar.OneReading | codec/src/lib.rs:95-98 | The grammar is unambiguous: a text denotes one value at most. |
| Grammar.SliceAcceptedIff | codec/src/lib.rs:95-98 | Bytes are accepted with a value if and only if they are the UTF-8 of a text of the grammar with that value. |
| Grammar.LineDenotesIff | codec/src/lib.rs:95-98 | The same with the nesting limit written out, 127. |
| Grammar.OneValue | codec/src/lib.rs:95-98 | A line denotes one value at most. |
| Codec.SplitIsPartition | codec/src/lib.rs:77-110 | Cutting at newlines loses nothing: the lines, each terminated, and the tail spell the stream, and none holds a newline. |
| Codec.PartitionIsSplit | codec/src/lib.rs:77-110 | ... and that cut is the only one. |
| Codec.JudgesIff | codec/src/lib.rs:87-109 | For any line there is one outcome that fits the grammar and the cap, and it is the one the reader gives. |
| Codec.OutcomePerLine | codec/src/lib.rs:72-111 | One outcome per terminated line, in order, each judged by the line's bytes: the frame it denotes in the grammar, `InvalidJson` if and only if it is within the cap and denotes none, `TooLarge` if and only if it is over the cap; the unterminated tail is one `TooLarge` if and only if it exceeds the cap at end of stream, and nothing otherwise. |
| Codec.Resynchronises | codec/src/lib.rs:72-110 | Whatever precedes a terminator, back-to-back oversized lines included, the bytes after it owe what they owe on their own. |
| Codec.OutcomesOfLine | codec/src/lib.rs:87-98 | A terminated line is exactly one outcome, and the rest owes what it owes alone. |
| Codec.LineOutcome | codec/src/lib.rs:87-98 | A line alone on a stream is its frame, `InvalidJson` or `TooLarge`, each if and only if the grammar and the cap say so. |
| Codec.EmptyLine | codec/src/lib.rs:94-98 | The terminator is byte 0x0A, and a line of nothing else is `InvalidJson`. |
| Codec.PollTold | codec/src/lib.rs:77-110 | From any mid-line state, one poll of any length either reads on within the line, or ends at the terminator or the end of the stream with the outcome the whole line deserves and an empty buffer. |
| Codec.PollKeepsOwed | codec/src/lib.rs:36-49 | In every reachable state the buffer is within the cap, free of newlines, and empty while discarding; every poll, dropped ones included, leaves what was owed less what it returned, and is between frames after any outcome. |
| Codec.PollReads | codec/src/lib.rs:77-81 | A poll that is not ready has read its whole budget or everything that has arrived. |
| Codec.ScheduleIndependent | codec/src/lib.rs:36-49 | For every schedule of dropped and restarted polls, outcomes delivered plus outcomes owed are the one uninterrupted reading; more effective polls than bytes deliver it all. |
| Codec.EndIsFinal | codec/src/lib.rs:72-76 | After `Ok(None)` every further call gives `Ok(None)` and changes nothing. |
| Codec.StartOwes | codec/src/lib.rs:52-60 | A new reader owes exactly the reference outcomes of its stream. |
| Codec.HandOff | codec/src/lib.rs:62-70 | After any frame or violation, a fresh reader of the same cap over the unread bytes yields exactly what the old one still owed. |
| Codec.NextLine | codec/src/lib.rs:77-110 | From anywhere within a line, a `next` that finds the rest of it returns the outcome the bytes of the whole line deserve, and leaves what follows unread. |
| Codec.EndKeepsTail | codec/src/lib.rs:80-86 | After `Ok(None)` the buffer holds exactly what had been carried and read of the last line. |
| Codec.EndLeavesTail | codec/src/lib.rs:62-76 | Over a whole stream and any schedule, a clean end leaves the buffer empty if and only if the stream ended with a terminator or in an oversized line; otherwise it holds the unterminated rest. |
| Codec.EndKeepsTailExample | codec/src/lib.rs:80-86 | One byte and the end of the stream: `Ok(None)` with that byte still in the buffer. |
| Codec.AwaitFirst | local-api/src/client.rs:103-112 | An awaited `next` returns the first outcome owed and leaves exactly the others owed. |
| Codec.WireDelivers | codec/src/lib.rs:77-120 | Any frames written back to back, followed by anything, are received one by one: the frame, `TooLarge` if over the cap, `InvalidJson` if too deep; and what follows is untouched. |
| Codec.ReceivedIffFits | codec/src/lib.rs:77-120 | All of a list is received as sent if and only if every frame fits the cap and the depth. |
| Codec.WireRoundTrip | codec/src/lib.rs:77-120 | Writing any list of values and reading the stream gives back exactly that list if and only if every one fits the cap and nests at most 127 deep. |
| Codec.DeepFrameRefused | codec/src/lib.rs:95-116 | For every n >= 127, n + 1 nested arrays are written in 2n + 2 bytes and refused as `InvalidJson` under any cap that admits them. |
| FrameIo.Read | codec/src/lib.rs:36-44 | A read through any nesting of `BufReader`s, with any chunking, yields a prefix of the unread bytes and leaves the rest, and is empty only if nothing is left. |
| FrameIo.FrameReader.constructor | codec/src/lib.rs:52-60 | A new reader wraps its source in a `BufReader`, between frames, with nothing lost. |
| FrameIo.FrameReader.IntoInner | codec/src/lib.rs:62-70 | The unwrapped reader still holds every unread byte, read-ahead included. |
| FrameIo.FrameReader.Accept | codec/src/lib.rs:87-108 | The handling of one byte: terminator, skip, overflow or push, exactly as the state machine feeds it; at a terminator the line is judged by its bytes. |
| FrameIo.FrameReader.AtNothing | codec/src/lib.rs:80-86 | A zero-byte read ends the stream, reporting an unfinished oversized line once. |
| FrameIo.FrameReader.Next | codec/src/lib.rs:77-110 | The byte loop on the object's fields equals the state machine, however the input is chunked and buffered and wherever the poll stops; a line that arrives whole is judged by its bytes and the reader left right behind it. |
| FrameIo.Sink.WriteAll | codec/src/lib.rs:118-119 | A write lands whole or stops at the byte the sink failed on. |
| FrameIo.WriteFrame | codec/src/lib.rs:113-120 | The sink receives the compact encoding and one newline, or a proper prefix of that and the call fails; a failed flush fails the call too. |
| Pump.MeshErrorIff | cli/src/proxy.rs:156-169 | A frame has a code if and only if it is an object whose `error` has that `code`, one of -32055 and -32054, and whose `error.data.source` is `mcpmesh`; so an ordinary frame has none. |
| Pump.SynthesizedSays | net/src/errors.rs:15-29 | What a synthesized refusal binds, member by member, the marker included. |
| Pump.SynthesizedRecognised | net/src/errors.rs:15-29 | Every refusal the platform synthesizes is recognised exactly for the codes -32055 and -32054, whatever else is beside the marker. |
| Pump.PumpSafety | cli/src/proxy.rs:195-234 | In every reachable state the frames read are a prefix of those deliverable, each output is their encoding or that cut within the last frame, and the control writer has been shut down once if the stdin loop is parked, and not before. |
| Pump.StdinRelayed | cli/src/proxy.rs:197-215 | Once the stdin loop is parked and no write to the control connection failed, that connection has been sent exactly the frames before stdin's first violation, error or end. |
| Pump.NothingAfterShutdown | cli/src/proxy.rs:210-214 | After the half-close nothing is written to the control connection, no second shutdown happens, and stdin is not read again. |
| Pump.ParkedForever | cli/src/proxy.rs:210-215 | The parked loop never does anything again, so it never ends the pump. |
| Pump.HalfCloses | cli/src/proxy.rs:197-215 | On a stdin that ends, every run with enough turns for the stdin loop has half-closed the control connection, unless the pump ended first; by an explicit rank. |
| Pump.PumpConfluence | cli/src/proxy.rs:197-241 | For every interleaving and every failure of the control-side writer, if stdout writes succeed then the final stdout is exactly the frames before control's first violation, error or end, and the returned code is a function of the control stream alone. |
| Pump.PumpCodeIff | cli/src/proxy.rs:156-241 | If stdout writes succeed, the returned code is c if and only if the last frame control delivered is a refusal of the session with code c. |
| Pump.OrdinaryEnd | cli/src/proxy.rs:216-234 | A session whose last frame has no error returns no code, whatever refusals came before. |
| Pump.OpenEndsByViolation | cli/src/proxy.rs:219-234 | While control stays open, the pump ends (stdout working) only because control sent something that is not a frame; never because stdin ended. |
| Pump.EndedStays | cli/src/proxy.rs:235-240 | Once the stdout loop has ended nothing else happens. |
| Pump.StdoutFailureCutsShort | cli/src/proxy.rs:222-227 | A stdout failure loses at most part of the last frame read: none is skipped, reordered or repeated. |
| Pump.CodeOfRelayedIff | cli/src/proxy.rs:180-182 | In every reachable state the noted code is that of the last frame relayed to stdout if and only if no frame is cut there or the cut one does not change the code. |
| Pump.RefusalLost | cli/src/proxy.rs:222-227 | Any refusal that fits, read when stdout is already gone, is returned although nothing was relayed. |
| Pump.RefusalLostExample | cli/src/proxy.rs:180-182 | In particular an unreachable-peer refusal with any message: stdout is empty and the result is -32055. |
| Pump.RankFalls | cli/src/proxy.rs:219-234 | No turn raises the ranking function and every turn that lets the stdout loop progress lowers it. |
| Pump.FairRunsEnd | cli/src/proxy.rs:219-240 | On a control stream that ends, every run with enough such turns has ended. |
| Pump.StdioPump.constructor | cli/src/proxy.rs:183-195 | The pump starts with stdin framed afresh, control's reader as handed over, and both sinks as they are, whatever they have carried before. |
| Pump.StdioPump.WriteToControl | cli/src/proxy.rs:202-204 | A write to the control connection, whole, partial or failing, adds what the state machine adds and nothing else. |
| Pump.StdioPump.WriteToStdout | cli/src/proxy.rs:225-227 | The same for stdout, where a failure ends the loop. |
| Pump.StdioPump.ToControlTurn | cli/src/proxy.rs:197-215 | One turn of the stdin loop on the real readers and sinks is the state machine's. |
| Pump.StdioPump.ToStdoutTurn | cli/src/proxy.rs:219-234 | One turn of the stdout loop on the real readers and sinks is the state machine's. |
| Pump.StdioPump.PumpStdio | cli/src/proxy.rs:183-241 | Under any schedule the object ends up where the state machine does, and returns the stdout loop's code exactly when that loop has ended. |
| Pump.PumpRelays | cli/src/proxy.rs:183-241 | Any finished pump, whatever stdin did, turned its control bytes into the encoding of the frames before the first violation. |
| Pump.RelayExact | cli/src/proxy.rs:183-241 | A pump fed with written frames passes on exactly the longest prefix that fits. |
| Pump.HopsExact | cli/src/proxy.rs:195-234 | Through any number of writer, reader and pump stages a frame list arrives as its longest fitting prefix, so as itself if every frame fits. |
| Messages.HelloIff | local-api/src/protocol.rs:17-29 | A value reads as a hello if and only if it has the three strings and, where it gives a minor version, a 32-bit one (0 if absent), whatever else it has; or is the array of the four. |
| Messages.HelloRoundTrip | local-api/src/protocol.rs:17-29 | A daemon's hello is read back field for field. |
| Messages.UpgradeRequestsWellFormed | local-api/src/client.rs:143-164 | Both upgrade requests are values the codec round trip applies to. |
| Messages.UpgradeRequestsAsk | local-api/src/client.rs:143-164 | The session request names the peer as `peer` and the service as `service`, has an idle timeout if and only if one is given, and nothing else; the stream request is its verb alone. |
| Messages.DaemonIsAskedSession | local-api/src/client.rs:143-150 | From the bytes, a daemon with a sufficient cap reads exactly that request, and what follows is untouched. |
| Messages.DaemonIsAskedStream | local-api/src/client.rs:164-166 | The same for the stream request. |
| Messages.AnswersSay | node/src/control.rs:1658-1664 | What the daemon's success and failure frames bind. |
| ControlApi.AnswersIff | local-api/src/client.rs:103-112 | A reply is the API error of a frame with an `error` key, whatever its value; otherwise the frame's `result`, or null without one; and malformed for a line that is no frame. |
| ControlApi.AnswerShapes | local-api/src/client.rs:103-112 | The daemon's success comes back as the result put into it, its failure as the error. |
| ControlApi.OwnHello | local-api/src/client.rs:1043-1055 | From the bytes, a daemon's own hello is accepted as it is if its api is `mcpmesh-local/1`, and refused by its name otherwise. |
| ControlApi.ControlClient.constructor | local-api/src/client.rs:1056-1060 | The client is the hello with the very reader and writer of the handshake. |
| ControlApi.ControlClient.AwaitReply | local-api/src/client.rs:103-112 | The first outcome owed, and it alone, is consumed and decides the result: `result`, API error, malformed, and on nothing owed closed, I/O error or waiting. |
| ControlApi.ControlClient.RequestValue | local-api/src/client.rs:101-113 | The request is written, then exactly the first outcome owed is consumed and decides the result; if the write fails nothing is read. |
| ControlApi.ControlClient.OpenSession | local-api/src/client.rs:137-151 | The upgrade writes a request for exactly the session named, reads nothing, and hands over the same reader still owing everything. |
| ControlApi.ControlClient.OpenStream | local-api/src/client.rs:160-167 | The same for a stream by its verb. |
| ControlApi.ConnectControlIo | local-api/src/client.rs:1035-1061 | A client exists exactly when the first outcome is a hello for `mcpmesh-local/1`; any other hello is refused by its api, anything else is malformed; the reader is between frames and owes everything behind the hello. |
| ControlApi.Rebox | local-api/src/client.rs:115-120 | Unwrapping the reader and framing it again between frames loses nothing. |
| ControlApi.RpcStepSafe | local-api/src/client.rs:101-113 | Every step of client, daemon and bytes in flight keeps one request at most somewhere on its way; oversized and too deep requests included. |
| ControlApi.ResponsesMatch | local-api/src/protocol.rs:3391-3399 | However the daemon orders completions and the bytes travel, the client never has two requests outstanding and its k-th result is the daemon's answer to its k-th request; a request the daemon cannot read is answered by the parse error. |
| ControlApi.ResultsMatch | local-api/src/protocol.rs:3391-3399 | So the k-th result is the very result, or error, the daemon put into its answer to the k-th request, and malformed if that answer does not fit. |
| Proxy.Upgrade | cli/src/proxy.rs:131-132 | Handshake and session request in a row: the daemon has the request for the peer and service named, and the reader handed over owes everything behind the hello; without a hello nothing is written. |
| Proxy.Session | cli/src/proxy.rs:133-139 | The pump over halves that have been in use adds to what they carried, exactly as its state machine says. |
| Proxy.SessionOutcome | cli/src/proxy.rs:133-139 | An ended pump with stdout intact has drained what the connection owed behind the hello. |
| Proxy.Connect | cli/src/proxy.rs:130-144 | The whole command: the daemon receives the request for the peer and service named and then stdin's frames, stdout receives the frames behind the hello up to the first violation, error or end, and there is a code if and only if the last of them refuses the session. |
| Singleton.StepDaemonSafe | cli/src/daemonshell.rs:21-51 | Every daemon step keeps the invariant: holder of the lock, owner of the socket, history of the path. |
| Singleton.StepSafe | cli/src/client.rs:67-122 | Every step of any caller or daemon keeps the invariant. |
| Singleton.RunSafe | cli/src/daemonshell.rs:21-72 | The invariant holds after every run from every state that has it. |
| Singleton.ReachedSafe | cli/src/daemonshell.rs:21-72 | It holds in every reachable world. |
| Singleton.OneHolder | cli/src/daemonshell.rs:53-72 | At most one process is past the lock in every reachable state, and one that listens has its own socket at the path. |
| Singleton.UnlinkOnlyStale | node/src/ipc.rs:42-46 | When a daemon is about to unlink, whoever made the file there is over. |
| Singleton.HelloFromHolder | node/src/control.rs:204-216 | Whoever writes a hello holds the lock and has come up. |
| Singleton.ConnectedToHolder | cli/src/client.rs:79-92 | A caller returns a client only on the hello of a daemon that came up; at that moment this daemon holds the lock if and only if it is not over yet, and while it serves the socket is its own. |
| Singleton.ConnectedToDeadExample | local-api/src/client.rs:1042-1049 | A run in which the daemon dies between writing its hello and the caller's reading it: the caller has a client and nobody the lock. |
| Singleton.LoserTouchesNothing | cli/src/daemonshell.rs:35-41 | A lock loser exits zero and never removed or made the socket; a daemon that could not try the lock touches it no more, and exits nonzero. |
| Singleton.AddressInUseIffStuck | node/src/daemon/boot.rs:42-54 | At its bind a daemon takes the address-in-use exit if and only if its own removal failed and left a file. |
| Singleton.AddressInUseNeedsStuckFile | node/src/daemon/boot.rs:42-43 | While removals work that arm is dead on unix, as documented. |
| Singleton.AddressInUseExample | local-api/src/transport/unix.rs:75-78 | A run in which it is taken: exit zero with nobody holding the lock. |
| Singleton.ChildBlamedOnlyForFailure | cli/src/client.rs:94-103 | A caller fails on its child only if that child is over with a nonzero status, never for a lost race. |
| Singleton.FlockDecides | cli/src/daemonshell.rs:58-72 | A contender gets the lock if and only if nobody holds it; otherwise it is over as a loser. |
| Singleton.ProbeDecides | cli/src/client.rs:77-82 | The first probe finds the daemon that accepts, if and only if there is one, and then nothing is spawned; otherwise the caller spawns. |
| Singleton.SpawnAddsOne | cli/src/client.rs:82-82 | A spawn adds one daemon, the caller's child, and touches neither lock nor socket. |
| Singleton.ChildNoticed | cli/src/client.rs:94-103 | A polling caller gives up on its child if and only if that ended by an error at the lock, the bind or boot, a crash, or a failed run; after a lost race or a clean end it polls on. |
| Singleton.HolderFails | node/src/daemon/boot.rs:45-56 | A holder that fails at bind or boot, or dies, ends nonzero with the lock free and the socket path as it was. |
| Singleton.EndsAs | cli/src/daemonshell.rs:21-72 | A lock error is a failure that leaves the lock alone; a stopped daemon exits with its run's status and frees the lock. |
| Singleton.CallerDecides | cli/src/client.rs:79-121 | A caller is connected to the daemon whose hello it reads, and meets the failure of its own step. |
| Convergence.RankFalls | cli/src/client.rs:83-87 | While nothing fails, crashes or is shut down, no step of anybody raises an explicit rank, and every next step of the lock's holder, of a contender for a free lock, or of the caller itself lowers it. |
| Convergence.FairRunsSettle | cli/src/client.rs:83-87 | From every safe world, every such run with enough of these steps has a daemon serving under the lock, and the caller connected or given up. |
| Convergence.FairRunsConnect | cli/src/client.rs:84-87 | ... and connected, if nothing makes it give up: its spawn works, it has time, its child is not blamed. |
| Convergence.StalledIff | cli/src/client.rs:94-104 | Such a step exists in every reachable world that has not settled, except exactly when nobody holds or contends for the lock and the caller only waits. |
| Convergence.Recovery | cli/src/daemonshell.rs:22-26 | Whatever crashed and left its socket behind: from every reachable world every caller that has not given up can still be connected to a serving holder of the lock. |
| Autostart.SleptClosedForm | cli/src/client.rs:88-118 | The sleeps add up to 20, 60, 140 and then 200k - 500 ms. |
| Autostart.PollBound | cli/src/client.rs:88-121 | Any polls that went on within the deadline number fewer than timeout/200 + 4.5. |
| Autostart.EnsureDaemon | cli/src/client.rs:67-122 | The loop reaches the decided outcome, spawns once at most and not when the probe connects, sleeps exactly min(20 * 2^k, 200) ms, and is bounded by the deadline. |
| Paths.OverTimes | local-api/src/paths.rs:165-165 | The FNV prime has an inverse modulo 2^64, so the wrapping product is undone. |
| Paths.RoundInjective | local-api/src/paths.rs:163-166 | One round merges neither two accumulators nor two bytes. |
| Paths.FoldInjectiveInStart | local-api/src/paths.rs:163-166 | Over the same bytes, different accumulators stay different. |
| Paths.OneByteApart | local-api/src/paths.rs:161-166 | Inputs of one length differing in exactly one byte never share the 64-bit accumulator. |
| Paths.Fnv8 | local-api/src/paths.rs:161-168 | The loop computes the fold over the string's bytes and prints its two halves xored. |
| Paths.KnownAccumulators | local-api/src/paths.rs:161-166 | The published 64-bit values for the empty string and for `a`. |
| Paths.KnownTwoBytes | local-api/src/paths.rs:163-166 | A character of two UTF-8 bytes goes in as those bytes. |
| Paths.KnownNames | local-api/src/paths.rs:167-167 | The two halves are folded by xor: 4fd0bfc1 for the empty string, 296230c0 for `a`. |
| Paths.Fnv8Shape | local-api/src/paths.rs:167-167 | The name is always 8 lowercase hex digits, and they spell the folded accumulator. |
| Paths.HexReadsBack | local-api/src/paths.rs:167-167 | Zero-padded hex loses nothing of a number that fits the width. |
| Paths.JoinLength | local-api/src/paths.rs:58-63 | A join adds the name's bytes and one separator unless there is one. |
| Paths.FallbackLength | local-api/src/paths.rs:57-65 | The fallback socket path is the temp directory, its separator and 29 bytes, whatever the root. |
| Paths.NaturalIff | local-api/src/paths.rs:57-65 | The root's own `run` directory is chosen if and only if its socket path is within the limit. |
| Paths.FallbackIff | local-api/src/paths.rs:57-65 | Otherwise it is `mcpmesh-` and the 8 hex digits of the root's hash, in the temp directory. |
| Paths.ShallowRootExample | local-api/src/paths.rs:421-425 | `/tmp/p` gives `/tmp/p/run`, with a trailing slash too. |
| Paths.SocketFitsIff | local-api/src/paths.rs:53-65 | The socket path is bindable if and only if the natural one is or the temp directory leaves room for 29 bytes and its separator. |
| Paths.SocketFits | local-api/src/paths.rs:53-65 | A temp directory at least 30 bytes shorter than the limit always suffices. |
| Paths.ShortTempDirAlwaysFits | local-api/src/paths.rs:9-25 | A temp directory of at most 77 bytes, or 73 on macOS and the BSDs, serves every profile root. |
| Paths.DeepTempDirExample | local-api/src/paths.rs:53-56 | A deep root with a deep temp directory still yields a path no `bind` accepts. |
| Enroll.SlugOf | cli/src/enrollcmd.rs:31-47 | The loop with its dash flag and the trailing trim computes the declarative slug: lowercased alphanumeric runs joined by dashes, or `user`. |
| Enroll.WordsAreWords | cli/src/enrollcmd.rs:34-37 | The runs are non-empty and hold only lowercase letters and digits. |
| Enroll.WordsKeepLetters | cli/src/enrollcmd.rs:34-37 | Together the runs are all the name's ASCII letters and digits, in order. |
| Enroll.WordsOfDashed | cli/src/enrollcmd.rs:29-30 | Reading joined runs back gives the runs. |
| Enroll.SlugProperties | cli/src/enrollcmd.rs:29-47 | A slug is non-empty, starts and ends with a letter or digit, never doubles a dash, keeps the name's letters and digits, and slugs to itself. |
| Enroll.Alphabet | cli/src/enrollcmd.rs:35-37 | Each capital becomes the letter at its place in the alphabet, everything else stays; letters and digits are the ASCII ones. |
| Enroll.WordsAreRuns | cli/src/enrollcmd.rs:29-42 | A maximal run of letters and digits anywhere in a name is one word, lowercased, between the words before it and those after it. |
| Enroll.NoWords | cli/src/enrollcmd.rs:43-46 | A name without a letter or digit gives `user`. |
| Enroll.TwoWords | cli/src/enrollcmd.rs:29-30 | Whatever stands between two words becomes one dash. |
| ClientConfig.SplitTargetIff | cli/src/proxy.rs:30-42 | `peer/service` splits back into the pair if and only if the peer is non-empty without a slash and the service non-empty. |
| ClientConfig.SplitTargetExact | cli/src/proxy.rs:30-42 | The result is a pair if and only if the argument is that pair around its first slash, neither half empty; for any other argument there is none. |
| ClientConfig.EntryText | cli/src/proxy.rs:52-56 | The rendered entry is the quoted name, a colon, and an object text in conventional key order. |
| ClientConfig.ReadEntry | cli/src/proxy.rs:44-56 | Any entry, wherever it stands in a block, is read as its name bound to its connect command. |
| ClientConfig.PastedParses | cli/src/proxy.rs:108-113 | The comma-joined block between braces parses to the object of its mounts. |
| ClientConfig.BlockParses | cli/src/proxy.rs:108-113 | The pasted block is valid JSON whatever the names hold, and maps each `peer-service` to its connect command and nothing else. |
| ClientConfig.BlockRoundTrip | cli/src/proxy.rs:30-56 | What `connect` makes of the argument in the parsed block is the original pair if and only if the peer is non-empty without a slash and the service non-empty. |
| ClientConfig.CommandReads | cli/src/proxy.rs:44-56 | The mounted command is `mcpmesh connect <peer>/<service>`. |
| ClientConfig.ClientInstructionLines | cli/src/proxy.rs:87-120 | The two loops push the whole block in order, the last entry alone without a comma; no services, no lines. |
| ClientConfig.ShownCommands | cli/src/proxy.rs:99-119 | Each service's line ends in a command whose target `connect` takes back to the pair, if and only if the names allow it; the last line's is the first service's. |
| ClientConfig.ShownBlock | cli/src/proxy.rs:104-113 | The lines to paste are those between the restart sentence and the last two, and they survive the whole chain. |
| Reachability.IgnoreAny | local-api/src/protocol.rs:267-284 | Ignoring a value consumes exactly its tokens, whatever its nesting. |
| Reachability.DrainItems | local-api/src/protocol.rs:278-284 | The sequence hook stops exactly behind the array. |
| Reachability.DrainMembers | local-api/src/protocol.rs:267-276 | The map hook stops exactly behind the object. |
| Reachability.Deserialize | local-api/src/protocol.rs:213-289 | Any value at all is read, exactly its tokens are consumed, and only the two names give a confident attribution. |
| Reachability.SourceRoundTrip | local-api/src/protocol.rs:181-234 | Reading inverts serialization, through the wire encoding too, and only `"probe"` and `"session"` are read as those producers. |
| Reachability.ReadSource | local-api/src/protocol.rs:201-212 | Whatever stands in the `source` position, and with no such member at all, the reader comes out exactly behind the frame with the right attribution. |
| Reachability.FieldIff | local-api/src/protocol.rs:193-198 | A frame with the member has the producer it reads as; a frame without it, `Unknown`. |

## Left out

- Real sockets, named pipes, tokio's scheduler and process spawning: a stream is the bytes it will deliver and how it
  ends, a poll is how many of them it finds, time is a virtual clock.
- Float arithmetic and formatting: a number outside the i64/u64 range or with a fraction or exponent is its own lexeme,
  printed back as read; literals that overflow to infinity are accepted by the model and refused by the program.
- Allocation limits, and the wording of every error message.
- FrameIo.FrameReader.Next: an I/O error is a permanent end of the raw stream; a source that fails once and then
  delivers again, or delivers again after reporting its end, is not modelled.
- `pump_stdio`'s final `stdout.shutdown()`, whose result it ignores.
- `run` and `acquire_singleton_lock` are steps of the `Singleton` protocol on values, not methods: what their
  statements do one after the other is the order in which a daemon's steps are enabled.
- Singleton.OneHolder: the kernel's own guarantee, that a flock has one holder and is dropped with its process, is
  part of the model and not proved; a socket file that another program puts at the path is not modelled.
- A `bind_uds` whose final chmod fails is a failed boot: the socket file exists and the daemon exits nonzero.
- A caller's hang in a handshake with a daemon that accepts but never says hello: the program sets no timeout
  there either, so `Autostart` gives every connection attempt a finite duration.
- Autostart.EnsureDaemon: attempts, spawn and child status are inputs; that they come from one shared world of daemons is the
  subject of `Singleton`.
- ControlApi.ResponsesMatch: it is about completed calls on a daemon that answers each request once, so not about the
  requests that end the phase (`open_session`, `subscribe`, `shutdown`); a `request_value` future dropped half-way can
  leave a reply unread, and a closing daemon is covered by `ControlClient.RequestValue` alone.
- Reachability.ReadSource: the frame's other members are skipped where the program decodes them.
- The typed request helpers and `StreamSubscription`, which are `request_value` or `next` followed by a derived decode, and
  every derived decoder but the hello's.
- `split_csv`, `autostart_failure_message`, the Windows pipe name and the Windows singleton: single-expression code or another
  platform.
- Where Claude Desktop keeps its configuration file: a parameter of `ClientInstructionLines`.
- Peer-uid checks, permissions and the runtime directory's hardening.
- Paths whose bytes are not UTF-8, which the source hashes after a lossy conversion.
