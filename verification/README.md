# A verified model of the Rancher host agent's protocols

The host agent answers requests that arrive as messages over a websocket: it streams container
logs and statistics, proxies HTTP and raw sockets, runs commands in containers, and forwards Docker
events to Rancher. This project models the parts of it that are protocols and proves what they keep.

| file | models |
|---|---|
| `Positions.dfy` | which elements of a sequence are picked, and where they stand |
| `Framing.dfy` | byte strings; `bufio.Scanner` with a separator split function, and line by line |
| `LogFraming.dfy` | the log writers, the pipe and the log scanner loop (`logs/`) |
| `LogSession.dfy` | the goroutines of the log handler, as a machine over all interleavings (`logs/logs.go`) |
| `HttpStream.dfy` | `HttpWriter` and `HttpReader` (`proxy/io.go`) |
| `HttpProxy.dfy` | the plain request path of the proxy (`proxy/proxy.go`) |
| `Hijack.dfy` | the hijacked request path, as a machine over all interleavings (`proxy/proxy.go`) |
| `Events.dfy` | one Docker event and the handler that sends it to Rancher (`events/`) |
| `EventPool.dfy` | the event router, its worker pool and the startup replay, as a machine over all interleavings (`events/`) |
| `Relay.dfy` | the two base64 relays (`dockersocketproxy/`, `exec/`) |
| `Stats.dfy` | lockstep statistics rounds for many containers (`stats/`) |
| `Haproxy.dfy` | the HAProxy statistics table (`pkg/haproxy/`) |

`dafny verify dfyconfig.toml` checks the whole project.

Stateful readers, writers, scanners and loops are classes and methods; concurrent protocols are step
relations over a state in which each goroutine, channel and outside party moves one atomic action at
a time, and their theorems are about every state of every run. JSON, base64, the Docker and Rancher
clients, the remote ends of connections and the clock are parameters or free choices of a step. A
channel is the sequence of what it still holds; a receive on an open empty channel has no step.

What the proofs bring to light about the code as it is:

- A log message survives the trip if and only if it does not contain `[RANLOGS]` and, framed, is at
  most 64 KiB long (`LogRoundTrip`). A longer one stops the scanner, and the handler then hangs in its write
  until the client goes (`TooLongHangs`). A statistics round of 64 KiB or
  more ends the statistics stream in the same way (`RoundsAreMessages`).
- When the log pipe is closed in the middle of a frame, the client gets one more message that may end
  in a part of the separator (`TruncatedLog`).
- The log handler's closed signal is its last message if and only if the scanner goroutine is quiet when
  it is sent (`ClosedIsLastIffQuiet`); every printable message can come after it (`BodyAfterClosed`).
- A reader that stops at the first end-of-stream result gets the whole stream if and only if the body
  that comes with the end-of-stream mark fits its last buffer (`ReadAll`). `HttpWriter` sends that mark
  with an empty body.
- A hijacked request whose first body is shorter than its declared length is sent with zeros appended
  (`InitialContent`).
- The hijacked handler can hang after the client has gone, because a write on the connection has no
  deadline (`HangingRun`). It waits for the remote end if and only if a chunk is not taken and the other
  direction has nothing to send (`StuckIffHanging`).
- The Docker client closes the listener at the end of its event stream. The router then dispatches nil
  events for ever; the program comes to rest if and only if the listener stays open (`StuckIffDrained`).
  The startup replay panics if it is still sending (`ReplayPanics`); it can return if and only if the
  listener is open or all its events are sent (`ReplayReturnsIff`).
- The lock key `Status + ID` identifies its parts if and only if no registered status is a prefix of
  another (`KeysIdentifyIffPrefixFree`); the five statuses of the handler table are.

## Model

| member | source | states |
|---|---|---|
| Framing.SplitFindsNext | logs/logs.go:116-130 | what the split function finds in the buffered part of a stream is the next token of the whole stream, or nothing yet; a full buffer of the largest size without a separator means that the next token is too long |
| Framing.SplitMeans | logs/logs.go:116-130 | a call takes off the bytes before the first separator together with it; without a separator, all that is left at the end of the stream, and nothing before the end |
| Framing.Scanner.Scan | logs/logs.go:95-98 | one call returns the next token of the remaining stream, its end, or the too-long error, whichever the whole stream demands, however the stream is cut into reads |
| Framing.ScanAll | logs/logs.go:98-109 | the scanner loop emits a function of the concatenated reads only, and fails if and only if that stream has a token that is too long |
| Framing.NoStraddle | logs/log_wrapper.go:7-8 | behind a message without the separator, the first separator of the stream is the one that ends the message: no occurrence straddles its end |
| Framing.TokensAreSeparatorFree | logs/logs.go:121-123 | for every stream, no token contains the separator |
| Framing.FrameOfTokens | logs/logs.go:116-130 | for every stream, joining the tokens with separators restores it up to one final separator |
| Framing.EmittedIsTokens | logs/logs.go:98-109 | the scanner emits a prefix of the tokens of the whole stream, and all of them if and only if it does not fail |
| Framing.StopsAtFirstTooBig | logs/logs.go:98-109 | the scanner fails if and only if the stream has a token that does not fit its largest buffer, and it stops exactly before the first such token |
| Framing.EmittedOfFrames | logs/logs.go:98-109 | in front of any stream, frames without the separator are emitted one by one and the rest is scanned as if they were not there, unless one of them does not fit and the scanner fails |
| Framing.FrameRoundTrip | logs/logs.go:95-106 | framed tokens come back exactly and without an error if and only if none contains the separator and each fits the largest buffer with its separator |
| Framing.TruncatedFrames | logs/logs.go:85-93 | a stream of frames cut anywhere yields the complete frames and at most one proper prefix of the next frame |
| LogFraming.Append | logs/log_wrapper.go:27-28 | appending, in place or in a grown array of any size, yields the old content followed by the new and leaves the appended-to slice's content alone |
| LogFraming.Pipe.Write | logs/log_wrapper.go:29 | a write hands over all of its bytes, or as many as the reader takes before it closes |
| LogFraming.WrapMessage | logs/log_wrapper.go:26-31 | for any spare capacity of the shared prefix, the pipe gets tag, message and separator, the prefix keeps its bytes, and a full write reports the length of the message |
| LogFraming.LogWriters.Write | logs/log_wrapper.go:33-43 | each of the three writers frames with its own tag and keeps all three prefixes intact |
| LogFraming.LogWriters.WriteLog | logs/log_wrapper.go:33-43 | a whole log through shared prefixes is the framed log, up to the point where the pipe closes |
| LogFraming.TagIsTransparent | logs/log_wrapper.go:11-13 | a tag neither hides nor makes an occurrence of the separator |
| LogFraming.ForwardLog | logs/logs.go:95-109 | one body message per token of the whole stream, in order, for every cutting of the stream |
| LogFraming.LogRoundTrip | logs/logs.go:116-130 | the handler emits exactly tag and message for every message, in order and without an error, if and only if every message is free of the separator and small enough |
| LogFraming.TaggedIdentifies | logs/log_wrapper.go:11-13 | what is emitted for a log identifies it: every text, and the stream it came from |
| LogFraming.TruncatedLog | logs/logs.go:85-93 | when the pipe closes after any number of bytes, the messages that got through are emitted and then at most one partial frame |
| LogFraming.DeliverLog | logs/logs.go:61-113 | writers, pipe and scanner together deliver a printable log message by message |
| LogSession.StepInv | logs/logs.go:85-113 | every step of the handler, the closing goroutine and the scanner goroutine keeps the invariant |
| LogSession.SentIsBeginning | logs/logs.go:95-106 | at every moment of every run the messages sent are the first messages of the stream, whatever may still follow in it, and the scanner has read the beginning of what was written |
| LogSession.StoppedIsComplete | logs/logs.go:95-110 | a scanner that has stopped has sent exactly the messages of what it has read, and has failed if and only if one of them is too long |
| LogSession.SessionOfLog | logs/logs.go:61-113 | for every printable log and at every moment of every run, the messages sent are the first messages of the log, tag and text, and then at most one proper prefix of the next frame; a scanner that has stopped has done so without an error and has sent all it has read |
| LogSession.ReadInFull | logs/logs.go:95-113 | while the pipe is open, the handler ends only when all that was written has been read; a scanner that waits for the pipe has no separator left in its buffer |
| LogSession.StuckIffAtRest | logs/logs.go:85-113 | until the client goes, no step is possible if and only if the scanner waits on an open pipe for a handler that is done, or has stopped and the handler is done or hangs in a write |
| LogSession.SessionBound | logs/logs.go:85-113 | a run has no more steps than a number fixed by the writes |
| LogSession.SessionDelivers | logs/logs.go:61-113 | a session over a printable log that has no step left has signalled its end, and unless the client has gone it has sent exactly the log, message by message |
| LogSession.TooLongHangs | logs/logs.go:95-113 | for every message that is too long, a run in which the scanner has stopped with nothing sent and the handler waits in its write for the client to go |
| LogSession.ClosedOnce | logs/logs.go:26-106 | in every run the response is one body message per text, and the closed signal once, when the handler has sent it |
| LogSession.ClosedIsLastIffQuiet | logs/logs.go:26-113 | no message can follow the closed signal if and only if the scanner has stopped, or holds neither a message nor the makings of one |
| LogSession.BodyAfterClosed | logs/logs.go:26-113 | for every printable message, a run in which its frame is written, the handler signals that it is closed, and the message follows |
| Lines.ScanLines | stats/container_stats.go:80-93 | the line scanner loop yields the lines of the whole stream, for every cutting |
| Lines.LinesRoundTrip | stats/container_stats.go:80-93 | printed lines come back unchanged and without an error if and only if each is newline-free, does not end in a carriage return and is shorter than 64 KiB |
| Lines.DropsOneCR | stats/container_stats.go:80-93 | of lines that end in carriage return and newline exactly these two are dropped, whatever the lines end in |
| HttpStream.HttpWriter.Write | proxy/io.go:18-24 | sends the pending message with the bytes as its body and resets the pending message |
| HttpStream.HttpWriter.WriteMessage | proxy/io.go:26-40 | sends the pending message once and resets it |
| HttpStream.HttpWriter.Close | proxy/io.go:42-45 | sends the pending message with the end-of-stream mark |
| HttpStream.HttpWriter.Copy | proxy/proxy.go:182-185 | copying a source sends body-only, non-empty messages whose bodies are the bytes of the source |
| HttpStream.HttpReader.ReadMessage | proxy/io.go:78-95 | receives one message, or reports the closed channel or the malformed message |
| HttpStream.HttpReader.Read | proxy/io.go:59-76 | fills the beginning of the caller's buffer with the bytes the specification delivers and leaves the rest of the buffer alone |
| HttpStream.ReadReports | proxy/io.go:59-95 | a call with bytes buffered, or after the end mark, takes no message; any other takes one, reports and drops a malformed one, and delivers as much of the body as fits; the end is reported exactly after the mark or on a closed channel |
| HttpStream.ReadConserves | proxy/io.go:59-76 | delivered bytes and undelivered bytes add up in every call; what an end-of-stream result leaves behind is exactly the buffered rest, empty if and only if the available bytes fit |
| HttpStream.ReadsConserve | proxy/io.go:59-95 | the same over every series of calls with any sizes, past malformed messages and past the end |
| HttpStream.EofBodyAhead | proxy/io.go:66-71 | the body that comes with the end-of-stream mark is delivered last, by the call that reports the end, and is cut at the size of its buffer |
| HttpStream.ReadAll | proxy/io.go:59-95 | reading until the first error delivers the whole stream if and only if the end-of-stream body fits the last buffer, and otherwise misses exactly its tail |
| HttpStream.WrittenStream | proxy/io.go:18-45 | the messages of any writes and a close carry the written bytes, and the end-of-stream message is empty |
| HttpStream.WriteAll | proxy/io.go:18-45 | any writes and a close send one message per write and an end-of-stream message, the first one carrying the pending fields |
| HttpStream.RoundTrip | proxy/io.go:18-95 | any writes and a close, read back with any positive buffer sizes until the end, give exactly the written bytes |
| HttpProxy.DoHttp | proxy/proxy.go:135-186 | with an upstream response: one message with code and headers and no body, body-only messages with the upstream bytes, one empty end-of-stream message; otherwise nothing |
| HttpProxy.Handle | proxy/proxy.go:24-41 | a request that is not hijacked gets a response that ends with the closed signal, and nothing but the closed signal on every failing path |
| HttpProxy.HttpResponseReadBack | proxy/proxy.go:163-185 | the end-of-stream mark appears exactly once, last, and an `HttpReader` gets exactly the upstream bytes out of the messages |
| Hijack.StepInv | proxy/proxy.go:99-120 | every step of either goroutine, the client or the remote end keeps the invariant |
| Hijack.ShutdownProtocol | proxy/proxy.go:99-120 | at every moment of every run the response is body-only messages, then at most one end-of-stream message, then at most the closed signal; when the handler has returned it carries all bytes read, and the incoming channel is closed and drained |
| Hijack.OwnStepsDescend | proxy/proxy.go:102-120 | every step of the two goroutines lowers a measure |
| Hijack.StepsAfterClose | proxy/proxy.go:99-121 | once the incoming channel is closed, any path has at most as many steps as that measure and two for every step of the remote end |
| Hijack.StuckIffNothingToDo | proxy/proxy.go:99-121 | in every reachable state each of the two goroutines has no step if and only if it has nothing to do; one that waits for the client has forwarded all the client's bytes |
| Hijack.StuckIffHanging | proxy/proxy.go:102-120 | once the incoming channel is closed and until the handler has returned, no step that waits for nobody is possible if and only if a write on the connection waits for the remote end and the other direction is reading the connection or waiting for the first |
| Hijack.HangingRun | proxy/proxy.go:104-120 | a run that ends hanging: the client has gone, the end-of-stream message is sent, and only the remote end, by taking or refusing the chunk, can free the handler |
| Hijack.StopsOnlyIf | proxy/proxy.go:102-107 | copying to the connection stops only at a refused write, a malformed message, or the end of the stream, which is the end mark or the closed channel |
| Hijack.ForwardedBytes | proxy/proxy.go:102-107 | the connection only ever gets a prefix of the client's bytes; when copying has stopped on well-formed messages and without a refused write, it has all of them if and only if the end-of-stream body fits the copy buffer |
| Hijack.ResponseEndsOnlyIf | proxy/proxy.go:116-118 | the response is cut short only by the remote end, or after the client has closed the channel |
| Hijack.ChunkIsSent | proxy/proxy.go:116 | every chunk the remote end sends becomes one message of the response, in its place |
| Hijack.InitialContent | proxy/proxy.go:86-92 | a declared length that does not parse ends the request, without a positive one nothing is read; otherwise the request body and what the reader still holds are the client's bytes if and only if the available body is at least as long as declared, and zeros fill it up if not |
| Hijack.HijackedRequestBytes | proxy/proxy.go:74-107 | when copying has stopped on well-formed messages and without a refused write, request body followed by forwarded bytes equals the client's stream, nothing lost, repeated or reordered, if and only if the end-of-stream body fits the copy buffer |
| EventHandling.Locker.Lock | vendor/github.com/rancher/event-subscriber/locks/locks.go:92-107 | a try-lock on a set of keys |
| EventHandling.Locker.Unlock | vendor/github.com/rancher/event-subscriber/locks/locks.go:84-107 | frees exactly its key |
| EventHandling.Handle | events/send_to_rancher_handler.go:16-55 | every exit path leaves the locks as it found them; an event is skipped exactly if simulated, suppressed exactly if its key is held, and sent if and only if neither and the inspection did not fail, with its own data and the inspection unless the container is gone |
| EventHandling.GetHandlers | events/entry.go:76-95 | with a Rancher client one handler for each of the five statuses, without one none |
| EventHandling.KeysIdentifyIffPrefixFree | events/send_to_rancher_handler.go:23-24 | the lock key identifies status and container if and only if the statuses are prefix-free |
| EventHandling.HandledPrefixFree | events/entry.go:87-91 | the five handled statuses are prefix-free |
| EventPool.NewEventRouter | events/event_router.go:23-39 | the router starts with one idle token per worker and empty channels, and none of its sends to the worker channel waits |
| EventPool.StepInv | events/event_router.go:60-92 | every step keeps tokens, order, jobs, locks and replay consistent |
| EventPool.TokenConservation | events/event_router.go:25-28 | in every run the idle tokens and the calls under way make up the pool, so at most `pool` calls are under way, and giving a token back never waits |
| EventPool.ExactlyOnceDispatch | events/event_router.go:60-75 | in every run job `k`, or the event held, or a buffered one, is accepted event number `k`; behind them only the nils of a closed listener |
| EventPool.EveryHandlerOnce | events/event_router.go:79-92 | in every run a finished call has called every handler registered for its event's status once, and none without one |
| EventPool.EveryEventIsHandled | events/event_router.go:60-92 | an event put on the listener at any step is the event of one fixed call, which exists once the open listener is empty and the router receives; when it has finished, every handler of the status has been called once |
| EventPool.StepsDescend | events/event_router.go:60-92 | with an open listener every step of the program, a timeout included, lowers a measure |
| EventPool.DrainBound | events/event_router.go:60-92 | the program takes at most that many steps before it waits for a new event |
| EventPool.StuckIffDrained | events/event_router.go:60-92 | with at least one worker, the program has no step left if and only if all accepted events are processed and the listener is open; then all tokens are idle and no key is locked |
| EventPool.EmptyPoolIsStuck | events/event_router.go:65-73 | without workers nothing is ever dispatched |
| EventPool.SendExclusion | events/send_to_rancher_handler.go:23-29 | at most one call per status and container is under way, and a key is locked exactly while its call is |
| EventPool.SuppressedOnlyByTwin | events/send_to_rancher_handler.go:24-28 | with prefix-free statuses, an event is suppressed only while another event of the same status and container is under way |
| EventPool.HandledSuppressedOnlyByTwin | events/entry.go:76-95 | so for every handler table over the five handled statuses |
| EventPool.WhatIsSent | events/send_to_rancher_handler.go:19-52 | a simulated event never causes a create call; every create call carries its own event's data |
| EventPool.StartupReplay | events/entry.go:61-69 | at every moment of every run, a panic of the replay included, the replayed events are one start event for each of the first listed containers, marked as simulated, in list order, whatever live events came in between; for all of them when `Process` has returned |
| EventPool.ReplayPanics | events/entry.go:61-68 | with any container listed, a run in which the listener is closed before the replay sends, and the send panics |
| EventPool.ReplayReturnsIff | events/entry.go:61-69 | with at least one worker, a replay that is under way can still return if and only if the listener is open or all its events are sent |
| EventPool.HandlerCallRefines | events/send_to_rancher_handler.go:16-55 | the steps of one handler call, without interference, end as the sequential handler does |
| Relay.ValidPrefix | dockersocketproxy/proxy.go:46-56 | the longest prefix of messages that decode |
| Relay.SocketForward | dockersocketproxy/proxy.go:46-61 | the socket gets the decoding of every message before the first undecodable one, in order; or, at a failing write, that of the messages before it and some beginning of the message it failed on |
| Relay.ExecForward | exec/exec.go:52-69 | the command gets the decoding of all decodable messages and no others, in order, and the end-of-transmission byte exactly when the channel closes |
| Relay.SocketIsPrefixOfExec | dockersocketproxy/proxy.go:51-60 | wherever a write fails, the socket relay forwards a prefix of what the exec relay forwards; if no write fails, all of it if and only if the messages it drops carry nothing |
| Relay.DecodeEncoded | exec/exec.go:62-67 | encoded chunks decode to their concatenation |
| Relay.SocketReadLoop | dockersocketproxy/proxy.go:64-82 | the bodies all decode, none to nothing, and together to the bytes of all reads before the failing one; bytes that come with the error are dropped |
| Relay.ExecReadLoop | exec/exec.go:71-88 | the bodies all decode, none to nothing, and together to the bytes of all reads, those of the failing one included |
| Relay.RelayRoundTrip | dockersocketproxy/proxy.go:46-82 | read loop and forwarder back to back restore the bytes |
| Stats.StatsReader.ReadString | stats/common.go:251 | the next complete line, or an error |
| Stats.GetContainerInfo | stats/common.go:246-264 | the next `count` lines as samples in order, or an error if and only if one is missing or does not parse; the reader then has what comes after that line |
| Stats.GetAllDockerContainers | stats/get_stats.go:76-86 | all readers advance together and row `j` has identifier and samples of container `j`; or there is no result, the readers before the failing one have advanced, and those behind it have not |
| Stats.ConvertToAggregatedStats | stats/aggregated_stats.go:17-34 | one list with one row per container, labelled with the given identifier or the one the token maps the container to; nothing without containers |
| Stats.WriteAggregatedStats | stats/aggregated_stats.go:36-55 | one document and one newline per round |
| Stats.Stamp | stats/container_stats.go:178-182 | overwrites the time of the first sample of every container and nothing else |
| Stats.WriteRound | stats/container_stats.go:177-186 | a round of samples is written as the document of its stamped and labelled rows |
| Stats.Round | stats/container_stats.go:170-189 | a round writes the document of its rows; a failing round writes nothing and leaves the readers out of step by one line |
| Stats.RunRounds | stats/container_stats.go:170-189 | the writer gets exactly the documents of the `done` rounds before the first failing one; without a failure every reader has consumed `done` lines, with one the readers before the failing reader have consumed `done + 1` and those behind it `done` |
| Stats.BuildLists | stats/container_stats.go:148-169 | readers, identifiers and pids stay aligned; the identifiers are exactly the listed containers the token names, at increasing positions of the list; the method fails if and only if one of those cannot be inspected or streamed |
| Stats.RoundsAreMessages | stats/container_stats.go:80-90 | every written round is exactly one message, without an error, if and only if every document is shorter than 64 KiB |
| Stats.StatsMessages | stats/container_stats.go:80-189 | message `r` is the document of round `r` |
| Haproxy.SplitJoin | pkg/haproxy/haproxy.go:39 | splitting at commas undoes joining fields without commas |
| Haproxy.JoinSplit | pkg/haproxy/haproxy.go:39 | joining undoes splitting, for every line |
| Haproxy.ParseRow | pkg/haproxy/haproxy.go:39-48 | the map of a row under the header, the last of several columns with one key; or a panic if and only if the row is longer than the header |
| Haproxy.ParseStats | pkg/haproxy/haproxy.go:28-53 | an error without a header; otherwise one map for each line that is not empty, at increasing positions and for no other, or a panic if and only if one of them is longer than the header |
| Haproxy.ParsePrinted | pkg/haproxy/haproxy.go:28-53 | parsing a table whose rows stand in order behind the header among empty lines gives exactly its rows |
| Haproxy.ReadTable | pkg/haproxy/haproxy.go:56-75 | the same for the table read from the socket in any pieces |

## Left out

- Token and JWT checks, configuration, flags and key loading (`auth/`, `config/`): library calls and single branches.
- Connection set-up and retries (`main.go`, `util/`, `events/client.go`): no invariant beyond a retry bound.
- `console/console.go`: the relay of `dockersocketproxy/proxy.go` again.
- Host statistics, statistics of a single container and the copying of fields in `convertDockerStats`: repeated loop shapes and easy members; converting a line is a parameter of the statistics model, including the network counters it reads.
- Order between the closed signal and the last body messages in `exec/exec.go`: the situation of `logs/logs.go` again.
- Marshalling errors in `HttpWriter`: an HTTP message has no value that fails to marshal.
- Short writes reported by `wrapMessage` below zero: the count is stated, but only a full write is given a meaning.
- Simultaneous appends to one prefix slice by several requests: the framing results are for writes that do not overlap.
- `EventRouter.Stop` and the internals of the Docker client's event monitor, beyond its sends to the listener and its closing of it.
- Handlers other than `SendToRancherHandler`: the pool model counts handlers per status and gives each the steps of that one.
- A response channel that is full: sends of response messages are never blocked in the model.
