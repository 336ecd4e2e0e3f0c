# The networking engine of FrontServer, in Dafny

FrontServer talks to its clients through a networking engine that lives under `FrontServer/include/uWebsockets`. This
project models that engine and proves what it is for. `dafny verify dfyconfig.toml` checks all of it.

Code that changes things step by step is written as methods on arrays and classes, as in the engine. Each such method
is tied to a definition that says what it should do, and the promises are proved about those definitions. What comes
into the program or leaves it is measured a second time, against readers and writers of their own that are written
down from the standards, in numbers and characters: for frames, close codes, requests, responses, URLs, patterns,
base64 and UTF-8.

**WebSocket receive path** (`Bytes`, `Unmasking`, `Utf8`, `Frames`, `FrameFormat`, `ReceiveSpec`, `ReceiveLemmas`,
`WebSocketReceive`, `RoundTrip`, `Lifecycle`; `FrameReading`, `ReceiveMeaning`, `Utf8Meaning`). The reference is an
automaton that takes one octet at a time. The parser, with its spill buffer, opcode stack, rotating key, overlapping
in-place unmasking and shared reassembly buffer, is proved to do in place, chunk by chunk, what the automaton does
octet by octet. That makes the result independent of how TCP cuts the stream. A second, independent account goes
message by message, for frames that conform to section 5.4 of RFC 6455, and gives the round trip. User handlers are a
parameter: they may carry on, close the socket, or end the session, depending on everything reported so far. A third
account, `ReceiveMeaning`, tells in numbers what any octets whatsoever lead to, conforming or not, and so what every
close code is reported as (`CloseArrives`). It shows that the server does not keep messages apart as section 5.4 of
RFC 6455 asks: a frame that starts a message inside another is refused only if two are open already, or it is a text
right after a part of the open message (`StartInside`). `MixedUp` is a text and a binary message that are taken for
one.

**Topic tree** (`TopicMatch`, `TopicBatch`, `TopicMerge`, `TopicNodes`, `TopicStreams`, `TopicTrees`; `Places`). The
reference is naive delivery: a list of filters for each subscriber, and every message handed out at once. The trie
with wildcards, lazy batches, the k-way merge with its cache, and culling on unsubscribe is proved never to be told
apart from it: what has been delivered, followed by what is pending, is always what naive delivery has handed out.
`history` records every operation, so the statement covers every run; `EverybodyHears` tells it from the history
alone, octet by octet.

**Socket buffering** (`SocketSpec`, `AsyncSockets`, `SocketLoops`). Wire, backpressure and cork form one queue of
octets. What the kernel takes of each write is a parameter, so that what every call does and returns is a function of
the state before it, and what it comes to can be told beforehand. The queue has three surprises, each with its exact
condition and a run in which it happens: data that overtakes corked data (`OvertakingHappens`); a write that overflows
the cork and is accepted in part over TLS, or not at all otherwise (`OverflowHappens`); and a cork that stays on after
a large frame has failed. Then `cork()`, which does not ask whose octets are in the cork, lets them leave on another
connection (`AnothersOctetsLeave`). `OctetsStayHome` says that this is the only way in which octets get lost to
another socket.

**WebSockets** (`WebSocketLinks`, `WebSocketChannels`, `SentFrames`, `WebSockets`, `WebSocketLife`). Receiver, socket
and topic tree run together: pongs and close frames go through the socket's buffers, FIN follows, and each close event
takes the subscriber out of the tree. A pong or close frame is skipped above the limit of backpressure and cut when it
overflows a cork that cannot be sent off, and joins the stream whole otherwise (`AnswersJoin`, `EndMeans`); what a
client reads of it is `AnswersAreRead`. FIN may come before octets that are still buffered, which then never leave
(`FinComesFirst`). `Live` runs any sequence of events and calls of the application. After the close of a socket its
subscriber should be gone; this fails if and only if the application has subscribed between the end of the WebSocket
and the close of its socket, because `subscribe` then makes a subscriber that the close no longer looks at.
`LateSubscriberStays` does it.

**HTTP** (`BloomFilters`, `HttpSpec`, `HttpHeaders`, `HttpChunks`, `HttpCuts`, `HttpParsers`, `HttpRouting`,
`HttpOrder`, `HttpRouters`, `Utilities`, `HttpResponses`; `HttpRoundTrip`, `RouteMeaning`, `ResponseReading`). The
parser is measured against a reader of single octets, and requests as they are written against what the handler is
called with (`RequestArrives`, `ExchangeArrives`); the router against a flat table of patterns, and this against what
patterns mean part by part; responses against a client that reads them (`Respond`).

How a stream is cut should make no difference to the parser, but does so in two cases. It signals the end of a body of
length 0 if the head comes whole and not if it comes in pieces; and it takes a head of more than 4096 octets that
comes whole, but not one that comes in pieces. `HttpCuts.CutsMean` says for every stream and every way to cut it that
there is no third case, and when exactly these two arise; `ZeroSignalDependsOnCuts` and `LongHeadDependsOnCuts` are
requests for which they do.

Siblings in the router's tree are in descending order of their names, unless a pattern has an empty segment: "/" has
one. A nameless sibling parts the others into two runs, each of them in order (`InsertedInRuns`,
`NamelessGetsInTheWay`). A static segment therefore takes precedence over a parameter only if it begins with a
character greater than the colon: `/users/:id` is called before `/users/1` (`ParameterShadowsOne`).

**Handshake** (`Sha1`, `Handshake`, `Base64Reading`). SHA-1 in place, with registers that rotate through an array and
a schedule of sixteen words, against the algorithm of FIPS 180-4 with eighty words; then base64, and a decoder for it.

**Deferred callbacks** (`Loops`). A state machine in which every stretch of code under the mutex, every callback and
every wakeup is one step of some thread. Callbacks may defer again.

Where code and documentation differ the code counts. `TopicTree.h` speaks of MQTT rules; what its matching does, and
the one case in which it differs, is proved in `TopicMatch`.

## Model

| member | source | states |
|---|---|---|
| `Bytes.UnmaskAt` | FrontServer/include/uWebsockets/WebSocketProtocol.h:275-304 | Octet i of an unmasked payload is octet i XOR octet i mod 4 of the key, by absolute position (section 5.3 of RFC 6455) |
| `Bytes.UnmaskConcat` | FrontServer/include/uWebsockets/WebSocketProtocol.h:275-304 | A payload may be unmasked in pieces, the key turned by what has gone before |
| `Bytes.RotateByRemainder` | FrontServer/include/uWebsockets/WebSocketProtocol.h:289-295 | Turning the key by n places is turning it by n mod 4 |
| `Bytes.UnmaskTwice` | FrontServer/include/uWebsockets/WebSocketProtocol.h:241-253 | Masking is its own inverse |
| `Bytes.NetworkRoundTrip` | FrontServer/include/uWebsockets/WebSocketProtocol.h:90-107 | What is written in network byte order is read back as the same number |
| `Unmasking.UnmaskImprecise` | FrontServer/include/uWebsockets/WebSocketProtocol.h:275-282 | The overlapping forward copy in rounded-up quads writes the unmasked source at the destination and nothing else |
| `Unmasking.UnmaskImpreciseCopyMask` | FrontServer/include/uWebsockets/WebSocketProtocol.h:284-287 | The same with a key that lies in the buffer being overwritten: the key as it was is what counts |
| `Unmasking.UnmaskedPatch` | FrontServer/include/uWebsockets/WebSocketProtocol.h:275-287 | The rounded-up copy gives the exact payload and touches at most 4 octets behind it |
| `Unmasking.RotateMask` | FrontServer/include/uWebsockets/WebSocketProtocol.h:289-295 | The in-place rotation turns the key so that it fits the rest of the payload |
| `Unmasking.UnmaskInplace` | FrontServer/include/uWebsockets/WebSocketProtocol.h:297-304 | Whole quads are unmasked in place, nothing else changes |
| `Unmasking.UnmaskExactly` | FrontServer/include/uWebsockets/WebSocketProtocol.h:365-369 | The last part of a payload, of any length, is unmasked in place and the octets behind it are left alone |
| `Utf8.IsValidUtf8` | FrontServer/include/uWebsockets/WebSocketProtocol.h:113-153 | With its four-octet ASCII path it accepts exactly the strings of the grammar in section 4 of RFC 3629, at every length |
| `Utf8Meaning.ValidMeans` | FrontServer/include/uWebsockets/WebSocketProtocol.h:113-153 | Octets are valid if and only if they are the encodings, one after the other, of Unicode scalar values (section 3 of RFC 3629, in numbers) |
| `Frames.ParseClosePayload` | FrontServer/include/uWebsockets/WebSocketProtocol.h:155-174 | Below two octets 1005 without a reason; otherwise the code, the greater octet first, and the reason, if and only if the reason is UTF-8 and the code is 1000 to 1003, 1007 to 1011 or 4000 to 4999; 1006 without a reason in all other cases |
| `FrameFormat.FormatClosePayload` | FrontServer/include/uWebsockets/WebSocketProtocol.h:176-188 | Writes the code in network order and the reason, or nothing for codes 0, 1005 and 1006 |
| `FrameFormat.ClosePayloadRoundTrip` | FrontServer/include/uWebsockets/WebSocketProtocol.h:161-188 | Parsing gives back code and reason if and only if the code is acceptable and the reason is UTF-8, or the code is 1005 and there is no reason |
| `FrameFormat.ServerWireSize` | FrontServer/include/uWebsockets/WebSocketProtocol.h:190-197 | messageFrameSize is the length of the frame a server formats |
| `FrameFormat.FormatMessage` | FrontServer/include/uWebsockets/WebSocketProtocol.h:205-256 | For both sides and all three length classes writes exactly the frame, returns its length, and touches nothing around it; what the frame is to a reader is `FrameReading.ServerFrameReadsBack` and `FrameReading.ClientFrameReadsBack` |
| `FrameFormat.HeadReadsBack` | FrontServer/include/uWebsockets/WebSocketProtocol.h:269-273 | The head readers give back opcode, FIN, length and key of every frame that has been formatted |
| `FrameReading.ServerFrameReadsBack` | FrontServer/include/uWebsockets/WebSocketProtocol.h:199-256 | A reader written from section 5.2 of RFC 6455 in numbers takes a frame of the server, whatever follows it and in all three classes of length, for a final frame without reserved bits and mask, of its opcode and payload |
| `FrameReading.ClientFrameReadsBack` | FrontServer/include/uWebsockets/WebSocketProtocol.h:199-256 | It reads the flag, the opcode, the mask bit and the unmasked payload of a client's frame |
| `FrameReading.ReadConcat` | FrontServer/include/uWebsockets/WebSocketProtocol.h:199-256 | Frames that follow one another are read one after the other |
| `ReceiveLemmas.RunConcat` | FrontServer/include/uWebsockets/WebSocketProtocol.h:406-446 | The reference receiver, an automaton over octets, may stop and go on at any octet |
| `ReceiveLemmas.RunWholeFrame` | FrontServer/include/uWebsockets/WebSocketProtocol.h:323-345 | The automaton over a whole frame delivers the unmasked payload in one fragment and pops the opcode |
| `ReceiveLemmas.RunPart` | FrontServer/include/uWebsockets/WebSocketProtocol.h:346-403 | The automaton over part of a payload delivers the unmasked part, keeps the turned key and counts what is left |
| `ReceiveLemmas.RunChunksIsRun` | FrontServer/include/uWebsockets/WebSocketProtocol.h:406-446 | Feeding the automaton chunk by chunk is feeding it the whole stream |
| `WebSocketReceive.WebSocketData.HandleFragment` | FrontServer/include/uWebsockets/WebSocketContext.h:60-225 | A fragment, cut anywhere, changes reassembly and log as the automaton does; true is returned exactly when the socket is closed or shutting down |
| `WebSocketReceive.WebSocketData.HandleDataFragment` | FrontServer/include/uWebsockets/WebSocketContext.h:66-160 | Reassembly of messages: size limit, UTF-8 check, delivery, clearing |
| `WebSocketReceive.WebSocketData.HandleControlFragment` | FrontServer/include/uWebsockets/WebSocketContext.h:161-222 | Control payloads share the buffer behind the message in progress, and the message prefix is restored |
| `WebSocketReceive.WebSocketData.DeliverMessage` | FrontServer/include/uWebsockets/WebSocketContext.h:85-97 | Text that is not UTF-8 aborts the socket, everything else is reported once |
| `WebSocketReceive.WebSocketData.DeliverControl` | FrontServer/include/uWebsockets/WebSocketContext.h:173-186 | The handlers of pings and pongs run once the whole payload is there; what is sent in answer is `Channel.AnswerOne` |
| `WebSocketReceive.WebSocketData.ForceClose` | FrontServer/include/uWebsockets/WebSocketContext.h:55-57 | Aborting reports a close once, and none when one has been reported |
| `WebSocketReceive.WebSocketData.TakeWholeFrame` | FrontServer/include/uWebsockets/WebSocketProtocol.h:323-345 | A frame that is there as a whole: unmasked over its head, handed on, the cursor behind it, nothing behind it changed |
| `WebSocketReceive.WebSocketData.TakePartFrame` | FrontServer/include/uWebsockets/WebSocketProtocol.h:346-358 | A frame that is there in part: what is there is handed on, key and count are kept for the rest |
| `WebSocketReceive.WebSocketData.ConsumeMessage` | FrontServer/include/uWebsockets/WebSocketProtocol.h:306-359 | A head: refusal, opcode stack, size limit, then the frame; exactly what the automaton does with the octets |
| `WebSocketReceive.WebSocketData.ConsumeContinuation` | FrontServer/include/uWebsockets/WebSocketProtocol.h:362-403 | The rest of a payload that began in an earlier chunk |
| `WebSocketReceive.WebSocketData.ParseHeads` | FrontServer/include/uWebsockets/WebSocketProtocol.h:413-445 | The loop over heads of all three length classes consumes everything or keeps the beginning of a head |
| `WebSocketReceive.WebSocketData.Spill` | FrontServer/include/uWebsockets/WebSocketProtocol.h:441-445 | At most 13 octets of a head are kept, and only while a head is wanted |
| `WebSocketReceive.WebSocketData.Unspill` | FrontServer/include/uWebsockets/WebSocketProtocol.h:407-411 | The kept octets are put back in front of the new ones |
| `WebSocketReceive.WebSocketData.Consume` | FrontServer/include/uWebsockets/WebSocketProtocol.h:406-446 | One chunk changes the receiver as the automaton changes over its octets; only the chunk and its margins are written |
| `WebSocketReceive.Feed` | FrontServer/include/uWebsockets/WebSocketProtocol.h:406-446 | The same with a buffer of the required margins made for the chunk |
| `WebSocketReceive.Receive` | FrontServer/include/uWebsockets/WebSocketProtocol.h:406-446 | Chunk independence: however a stream is cut, events and state are those of the automaton over the whole stream |
| `ReceiveMeaning.Tells` | FrontServer/include/uWebsockets/WebSocketProtocol.h:306-446 | Over any octets whatsoever the automaton reports what an account in numbers tells frame by frame: refused heads with their reserved bits and opcodes, misplaced and too long frames, incomplete ones, messages, pings, pongs, closes, and what the handlers make of them |
| `ReceiveMeaning.ReceiveTold` | FrontServer/include/uWebsockets/WebSocketProtocol.h:306-446 | The same of a whole connection, however its octets are cut |
| `ReceiveMeaning.ChunksTold` | FrontServer/include/uWebsockets/WebSocketProtocol.h:406-446 | The same of the automaton fed chunk by chunk |
| `ReceiveMeaning.CloseArrives` | FrontServer/include/uWebsockets/WebSocketProtocol.h:155-174 | A close frame of any client, in any chunks, is reported as its code and its reason if and only if the reason is UTF-8 and the code is 1000 to 1003, 1007 to 1011 or 4000 to 4999, as 1006 otherwise, and as 1005 if it has no code |
| `ReceiveMeaning.CloseCanBeSent` | FrontServer/include/uWebsockets/WebSocketProtocol.h:176-188 | Every code below 2^16 and every reason of at most 123 octets can be sent in such a frame, under any key |
| `ReceiveMeaning.StartInside` | FrontServer/include/uWebsockets/WebSocketProtocol.h:308-318 | A frame that starts a message inside another is refused if and only if two are open already, or it is a text right after a part of the open message; section 5.4 of RFC 6455 would have it refused always |
| `ReceiveMeaning.MixedUp` | FrontServer/include/uWebsockets/WebSocketProtocol.h:308-318 | It can fail: a whole binary message between two parts of a text is taken for one message with the first part of the text |
| `RoundTrip.RunFrames` | FrontServer/include/uWebsockets/WebSocketProtocol.h:307-403 | The automaton over any sequence of sendable frames works frame by frame |
| `RoundTrip.FrameStepsAreExpected` | FrontServer/include/uWebsockets/WebSocketContext.h:60-225 | Over frames that conform to section 5.4 of RFC 6455 the handler calls are those told message by message |
| `RoundTrip.RoundTrip` | FrontServer/include/uWebsockets/WebSocketProtocol.h:306-446 | Any conforming frames, any masks, control frames interleaved, cut into any chunks, arrive as exactly those messages, pings, pongs and close |
| `RoundTrip.FormattedMessageArrives` | FrontServer/include/uWebsockets/WebSocketProtocol.h:205-256 | What formatMessage writes for a client arrives as that message, in any chunks |
| `WebSocketReceive.WebSocketData.OnData` | FrontServer/include/uWebsockets/WebSocketContext.h:284-285 | What the parser makes of a chunk moves the receiver as the automaton moves over its octets |
| `WebSocketReceive.WebSocketData.OnWritable` | FrontServer/include/uWebsockets/WebSocketContext.h:337-344 | The drain handler runs if something drained or nothing was buffered |
| `WebSocketReceive.WebSocketData.OnClose` | FrontServer/include/uWebsockets/WebSocketContext.h:241-249 | The close handler runs unless a close has been reported |
| `WebSocketReceive.WebSocketData.OnUserEnd` | FrontServer/include/uWebsockets/WebSocket.h:130-137 | end counts once |
| `Lifecycle.RunKeeps` | FrontServer/include/uWebsockets/WebSocketProtocol.h:57-78 | Over every octet stream: the opcode stack has at most two entries and one whenever a payload is awaited, at most 13 octets of a head are kept, buffered and reported messages are within the limit, control payloads within 125 octets |
| `Lifecycle.LifeIsGood` | FrontServer/include/uWebsockets/WebSocketContext.h:240-367 | The same over every interleaving of data, user end, writable, timeout and close |
| `Lifecycle.GoneBy` | FrontServer/include/uWebsockets/WebSocketContext.h:55-57 | A socket that has just stopped reporting has reported a close, behind everything else |
| `Lifecycle.ExactlyOneCloseEvent` | FrontServer/include/uWebsockets/WebSocketContext.h:240-261 | Every life that ends in the socket's close has exactly one close event, and it is the last event; with the subscriber's departure this is `WebSocketLife.Live` |
| `WebSocketLinks.RepliesAreProper` | FrontServer/include/uWebsockets/WebSocketContext.h:165-201 | Whatever has been reported, its answers are frames that may be formatted: pongs of at most 125 octets and close frames |
| `WebSocketLinks.AnswersJoin` | FrontServer/include/uWebsockets/WebSocketContext.h:264-300 | What a chunk has the socket do: it takes the cork, every ping is answered by a pong and every close by a close frame, in the order of the events, and it takes the cork off; each of these frames joins the stream whole if and only if, when its turn comes, there is no more backpressure than the limit allows and it does not overflow a cork that cannot be sent off |
| `WebSocketLinks.EndMeans` | FrontServer/include/uWebsockets/WebSocket.h:136-154 | end sends the close frame, which joins the stream whole under the same condition; FIN follows if and only if the socket is not corked then and the frame has been skipped because of the limit or sent without failure, and comes before octets that are still buffered exactly in the first case |
| `WebSocketLinks.DataFin` | FrontServer/include/uWebsockets/WebSocketContext.h:289-297 | A chunk that ends the WebSocket is followed by FIN when all has left; FIN comes before octets that are still buffered only if these are more than the limit allows |
| `WebSocketLinks.DrainIsTold` | FrontServer/include/uWebsockets/WebSocketContext.h:322-344 | At a writable socket the drain handler is told, before anything that this causes, if and only if nothing was buffered or some of it has left; otherwise nothing is reported or sent |
| `WebSocketLinks.EventsKeepFine` | FrontServer/include/uWebsockets/WebSocketContext.h:240-348 | Every event keeps a closed socket, or one on which FIN has been sent, without a receiver; an abort, and only that, closes the socket of itself |
| `WebSocketLinks.NothingAfterFin` | FrontServer/include/uWebsockets/WebSocketContext.h:310-312 | After FIN no event lets anything leave, and what is buffered stays so |
| `WebSocketChannels.Channel.SendClose` | FrontServer/include/uWebsockets/WebSocket.h:136-154 | Exactly what `AnswerOne` says of a close: the close frame, its reason cut to 123 octets, and FIN if the socket is not corked and there is no failure |
| `WebSocketChannels.Channel.AnswerOne` | FrontServer/include/uWebsockets/WebSocketContext.h:165-201 | Wire, backpressure, cork and FIN after the answer to one event are exactly those of a pong, of a close frame, or of the close of the socket; what a client reads of it is `SentFrames.AnswerIsRead` |
| `WebSocketChannels.Channel.Answer` | FrontServer/include/uWebsockets/WebSocketContext.h:165-201 | The answers to everything that has been reported, one after the other |
| `WebSocketChannels.Channel.OnData` | FrontServer/include/uWebsockets/WebSocketContext.h:264-300 | Receiver, wire, backpressure, cork and FIN after a chunk are a function of those before and of its octets, whoever had the cork; `AnswersJoin` and `DataFin` say what it comes to; nothing happens in shutdown |
| `WebSocketChannels.Channel.OnWritable` | FrontServer/include/uWebsockets/WebSocketContext.h:303-348 | The same for a writable socket: as much of the backpressure leaves as the kernel takes; in shutdown FIN follows exactly when nothing is buffered any more, otherwise the drain handler is told if something drained or nothing was buffered, and what it causes is answered |
| `WebSocketChannels.Channel.OnClose` | FrontServer/include/uWebsockets/WebSocketContext.h:240-261 | The same for the close of the socket: it is reported unless the receiver is gone, and wire and backpressure stay |
| `WebSocketChannels.Channel.OnUserEnd` | FrontServer/include/uWebsockets/WebSocket.h:129-162 | The same for the end by the application; `EndMeans` says what it comes to; a second end changes nothing |
| `SentFrames.SendsAreRead` | FrontServer/include/uWebsockets/WebSocket.h:60-125 | The octets that a run of sends adds to those on their way, if no frame is skipped, cut or put before others, are read by a client as exactly those messages, in order |
| `SentFrames.AnswerIsRead` | FrontServer/include/uWebsockets/WebSocketContext.h:165-201 | What is sent in answer to an event is read by a client as a pong with the payload of the ping, or as a close frame with the code, the greater octet first, and at most 123 octets of the reason, or with nothing for 0, 1005 and 1006 |
| `SentFrames.AnswersAreRead` | FrontServer/include/uWebsockets/WebSocketContext.h:264-300 | What a chunk adds to the octets on their way, if no answer is skipped, cut or put before others, is read as these pongs and close frames, in the order of the events |
| `SentFrames.ChunkIsAnswered` | FrontServer/include/uWebsockets/WebSocketContext.h:264-300 | The same whenever the buffered octets are within the limit and the corked ones with the answers below 16384 |
| `SentFrames.EndIsRead` | FrontServer/include/uWebsockets/WebSocket.h:136-154 | What `end` sends is read as a close frame with its code and its reason |
| `WebSockets.WebSocket.OnData` | FrontServer/include/uWebsockets/WebSocketContext.h:264-300 | If a chunk ends the WebSocket its subscriber is gone, no member of the tree and in none of its sets; the other members stay |
| `WebSockets.WebSocket.OnWritable` | FrontServer/include/uWebsockets/WebSocketContext.h:303-348 | The same for what a drain handler causes |
| `WebSockets.WebSocket.OnClose` | FrontServer/include/uWebsockets/WebSocketContext.h:240-261 | The same for the close of the socket; one that had ended before is left as it is, whatever it subscribed to since |
| `WebSockets.WebSocket.OnUserEnd` | FrontServer/include/uWebsockets/WebSocket.h:129-168 | The same for the end by the application |
| `WebSockets.WebSocket.Subscribe` | FrontServer/include/uWebsockets/WebSocket.h:186-198 | The WebSocket, a new subscriber if it has none, stands in the set of the topic; this works after `end` as well |
| `WebSockets.WebSocket.Unsubscribe` | FrontServer/include/uWebsockets/WebSocket.h:201-209 | The WebSocket's subscriber is not in the set of the topic any more; the other members stay |
| `WebSockets.WebSocket.UnsubscribeAll` | FrontServer/include/uWebsockets/WebSocket.h:212-220 | The WebSocket's subscriber is in no set of the tree; the other members stay |
| `WebSockets.WebSocket.Together` | FrontServer/include/uWebsockets/WebSocketContext.h:251-254 | In the sets of the tree stand the other members and the WebSocket's own subscriber, and nobody else |
| `WebSocketLife.Live` | FrontServer/include/uWebsockets/WebSocketContext.h:240-348 | Over every sequence of chunks, ends, writable events, subscriptions, unsubscriptions and a close the connection is the one computed from these and from what the kernel takes; once the socket is closed there has been exactly one close event, the last event; and the subscriber is gone, in no set of the tree, if and only if there was no subscribe between the end of the WebSocket and the close of its socket |
| `WebSocketLife.LateSubscriberStays` | FrontServer/include/uWebsockets/WebSocket.h:186-198 | The condition can fail: an open WebSocket that ends, subscribes and is closed leaves its subscriber in the set of the topic |
| `WebSocketLife.FinComesFirst` | FrontServer/include/uWebsockets/WebSocketContext.h:310-334 | An uncorked WebSocket with more backpressure than the limit that is ended by the application gets its FIN at once, and what is buffered never leaves, whatever happens afterwards |
| `WebSocketLife.OctetsStayBehind` | FrontServer/include/uWebsockets/WebSocketContext.h:310-334 | It happens, with a limit of one octet and a kernel that takes nothing the first time |
| `SocketSpec.WriteMeans` | FrontServer/include/uWebsockets/AsyncSocket.h:141-228 | What is reported as written joins the stream of wire, backpressure and cork at its end, unless something is corked, the kernel does not take the backpressure and the write is not optional: then it overtakes what is corked. How much is reported, and whether a failure is, is told beforehand from what the kernel takes; a closed socket takes everything and does nothing |
| `SocketSpec.UncorkMeans` | FrontServer/include/uWebsockets/AsyncSocket.h:232-255 | Taking the cork off puts what was corked behind the backpressure, and new data behind that; of data that is not optional nothing is accepted if and only if what was corked cannot be sent off, and all of it otherwise |
| `SocketSpec.SendMeans` | FrontServer/include/uWebsockets/WebSocket.h:60-125 | A frame joins the stream whole, overtakes corked data, or is cut when the cork overflows, each under its exact condition; it is skipped above the limit of backpressure; the cork taken for it stays on if and only if it has 16384 octets or more and the kernel does not take the backpressure |
| `SocketSpec.DoMeans` | FrontServer/include/uWebsockets/AsyncSocket.h:69-255 | One call: what joins the stream joins it at its end or before what it overtakes, and nothing that has left is taken back |
| `SocketSpec.ReturnsTell` | FrontServer/include/uWebsockets/AsyncSocket.h:138-140 | A write or uncork returns how much has joined the stream; a send that returns success has joined it whole, unless it was skipped because of the limit |
| `SocketSpec.WholeOrCut` | FrontServer/include/uWebsockets/AsyncSocket.h:184-197 | Data that is not optional joins whole if and only if it does not overflow a cork that cannot be sent off; data passed to uncork, if and only if there is a cork and what is in it can be sent off; a frame, if and only if it is within the limit and does not overflow such a cork |
| `SocketSpec.LimitMeans` | FrontServer/include/uWebsockets/WebSocket.h:60-125 | A frame is skipped if there is a limit and more octets are buffered than it says; otherwise all of it gets on its way unless it is cut; and what does not fit into 16384 octets with what is corked takes the cork off |
| `SocketSpec.OptionalMeans` | FrontServer/include/uWebsockets/AsyncSocket.h:141-228 | Data that is not optional is written whole unless it is cut; optional data is never added to backpressure; of what is cut over TLS as much is reported as fills up 16384 octets, and otherwise nothing |
| `SocketSpec.CorkFirst` | FrontServer/include/uWebsockets/AsyncSocket.h:232-255 | Data passed to uncork is taken only when all that was buffered and corked has left |
| `SocketSpec.RunsMean` | FrontServer/include/uWebsockets/AsyncSocket.h:69-255 | Over any run of calls on an open socket the stream is what the calls have put into the line, each at its end or before what it overtakes |
| `SocketSpec.Fifo` | FrontServer/include/uWebsockets/AsyncSocket.h:138-140 | If nothing is overtaken the stream is the accepted prefixes in the order of the calls |
| `SocketSpec.NothingOvertaken` | FrontServer/include/uWebsockets/AsyncSocket.h:141-255 | Without send nothing is overtaken, unless something was corked behind backpressure to begin with or is taken over from another socket |
| `AsyncSockets.AsyncSocket.Write` | FrontServer/include/uWebsockets/AsyncSocket.h:141-228 | Wire, backpressure, cork and results after a write are exactly those of `SocketSpec.Write`, with the stream and the reported count as `WriteMeans` has them |
| `AsyncSockets.AsyncSocket.Uncork` | FrontServer/include/uWebsockets/AsyncSocket.h:232-255 | The same for uncorking, on open and closed sockets |
| `AsyncSockets.AsyncSocket.GetSendBuffer` | FrontServer/include/uWebsockets/AsyncSocket.h:85-96 | Space in the cork buffer if the socket is corked and it fits, a buffer of its own otherwise |
| `AsyncSockets.AsyncSocket.CorkUp` | FrontServer/include/uWebsockets/AsyncSocket.h:177-190 | Corked data goes behind what is corked; the offset stays within 16384 |
| `AsyncSockets.AsyncSocket.Cork` | FrontServer/include/uWebsockets/AsyncSocket.h:69-72 | The socket has the cork, with whatever is in it, whoever had it |
| `AsyncSockets.AsyncSocket.Send` | FrontServer/include/uWebsockets/WebSocket.h:60-125 | The same for sending, with the frame of the message; on an open socket the stream, the result and whose the cork is are as `SendMeans` has them |
| `AsyncSockets.RunOps` | FrontServer/include/uWebsockets/AsyncSocket.h:69-255 | Any run of cork, write, uncork, send and close leaves the socket as the run of the specification, and its results are what the calls return; on an open socket the stream is the line, and a queue if nothing is overtaken |
| `SocketLoops.MoveKeepsOwn` | FrontServer/include/uWebsockets/AsyncSocket.h:69-72 | With every octet marked by the socket it was handed to, a call on one of the sockets of a loop keeps all octets where they belong if and only if it does not take the cork while there are octets of another socket in it |
| `SocketLoops.OctetsStayHome` | FrontServer/include/uWebsockets/AsyncSocket.h:69-72 | Over any calls on the sockets of a loop: at all times octets handed to one socket have left on no other and stand in line for no other, if and only if no cork() finds octets that are corked for another socket |
| `SocketLoops.BareMoves` | FrontServer/include/uWebsockets/AsyncSocket.h:69-255 | The marks make no difference to what the calls do |
| `SocketLoops.RunLoop` | FrontServer/include/uWebsockets/AsyncSocket.h:69-255 | The sockets themselves do this, any number of them, under any calls |
| `SocketLoops.AnothersOctetsLeave` | FrontServer/include/uWebsockets/WebSocket.h:88-110 | It happens: behind backpressure a message of 16384 octets fails and leaves its cork on, the next message goes into it, and leaves on another socket that takes the cork and takes it off |
| `SocketLoops.OvertakingHappens` | FrontServer/include/uWebsockets/AsyncSocket.h:151-170 | With backpressure and a kernel that takes nothing: cork, send, write, and the octet written last stands before the frame sent first |
| `SocketLoops.OverflowHappens` | FrontServer/include/uWebsockets/AsyncSocket.h:184-197 | A corked write past 16384 octets with a kernel that takes nothing: what fits is accepted over TLS, nothing otherwise |
| `TopicMatch.SegmentsJoin` | FrontServer/include/uWebsockets/TopicTree.h:129-131 | Cutting a topic at its slashes loses nothing and leaves no slash |
| `TopicMatch.UnderStep` | FrontServer/include/uWebsockets/TopicTree.h:129-158 | What a topic reaches below a node it reaches through the # child, the + child or the literal child |
| `TopicMatch.MatchesMeans` | FrontServer/include/uWebsockets/TopicTree.h:129-159 | A filter matches a topic if and only if it does so segment by segment, + standing for any one segment and # in last place for one or more |
| `TopicMatch.MatchesAndMqtt` | FrontServer/include/uWebsockets/TopicTree.h:129-159 | On topics without wildcards matching is that of MQTT 3.1.1 section 4.7.1 but for exactly one case: a filter ending in # does not match its parent level |
| `TopicMatch.HashMissesItsParent` | FrontServer/include/uWebsockets/TopicTree.h:129-159 | The case occurs: a/# does not match a |
| `TopicTrees.TopicTree.PublishFrom` | FrontServer/include/uWebsockets/TopicTree.h:123-166 | The recursive publish stores the message at exactly the nodes whose paths match and triggers exactly those |
| `TopicTrees.TopicTree.PublishStep` | FrontServer/include/uWebsockets/TopicTree.h:129-158 | One turn of its loop: the wildcard children, then the literal child |
| `TopicTrees.TopicTree.Publish` | FrontServer/include/uWebsockets/TopicTree.h:234-237 | After a drain if 64 nodes are triggered, a message stands under the next id at exactly the nodes with matching filters; the tree stays indistinguishable from naive delivery |
| `TopicTrees.TopicTree.TriggeredAreListed` | FrontServer/include/uWebsockets/TopicTree.h:123-166 | The triggered nodes are as many as the listed ones, so that more than 64 could not be triggered |
| `TopicTrees.TopicTree.Insert` | FrontServer/include/uWebsockets/TopicTree.h:179-216 | The walk adds what is missing of a path, with wildcard links, and changes nothing at old nodes |
| `TopicTrees.TopicTree.Subscribe` | FrontServer/include/uWebsockets/TopicTree.h:178-232 | Adds one filter to one subscriber, after a drain where something is pending; the tree stays indistinguishable from naive delivery |
| `TopicTrees.TopicTree.Lookup` | FrontServer/include/uWebsockets/TopicTree.h:243-255 | Finds the node of a filter, or nothing if there is none |
| `TopicTrees.TopicTree.Unsubscribe` | FrontServer/include/uWebsockets/TopicTree.h:240-277 | Returns whether the filter was subscribed, removes exactly it, and trims the tree |
| `TopicTrees.TopicTree.UnsubscribeAll` | FrontServer/include/uWebsockets/TopicTree.h:280-297 | All filters of a subscriber go, with drains or, for a closing one, without; afterwards it is in no set of the tree |
| `TopicTrees.TopicTree.StandsByFilter` | FrontServer/include/uWebsockets/TopicTree.h:220-296 | The sets of the tree hold a subscriber exactly at the filters that naive delivery knows of it, and nobody who is not a member |
| `TopicTrees.TopicTree.TrimTree` | FrontServer/include/uWebsockets/TopicTree.h:82-120 | Takes out exactly unused nodes, upwards; what remains is linked, listed and used |
| `TopicTrees.TopicTree.Cull` | FrontServer/include/uWebsockets/TopicTree.h:84-114 | Taking out one leaf keeps all links and takes it off the triggered list |
| `TopicTrees.TopicTree.RemoveTriggered` | FrontServer/include/uWebsockets/TopicTree.h:97-110 | The copy through a second array removes one node and keeps the order |
| `TopicTrees.TopicTree.FilterTriggered` | FrontServer/include/uWebsockets/TopicTree.h:309-321 | Compacting in place keeps the topics with subscribers, in order, and clears the others |
| `TopicTrees.TopicTree.FindMin` | FrontServer/include/uWebsockets/TopicTree.h:327-332 | The least subscriber of all sets |
| `TopicMerge.Round` | FrontServer/include/uWebsockets/TopicTree.h:352-382 | One round of the merge: every set that stands on the least subscriber moves on, and the next least is found |
| `TopicMerge.Union` | FrontServer/include/uWebsockets/TopicTree.h:387-398 | The duplicate-free union of several sets of messages, in order of id; octet by octet that is `TopicStreams.CollectIsRow` |
| `TopicMerge.Merge` | FrontServer/include/uWebsockets/TopicTree.h:337-407 | The k-way merge terminates and calls every subscriber once, in ascending order, with all its messages in order; the cache never changes the answer |
| `TopicMerge.MergedIsBatch` | FrontServer/include/uWebsockets/TopicTree.h:334-409 | Merging the triggered topics gives every subscriber exactly what it has pending |
| `TopicTrees.TopicTree.Drain` | FrontServer/include/uWebsockets/TopicTree.h:301-417 | A drain calls every subscriber with something pending once, with all of it in order, and leaves nothing pending; octet by octet that is `TopicStreams.CallCarries` |
| `TopicStreams.CollectIsRow` | FrontServer/include/uWebsockets/TopicTree.h:387-398 | The union of messages is, in both forms, their octets one behind the other by ascending id |
| `TopicStreams.CallCarries` | FrontServer/include/uWebsockets/TopicTree.h:387-409 | The one call of a drain for a subscriber carries the messages with its pending ids, one behind the other by ascending id |
| `TopicStreams.DeliveredIsRow` | FrontServer/include/uWebsockets/TopicTree.h:384-409 | What has been delivered to an address is the data of its calls, one behind the other |
| `TopicStreams.FiltersAreHeld` | FrontServer/include/uWebsockets/TopicTree.h:178-297 | The filters of a member are those that the history has subscribed to and not taken away since |
| `TopicStreams.StreamIsHeard` | FrontServer/include/uWebsockets/TopicTree.h:178-417 | What naive delivery gives an address is what it had when its owner joined and, behind it, in the order of the history, every message published since while one of its filters matched |
| `TopicBatch.PublishAgrees` | FrontServer/include/uWebsockets/TopicTree.h:234-237 | Publishing keeps batched and naive delivery in agreement |
| `TopicBatch.DrainAgrees` | FrontServer/include/uWebsockets/TopicTree.h:301-417 | So does draining |
| `TopicBatch.ResubscribeAgrees` | FrontServer/include/uWebsockets/TopicTree.h:218-231 | So does any change of subscriptions where nothing is pending |
| `TopicBatch.LeaveAgrees` | FrontServer/include/uWebsockets/TopicTree.h:280-297 | So does the departure of a subscriber with something pending, for all others |
| `TopicTrees.TopicTree.Admitted` | FrontServer/include/uWebsockets/WebSocket.h:186-198 | A new subscriber starts with what its address has received so far and no filters |
| `TopicTrees.TopicTree.Commit` | FrontServer/include/uWebsockets/TopicTree.h:299-301 | The public drain keeps everything and leaves nothing pending |
| `TopicTrees.TopicTree.EverybodyIsServed` | FrontServer/include/uWebsockets/TopicTree.h:178-417 | Over every history, after a drain each subscriber has received exactly the concatenation of the messages that matched one of its filters when published, once each, in order |
| `TopicTrees.TopicTree.EverybodyHears` | FrontServer/include/uWebsockets/TopicTree.h:178-417 | Octet by octet, after a drain the data of all calls for an address is what it had when its present owner joined and, behind it, in the order of publishing, every message published since to a topic that one of its filters matched then |
| `TopicTrees.TopicTree.LeadsToSubscriber` | FrontServer/include/uWebsockets/TopicTree.h:81-120 | Every node but the root has a subscriber at or below it |
| `BloomFilters.BloomFilter.Add` | FrontServer/include/uWebsockets/BloomFilter.h:50-56 | Exactly the bits that stand for the keys added so far are set |
| `BloomFilters.BloomFilter.MightHave` | FrontServer/include/uWebsockets/BloomFilter.h:46-48 | Never false of a key that has been added; true of another exactly when the keys that have been added happen to cover all its bits |
| `HttpHeaders.GetHeaders` | FrontServer/include/uWebsockets/HttpParser.h:150-177 | Finds the first complete head and its fields, or says that there is none and leaves a buffer that scans the same; nothing behind the head is touched |
| `HttpHeaders.ReadKey` | FrontServer/include/uWebsockets/HttpParser.h:154 | The key loop, turning octets into lower case in place, makes no difference to the scan |
| `HttpHeaders.FindCr` | FrontServer/include/uWebsockets/HttpParser.h:165-167 | The end of a value, or nothing |
| `HttpParsers.HttpRequest.GetHeader` | FrontServer/include/uWebsockets/HttpParser.h:92-101 | Behind the filter, the value of the first header of that name up to the first empty key |
| `HttpParsers.ToUnsignedInteger` | FrontServer/include/uWebsockets/HttpParser.h:142-148 | Decimal digits are read as their number modulo 2^32; what other octets give is fixed as well |
| `HttpSpec.ToUnsignedIsParse` | FrontServer/include/uWebsockets/HttpParser.h:142-148 | The wrapping accumulator agrees with the parsing of numerals, modulo 2^32 |
| `HttpParsers.HttpParser.TakeHead` | FrontServer/include/uWebsockets/HttpParser.h:205-249 | A head is served once, with its body announced or its absence signalled; which request a written head leads to is `HttpRoundTrip.RequestArrives` |
| `HttpParsers.HttpParser.EmitBody` | FrontServer/include/uWebsockets/HttpParser.h:238-244 | As much of a body as is there, the last piece marked |
| `HttpParsers.HttpParser.ConsumeAll` | FrontServer/include/uWebsockets/HttpParser.h:205-256 | All heads and bodies of a chunk, with a signal at the end of each body, also of one of length 0: exactly what the reader says; the rest is the beginning of a head |
| `HttpParsers.HttpParser.ConsumeKept` | FrontServer/include/uWebsockets/HttpParser.h:284-334 | A head that began in earlier chunks: at most 4096 octets are put together and one head is taken; the calls made are the request and, only if no body is announced, a signal |
| `HttpParsers.HttpParser.ConsumePostPadded` | FrontServer/include/uWebsockets/HttpParser.h:259-354 | One chunk changes the parser as the reader changes over its octets and its end, and calls exactly what the reader says; the error handler runs if and only if the reader fails |
| `HttpChunks.CompletesOn` | FrontServer/include/uWebsockets/HttpParser.h:299-304 | Prefix monotony: a head completed with kept octets ends behind them, where the scan of the new ones says |
| `HttpChunks.FollowsHead` | FrontServer/include/uWebsockets/HttpParser.h:205-208 | A head in a chunk is the reader's head, or the reader has failed on the chunk |
| `HttpSpec.RunCompletes` | FrontServer/include/uWebsockets/HttpParser.h:150-177 | The reader opens a request at the octet that completes a head |
| `HttpParsers.Receive` | FrontServer/include/uWebsockets/HttpParser.h:259-354 | However a stream is cut: the error handler runs if and only if a chunk ends inside a head of which 4096 octets come that do not complete it; otherwise requests, bodies and signals are those of the whole stream if and only if no chunk ends inside the head of a request with a body of length 0, and differ in the signals of such bodies alone if one does |
| `HttpCuts.CutsMean` | FrontServer/include/uWebsockets/HttpParser.h:205-350 | The same of the reader, for every stream and every way to cut it; what has been said before a failure is what the whole stream says first, but for such signals |
| `HttpCuts.ZeroSignalDependsOnCuts` | FrontServer/include/uWebsockets/HttpParser.h:233-249 | A request with Content-Length: 0 is followed by a signal when it comes whole, and by none when it is cut anywhere |
| `HttpCuts.LongHeadDependsOnCuts` | FrontServer/include/uWebsockets/HttpParser.h:284-350 | A request with a head of more than 4096 octets is within the condition of failure when it is cut anywhere, and not when it comes whole |
| `HttpRoundTrip.ScanHead` | FrontServer/include/uWebsockets/HttpParser.h:150-177 | A written head, with fewer than 49 headers, is scanned into its method and keys in lower case, its URL with the version, and its values without what stands in front of them |
| `HttpRoundTrip.HeadArrives` | FrontServer/include/uWebsockets/HttpParser.h:259-354 | In any chunks a head of at most 4096 octets leads to nothing until it is there, and then to its request |
| `HttpRoundTrip.RequestArrives` | FrontServer/include/uWebsockets/HttpParser.h:205-230 | The first thing that is said of a stream that begins with a written request is this request: the method in lower case, the URL without the version, the keys in lower case with their values, and the place of the first question mark |
| `HttpRoundTrip.ExchangeRead` | FrontServer/include/uWebsockets/HttpParser.h:205-350 | A written request and a body of the length that Content-Length says are read, in any chunks, as the request, the octets of the body and one signal |
| `HttpRoundTrip.ExchangeArrives` | FrontServer/include/uWebsockets/HttpParser.h:205-350 | The parser says the same |
| `HttpRoundTrip.LengthIsSaid` | FrontServer/include/uWebsockets/HttpParser.h:92-101 | The first Content-Length of a head, in whatever case, in front of which no key is empty, says how long the body is |
| `HttpRoundTrip.NothingTrimmed` | FrontServer/include/uWebsockets/HttpParser.h:163-164 | A value or URL is taken as it is if and only if it is empty or begins with a visible octet other than a colon |
| `HttpRoundTrip.TooManyHeaders` | FrontServer/include/uWebsockets/HttpParser.h:150-177 | A head with 49 headers or more is never complete, so that no request comes of it |
| `HttpRoundTrip.LongHeadFails` | FrontServer/include/uWebsockets/HttpParser.h:284-350 | Any head of more than 4096 octets is served when it comes whole, and a failure in two pieces, wherever it is cut |
| `HttpRoundTrip.LookUpFinds` | FrontServer/include/uWebsockets/HttpParser.h:92-101 | The value looked up is that of the first header of the name, if no empty key is in front of it |
| `HttpRoundTrip.LookUpEnds` | FrontServer/include/uWebsockets/HttpParser.h:92-101 | An empty key ends the list |
| `HttpRouters.HttpRouter.GetUrlSegment` | FrontServer/include/uWebsockets/HttpRouter.h:120-151 | The lazy cache gives the segments of the pure split, and STOP behind the last or the hundredth |
| `HttpRouters.HttpRouter.ExecuteHandlers` | FrontServer/include/uWebsockets/HttpRouter.h:154-194 | The search makes the calls of the tree's candidates in order until one accepts, each with the parameters on its way; a search that fails leaves the stack as it was |
| `HttpRouting.TreeIsTable` | FrontServer/include/uWebsockets/HttpRouter.h:154-194 | The candidates of a tree are the matching entries of its flat table, in the table's order |
| `HttpRouters.HttpRouter.Route` | FrontServer/include/uWebsockets/HttpRouter.h:212-226 | Routing a URL calls the matching entries of the method's table from top to bottom until one accepts; if none does the stack is empty; each handler is called at most once unless it has been added twice for the method |
| `HttpRouters.CallUntilMeans` | FrontServer/include/uWebsockets/HttpRouter.h:161-167 | A prefix of the calls is made, none but the last of it accepted |
| `RouteMeaning.SplitJoins` | FrontServer/include/uWebsockets/HttpRouter.h:120-151 | Splitting a URL at its slashes loses nothing but the first character, for which a slash is taken, and leaves no slash |
| `RouteMeaning.SlashedSplits` | FrontServer/include/uWebsockets/HttpRouter.h:120-151 | Segments written with a slash in front of each are what the URL is split into |
| `RouteMeaning.HundredSegments` | FrontServer/include/uWebsockets/HttpRouter.h:120-127 | Of more than a hundred segments the first hundred count |
| `RouteMeaning.MatchMeans` | FrontServer/include/uWebsockets/HttpRouter.h:172-190 | A pattern matches if and only if it does so part by part: a part that begins with a colon takes any segment that is not empty, one that begins with an asterisk, in the last place, one or more segments, any other its own text |
| `RouteMeaning.CapturedMeans` | FrontServer/include/uWebsockets/HttpRouter.h:177-183 | The parameters are the segments at the places of the parts that begin with a colon, in order |
| `RouteMeaning.ServeMeans` | FrontServer/include/uWebsockets/HttpRouter.h:154-194 | A table leads to a call for every entry that matches, from top to bottom, and for no other |
| `RouteMeaning.PriorityDecides` | FrontServer/include/uWebsockets/HttpRouter.h:38 | High priority comes before medium, medium before low, and of the same priority the older handler; the number of the handler is kept |
| `HttpRouting.AddPathAdds` | FrontServer/include/uWebsockets/HttpRouter.h:67-84 | Walking and inserting puts one entry into the flat table, which is otherwise as it was, in the same order |
| `HttpRouting.PlaceFits` | FrontServer/include/uWebsockets/HttpRouter.h:77-84 | upper_bound lands between a node that may not follow and one that may, even where names are not in order |
| `HttpRouting.AddPathKeepsOrder` | FrontServer/include/uWebsockets/HttpRouter.h:67-84 | Children of high priority stay first, handlers stay sorted by priority and age |
| `HttpOrder.InsertedInRuns` | FrontServer/include/uWebsockets/HttpRouter.h:77-84 | Inserting any child keeps this order: siblings that are not in descending order have the same priority, and the nameless sibling of this priority is one of them or stands between them |
| `HttpOrder.RunsDescend` | FrontServer/include/uWebsockets/HttpRouter.h:77-84 | Without a nameless sibling this is the descending order of names |
| `HttpOrder.InsertedDescending` | FrontServer/include/uWebsockets/HttpRouter.h:77-84 | A new child keeps its siblings in descending order of their names if and only if no nameless sibling of its priority stands in front of the place upper_bound finds |
| `HttpOrder.NamelessMisleads` | FrontServer/include/uWebsockets/HttpRouter.h:77-84 | Such a sibling stands in front of that place if and only if bisection on its way to it looks at no sibling, or the last it looks at belongs in front of the new child; which one that is follows from the number of siblings and where the nameless one stands |
| `HttpOrder.NamelessGetsInTheWay` | FrontServer/include/uWebsockets/HttpRouter.h:83 | This can fail: with ":x" and a nameless child there, "user" lands behind the parameter |
| `HttpOrder.StaticAndParameter` | FrontServer/include/uWebsockets/HttpRouter.h:77-84 | Of siblings in order a static name stands in front of a parameter if and only if its first character is greater than the colon |
| `HttpOrder.AddPathNamed` | FrontServer/include/uWebsockets/HttpRouter.h:67-84 | Adding a pattern makes a nameless node if and only if the pattern has an empty segment |
| `HttpOrder.AddPathKeepsRuns` | FrontServer/include/uWebsockets/HttpRouter.h:67-84 | Adding any pattern keeps siblings in this order everywhere |
| `HttpOrder.AddPathDescends` | FrontServer/include/uWebsockets/HttpRouter.h:67-84 | As long as no pattern has an empty segment siblings are in descending order everywhere |
| `HttpOrder.TableIsSorted` | FrontServer/include/uWebsockets/HttpRouter.h:154-194 | The table of a tree with siblings in descending order is in order of precedence: at the first step that differs high priority, then the greater name; a pattern before its extensions; the same pattern by priority and age |
| `HttpOrder.TableIsNearlySorted` | FrontServer/include/uWebsockets/HttpRouter.h:154-194 | The table of any tree is in this order but for entries on either side of one that has an empty segment at the step at which they part |
| `HttpOrder.NamedIsSorted` | FrontServer/include/uWebsockets/HttpRouter.h:154-194 | Without empty segments that is order of precedence altogether |
| `HttpOrder.ParameterShadowsOne` | FrontServer/include/uWebsockets/HttpRouter.h:154-194 | /users/:id is called before /users/1 and behind /users/user, whichever has been added first |
| `HttpRouters.HttpRouter.Add` | FrontServer/include/uWebsockets/HttpRouter.h:230-246 | Adding a pattern for several methods puts one entry for each into the flat table, which is otherwise as it was, in the same order; with distinct methods no handler comes to stand twice under one of them |
| `HttpRouters.HttpRouter.ServedInOrder` | FrontServer/include/uWebsockets/HttpRouter.h:67-85 | After any additions the table of a method is in order of precedence, so that this is where an added entry lands: but for entries parted by an empty segment, and altogether as long as none of its patterns has one |
| `HttpRouters.GrownOnce` | FrontServer/include/uWebsockets/HttpRouter.h:230-245 | A handler added for distinct methods stands at most once under each, as all older ones do |
| `HttpRouters.CallsOnce` | FrontServer/include/uWebsockets/HttpRouter.h:212-226 | Where no handler stands twice under a method, routing calls each handler at most once |
| `Utilities.U32ToaHex` | FrontServer/include/uWebsockets/Utilities.h:28-44 | The hexadecimal digits, most significant first, within the ten octets of the buffer |
| `Utilities.U32Toa` | FrontServer/include/uWebsockets/Utilities.h:46-62 | The decimal digits, within the ten octets of the buffer |
| `Utilities.ParseDigits` | FrontServer/include/uWebsockets/Utilities.h:28-62 | Parsing undoes printing, in both bases |
| `HttpResponses.HttpResponse.WriteStatus` | FrontServer/include/uWebsockets/HttpResponse.h:332-347 | At most one status line |
| `HttpResponses.HttpResponse.WriteHeader` | FrontServer/include/uWebsockets/HttpResponse.h:350-358 | A header line, after the default status line if there is none; the response stays well-formed if and only if the body has not begun |
| `HttpResponses.HttpResponse.Write` | FrontServer/include/uWebsockets/HttpResponse.h:381-411 | A chunk, after the lines of the first one; empty data is not sent; the response stays well-formed if and only if no part of a body of announced length has been written, or the data is empty |
| `HttpResponses.HttpResponse.EndChunked` | FrontServer/include/uWebsockets/HttpResponse.h:102-124 | After the end a decoder for section 4.1 of RFC 7230 reads the body back |
| `HttpResponses.HttpResponse.EndPlain` | FrontServer/include/uWebsockets/HttpResponse.h:125-161 | Content-Length once, body behind the empty line, done exactly when the announced size is reached |
| `HttpResponses.HttpResponse.InternalEnd` | FrontServer/include/uWebsockets/HttpResponse.h:93-163 | Both ways of ending a response, with the head that results; success is a chunked end, or data taken whole without failure |
| `HttpResponses.DecodeEncoded` | FrontServer/include/uWebsockets/HttpResponse.h:398-404 | Decoding chunks gives their concatenation |
| `HttpResponses.Stream` | FrontServer/include/uWebsockets/HttpResponse.h:93-411 | Any writes and an end: the status line and the lines of a chunked response, an empty line, and a body that a decoder turns into the concatenation of the data; or the lines of a plain response and the body, if all writes were empty |
| `ResponseReading.HeadIsRead` | FrontServer/include/uWebsockets/HttpResponse.h:332-358 | Lines that are written are read back by a client, up to the empty line |
| `ResponseReading.ResponseIsRead` | FrontServer/include/uWebsockets/HttpResponse.h:93-163 | A response is read by its encoding if it is chunked, and by its Content-Length if not |
| `ResponseReading.Respond` | FrontServer/include/uWebsockets/HttpResponse.h:93-411 | Status, headers, any pieces and an end: a client of sections 3 and 3.3.3 of RFC 7230 reads the status, the headers, the lines of the program, and the concatenation of the pieces as the body |
| `ResponseReading.DigitsAreWorth` | FrontServer/include/uWebsockets/Utilities.h:28-44 | The digits of both bases, in either case, have the values from 0 to 15 |
| `Sha1.TurnedIsRound` | FrontServer/include/uWebsockets/WebSocketHandshake.h:47-73 | A round on registers that rotate through the array is a round of FIPS 180-4 section 6.1.2 |
| `Sha1.KIsRoot` | FrontServer/include/uWebsockets/WebSocketHandshake.h:48-73 | The constants are the square roots of 2, 3, 5 and 10, times 2^30, rounded down |
| `Sha1.WindowLater` | FrontServer/include/uWebsockets/WebSocketHandshake.h:43-45 | The circular schedule of sixteen words holds the next word of the schedule of eighty |
| `Sha1.ChooseFast` | FrontServer/include/uWebsockets/WebSocketHandshake.h:50-58 | The shortened choice function is Ch |
| `Sha1.MajorityFast` | FrontServer/include/uWebsockets/WebSocketHandshake.h:64-68 | The shortened majority function is Maj |
| `Sha1.Sha1Block` | FrontServer/include/uWebsockets/WebSocketHandshake.h:80-88 | In place, the hash value is compressed with one block as FIPS 180-4 says |
| `Handshake.Base64Encode` | FrontServer/include/uWebsockets/WebSocketHandshake.h:90-103 | Shifts and masks give the base64 of 20 octets (section 4 of RFC 4648) |
| `Base64Reading.AlphabetIsWorth` | FrontServer/include/uWebsockets/WebSocketHandshake.h:91 | The characters stand for 0 to 63 in the order of section 4 of RFC 4648 |
| `Base64Reading.DecodeEncoded` | FrontServer/include/uWebsockets/WebSocketHandshake.h:90-103 | A decoder written in numbers gives back the octets, however many they are |
| `Handshake.PaddedIsTwoBlocks` | FrontServer/include/uWebsockets/WebSocketHandshake.h:109-119 | Key and identifier padded as FIPS 180-4 section 5.1.1 says are the two blocks that are used |
| `Handshake.FirstWords` | FrontServer/include/uWebsockets/WebSocketHandshake.h:109-116 | The constants of the first block are the identifier and the beginning of the padding |
| `Handshake.GuidIsText` | FrontServer/include/uWebsockets/WebSocketHandshake.h:109-112 | The octets are those of the identifier of section 1.3 of RFC 6455 |
| `Handshake.Generate` | FrontServer/include/uWebsockets/WebSocketHandshake.h:105-129 | For every key of 24 octets the accept key is base64 of SHA-1 of key and identifier (section 4.2.2 of RFC 6455) |
| `Loops.DoKeeps` | FrontServer/include/uWebsockets/Loop.h:29-43 | Every step of every thread keeps executed, rest of the draining queue and current queue together equal to all that was deferred |
| `Loops.RunKeeps` | FrontServer/include/uWebsockets/Loop.h:29-43 | Over every interleaving callbacks run in the order of the mutex, each at most once |
| `Loops.DeferredIsPushed` | FrontServer/include/uWebsockets/Loop.h:139-145 | What is deferred is what the threads have pushed, in that order |
| `Loops.AllServed` | FrontServer/include/uWebsockets/Loop.h:29-43 | When every wakeup has been served both queues are empty and everything deferred has run exactly once, in order |
| `Loops.LoopGetsOn` | FrontServer/include/uWebsockets/Loop.h:29-43 | While something is pending the loop's own thread always has a step to take |
| `Loops.LoopData.Push` | FrontServer/include/uWebsockets/Loop.h:139-145 | defer with the mutex held is one step of the model |
| `Loops.LoopData.Swap` | FrontServer/include/uWebsockets/Loop.h:32-36 | The swap with the mutex held is one step of the model |
| `Loops.LoopData.CallNext` | FrontServer/include/uWebsockets/Loop.h:39-41 | One turn of the drain loop is one step of the model |
| `Loops.LoopData.Clear` | FrontServer/include/uWebsockets/Loop.h:42 | Clearing the drained queue is one step of the model |

## Left out

- The client side of the receive path (`isServer` false), and compression: zlib is foreign, and a head of the 126 or 127 form that is split makes `setCompressed` run twice, which only matters with compression.
- Null handlers, and handlers that call back into the structure that called them; what a close handler does is not looked at.
- Widths of `unsigned int`: `maxPayloadLength + 14`, lengths of chunks and the number of published messages are taken to stay below 2^32.
- TopicTrees.TopicTree.Publish: asks for at most 64 nodes triggered once the message stands everywhere, and for no child + on the literal way of the topic if there are exactly 64, because the array holds 64 and the code looks at the limit only on entry to the recursive function; that more than 64 cannot be listed at all is `TriggeredAreListed`.
- TopicTrees.TopicTree.PublishFrom: does not contain the drain on entry, which under that condition can only be met by the outermost call; `Publish` makes it there.
- TopicTrees.TopicTree.UnsubscribeAll: is written as one loop for each value of `mayFlush`.
- TopicTrees.TopicTree.Unsubscribe: does not say that naive delivery is left alone when nothing is removed other than by leaving the history as it is.
- TopicMerge.Merge: the 64-bit mask of an intersection is a set of indices.
- `std::set`, `std::map` and `std::list` are sorted sequences, maps and sequences; addresses of subscribers are numbers below `UINTPTR_MAX`, and the memory of freed nodes is not modelled.
- WebSocketChannels.Channel.OnData: what is reported while a chunk is parsed is answered when the parser is done rather than in between, which makes no difference to the stream, as the socket is corked meanwhile and handlers send nothing.
- WebSocketChannels.Channel.OnWritable: handlers say what becomes of the socket, but do not send; an application's own sends are `AsyncSockets.RunOps`.
- AsyncSockets.AsyncSocket.Send: takes the masking key of formatMessage, which a server does not use, as a parameter, and compression as off.
- Timeouts and the peer's FIN are closes of the socket; everything else in `libusockets.h` is not modelled. A socket write takes any number of the octets it is offered, which is a parameter.
- HttpParsers.HttpParser.ConsumePostPadded: request and data handlers return the socket they were given, so upgrades out of the parser are not followed; PROXY protocol is compiled out.
- WebSocketLife.Live: is the life of one WebSocket; the other members of the tree and the other sockets of the loop do nothing meanwhile (what sockets of a loop do to each other is `SocketLoops.RunLoop`). Publishing in between, which changes no set, is `TopicTrees.TopicTree.Publish`.
- HttpParsers.HttpParser.ConsumeKept: works on a copy with padding in place of the string's reserved space.
- HttpRouters.HttpRouter.ExecuteHandlers: the nodes of the tree are values, so that adding a pattern makes a new tree.
- HttpRouters.HttpRouter.Add: the priorities are the three that are named.
- `writeHeader` with a number, `writeContinue`, `upgrade` and corking by a response: they add nothing but further writes, or leave HTTP.
- HttpResponses.HttpResponse.EndPlain: how much of optional data the socket takes is a parameter.
- HttpResponses.HttpResponse.InternalEnd: timeouts, `onWritable` and `onAborted` are not modelled.
- Handshake.Generate: the word array is read out into octets rather than reinterpreted in place.
- Loops.AllServed: wakeups that arrive while one is pending are one wakeup.
- `App.h`, `HttpContext.h`, `WebSocketExtensions.h`, `ProxyParser.h`, `PerMessageDeflate.h`, `f2/function2.hpp` and `decimal.h`: wrappers, heuristics, foreign code, or floating point decided by the platform.
- The application under `platform/`, which forwards and prints over libraries that are not part of this model.
