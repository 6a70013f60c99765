# A verified model of nng-core

nng-core implements the Scalability Protocols wire protocol in layers: a byte
codec, a resumable framed transport, protocol state machines, and sockets that
drive them over one or several peers. This project models those layers in Dafny
and proves what they are for. `dafny verify dfyconfig.toml` checks all of it.

The transport is modelled over a byte stream that is an oracle: each read hands
out any number of bytes it likes, is not ready, is at its end, or fails, and each
write takes any part of what it is offered, nothing, or fails. All schedules are
arbitrary, so every theorem about "a stream" is about every chunking, every
partial write, every failure, and every moment at which a receive future may be
dropped.

| file | what it holds |
|---|---|
| `Bytes.dfy` | bytes, 32- and 64-bit numbers, big-endian fields |
| `Framing.dfy` | the plain frame parser, which says what a byte stream means |
| `Codec.dfy` | `encode_frame`, `decode_frame` |
| `Message.dfy` | the heap message, the fixed-buffer message, and their equivalence |
| `Transport.dfy` | the stream oracle; one poll of `recv` as a function; chunking, sending, and exactly when each succeeds |
| `FramedTransport.dfy` | `recv_inner`, `send`, `BufferPool` as written, proved equal to those functions |
| `Awaiting.dfy` | waiting for one peer |
| `ReqRep.dfy`, `ReqRepSystem.dfy`, `Req0.dfy` | request IDs; client, two channels and server as a step system; the `request` loop as a run of it |
| `Survey.dfy` | survey IDs and the collection of answers |
| `TopicFilter.dfy`, `PubSub.dfy` | the subscription set; publisher and subscriber over whole runs |
| `Bus.dfy` | the fan-out loop with `swap_remove`, `recv_any` |
| `PushFan.dfy`, `PullFan.dfy` | round robin; reader tasks and bounded channel in every interleaving |
| `Reconnect.dfy` | exponential backoff; a socket over a succession of connections |

Three conventions. A transport is a value, `Conn`: the bytes of the current frame,
all bytes ever read, and its stream; sockets with several peers hold a sequence of
such values, as the program owns its transports by value, and `FramedTransport` is
the class that is proved to behave as that value does. A protocol state machine
step is an answer and a list of buffer operations, so that it means the same on
both kinds of message. A future that stays pending is a bounded number of polls,
or a script of what happens next, after which the caller drops it; both are
parameters. Automatic induction is switched off on every lemma, so each proof that
needs induction shows it.

Standards: framing is that of the nanomsg draft sp-tcp-mapping-01, its section
"Message delimitation" (plus the type byte of NNG's IPC format); request IDs and
their high bit follow the draft sp-request-reply-01.

## Where the code and its documentation differ

The model follows the code.

- The documentation of the request counter says that replies can be correlated by
  it. IDs run up to 2^32 - 1, but the ID in a reply is masked to 31 bits, so a reply
  is accepted for exactly the IDs below 2^31 (`ReqRep.RoundTripAccepted`; the first ID
  refused is in `ReqRep.FirstUnansweredCall`). Every reply returned is the right one in
  runs of at most 2^32 - 1 calls, and that bound is exact
  (`ReqRepSystem.BoundIsExact`, with the failing run of `ReqRepSystem.WrongRun`).
- `max_attempts` is documented as the maximum number of attempts. It is one exactly
  when it is not 0 (`Reconnecting.AttemptsWithinLimitIff`); a limit of 0 makes one
  attempt (`Reconnecting.ZeroLimitMakesOneAttempt`).
- `survey_with_timeout` collects "all responses arriving" in time. A respondent's
  response is collected exactly when it is the first frame on its unread stream
  (`Survey.ContributionIsExact`); a stale one in front uses up its turn
  (`Survey.StaleAnswerUsesUpTurn`).
- `pull_any` documents an error once all senders are gone. The fan keeps a sender of
  its own, so the channel is never closed and the error never comes
  (`PullFan.ChannelNeverCloses`, `PullFan.Pull0Fan.PullAny`).
- The fixed-buffer message documents a body capacity of 3N/4, less the bytes trimmed.
  It is N - N/4, which is 3N/4 exactly when 4 divides N
  (`Messages.DocumentedCapacityIff`); a buffer of 5 takes 4 bytes
  (`Messages.FiveByteBufferTakesFour`).

## Model

| member | source | states |
|---|---|---|
| Codec.EncodeFrame | src/codec.rs:167-178 | the output is the 8-byte big-endian length of header and body, then header, then body, and decodes to exactly that payload with nothing left over |
| Codec.DecodeFrame | src/codec.rs:189-201 | incomplete, or the payload at the front and the bytes it used, as `Decode` says |
| Codec.DecodeInvertsEncode | src/codec.rs:167-201 | decoding an encoded frame, whatever follows it, gives the payload and the frame's length |
| Codec.DecodeIsCanonical | src/codec.rs:189-201 | decoding accepts nothing but encodings: re-encoding the result gives the bytes used |
| Codec.DecodeStable | src/codec.rs:186-201 | a success is unchanged when more bytes arrive |
| Codec.EncodingIsPrefixFree | src/codec.rs:163-178 | one encoding is a prefix of another only if the payloads are equal |
| Codec.IncompleteMeansNoFrame | src/codec.rs:186-201 | `Incomplete` exactly when no complete frame is at the front, for every length a u64 can declare |
| Codec.DecodeAllInvertsWire | src/codec.rs:167-201 | repeated decoding of concatenated encodings gives back every message in order and leaves nothing |
| Codec.ParseIsDecoding | src/transport.rs:303-345 | the receiver's parse of a TCP stream is repeated `decode_frame`, messages and tail, exactly when no header declares more than the limit |
| Codec.ReceiverRefinesDecoder | src/transport.rs:273-346 | over any reads, suspensions and polls, what a TCP receiver has reported and still holds is what repeated `decode_frame` makes of the bytes it has read, exactly when no header is over the limit |
| Framing.FrameParses | src/transport.rs:201-217 | a sent frame parses to its payload if that is at most 2^30 bytes, and is rejected by its length otherwise, in both formats |
| Framing.PayloadFrameIsCanonical | src/transport.rs:303-345 | conversely, what parses to a payload is exactly that payload's frame |
| Framing.WireParses | src/transport.rs:273-346 | consecutive frames parse to all payloads in order, with no rest |
| Framing.ParseAppend | src/transport.rs:221-228 | parsing may be interrupted at any byte: the incomplete tail is all that has to be kept |
| Framing.ParsePrefix | src/transport.rs:273-346 | what has been parsed of part of a stream is a prefix of what the whole stream parses to |
| Framing.IpcReceiverOnTcpStream | src/transport.rs:303-316 | an IPC receiver given nine bytes of any TCP-framed stream rejects the first frame with type byte 0 |
| Framing.TcpReceiverOnIpcStream | src/transport.rs:303-321 | a TCP receiver on any IPC-framed stream rejects the first frame as too large: its declared length is at least 2^56 |
| Messages.Message.PushBack | src/message.rs:135-137 | appends to the body, leaves the header |
| Messages.Message.HeaderPushBack | src/message.rs:101-103 | appends to the header, leaves the body |
| Messages.Message.TrimFront | src/message.rs:148-150 | drops the first n body bytes, leaves the header |
| Messages.ZeroCopyMessage.constructor | src/message.rs:283-290 | empty header, empty body right behind the header region |
| Messages.ZeroCopyMessage.PushBack | src/message.rs:429-434 | panics exactly when the bytes do not fit, otherwise writes them behind the body; keeps the index order |
| Messages.ZeroCopyMessage.HeaderPushBack | src/message.rs:436-444 | panics exactly when the bytes do not fit the header region, otherwise writes them there; keeps the index order |
| Messages.ZeroCopyMessage.TrimFront | src/message.rs:450-456 | panics exactly when fewer than n body bytes are left, otherwise moves the body's start; keeps the index order |
| Messages.ZcStepRefines | src/message.rs:420-457 | one operation keeps `h_end <= N/4 <= b_start <= b_end <= N` and has the heap message's effect; it fails exactly when the heap message's does or the bytes do not fit |
| Messages.ZcRunRefines | src/message.rs:420-457 | the same for every list of operations from every state, with the exact condition on the bytes pushed |
| Messages.NewMessageCapacity | src/message.rs:275-306 | a new fixed-buffer message overflows exactly when more than N/4 header bytes or N - N/4 body bytes are pushed in all; trimmed space is not reused |
| Messages.WordFitsIff | src/message.rs:436-444 | appending a protocol word to a fixed buffer's header overflows exactly when the header region has no room for it, and otherwise has the heap message's effect |
| Messages.DocumentedCapacityIff | src/message.rs:255-301 | a new message takes exactly the bodies of up to 3N/4 bytes if and only if 4 divides N |
| Messages.FiveByteBufferTakesFour | src/message.rs:255-301 | a buffer of 5 bytes takes a body of 4, though 3 * 5 / 4 is 3 |
| Messages.SixteenBytesAreEnough | src/message.rs:255-260 | a new message holding any body that fits has room for one 4-byte protocol word exactly when N >= 16 |
| Transport.PollFromParses | src/transport.rs:273-346 | one poll, with any reads: the bytes taken, put behind the part in hand, parse to exactly the event reported and the part kept |
| Transport.PollParses | src/transport.rs:273-346 | a poll loses nothing and reports nothing twice: messages reported and partial state account for exactly the bytes read, and after a message no byte of the next frame has been taken |
| Transport.ChunkingDoesNotMatter | src/transport.rs:221-231 | for every stream, every split into reads and every schedule of dropped and resumed receives, the events are those of the plain parse of the bytes read |
| Transport.ReceivedIsPrefixOfSent | src/transport.rs:273-346 | a receiver on a stream of frames reports a prefix of the payloads, and all of them once all is read |
| Transport.IpcReceiverRejectsTcpStream | src/transport.rs:285-316 | over any polls, an IPC receiver on a TCP-framed stream reports nothing before nine bytes, and then first of all a bad type byte 0 |
| Transport.TcpReceiverRejectsIpcStream | src/transport.rs:285-321 | over any polls, a TCP receiver on an IPC-framed stream reports nothing before eight bytes, and then first of all a frame too large, of at least 2^56 bytes |
| Transport.ReadyFrameComes | src/transport.rs:285-345 | a poll delivers the frame whose bytes are on the stream, and then the schedule was to bring them in time; or fails, and then it was not; or uses up one poll and leaves the question open |
| Transport.PollStops | src/transport.rs:285-339 | a poll that reports no frame is closed exactly at the end of the stream, an I/O error exactly at a fault, and pending otherwise; it does not read past either |
| Transport.SendWritesOneFrame | src/transport.rs:201-217 | a send that succeeds has written one whole frame; one that fails, a proper prefix of it |
| Transport.SendIsDecided | src/transport.rs:201-217 | for every stream and message the write schedule decides: the send succeeds if and only if the schedule takes the frame, by writes of whatever sizes; it ends as closed exactly at a refused write and with an I/O error exactly at a failed one, and exactly the bytes taken before are out |
| Transport.WriteAllEnds | src/transport.rs:440-450 | the same of one `write_all` |
| Transport.AcceptingStreamSends | src/transport.rs:201-217 | a stream that always takes something takes every message |
| Transport.SendEachWrites | src/transport.rs:201-217 | so for any list of messages: the wire of all of them, or a proper prefix of it |
| Transport.SendThenReceive | src/transport.rs:201-346 | any messages, any partial writes, any partial reads, both formats: the receiver reports a prefix of the `header ++ body` sent, also if the sender breaks off, and all of it once everything sent is read |
| FramedTransports.FramedTransport.constructor | src/transport.rs:190-194 | a transport after the handshake has read nothing and holds no part of a frame |
| FramedTransports.FramedTransport.Recv | src/transport.rs:229-231 | one poll of `recv` is `Poll` on the transport's value, from every point where a future can have been dropped, and leaves it at such a point |
| FramedTransports.FramedTransport.RecvPooled | src/transport.rs:259-266 | the same result whatever the pool holds; the pool gives up at most buffers |
| FramedTransports.FramedTransport.RecvInner | src/transport.rs:273-346 | the resumable loop over `phase`, `len_filled`, `body_filled` computes the plain parser's poll |
| FramedTransports.FramedTransport.ReceiveLoop | src/transport.rs:243-256 | any mix of `recv` and `recv_pooled`, with messages recycled, each future dropped if pending: the events are those of the plain parse |
| FramedTransports.FramedTransport.ReadHeader | src/transport.rs:285-301 | fills the header buffer in steps; every step keeps what the poll has to come to |
| FramedTransports.FramedTransport.CheckHeader | src/transport.rs:303-321 | rejects a complete header exactly as the plain parser does |
| FramedTransports.FramedTransport.AllocBody | src/transport.rs:230-265 | a body buffer of the declared length, new or from the pool |
| FramedTransports.FramedTransport.ReadBody | src/transport.rs:328-339 | fills the body in steps; every step keeps what the poll has to come to |
| FramedTransports.FramedTransport.WriteAll | src/transport.rs:440-450 | repeated partial writes come to writing the buffer, or stop at the first write of nothing or error |
| FramedTransports.FramedTransport.Send | src/transport.rs:201-217 | type byte, length, header and body in turn, skipping empty parts, is one send of the whole; it succeeds exactly when the write schedule takes the frame |
| FramedTransports.BufferPool.Recycle | src/transport.rs:408-413 | keeps the buffer exactly when there is room for it and it is not too large; the pool's bounds hold |
| FramedTransports.BufferPool.Take | src/transport.rs:427-429 | the buffer recycled last, or an empty one |
| Awaiting.AtMostOneMessage | src/socket/survey0.rs:169-189 | waiting for a peer takes at most one message from its stream and loses nothing else it read |
| Awaiting.AwaitIsFirst | src/socket/survey0.rs:169-201 | waiting ends with the first poll that is not pending, if there is one in time |
| Awaiting.ReadyMessageArrives | src/socket/survey0.rs:169-201 | a message all of whose bytes are on the stream is received within the rounds if and only if the schedule of reads, of whatever sizes, brings them all by then |
| ReqRep.IssuedIdIs | src/protocols/reqrep.rs:88-94 | the k-th ID is 1 + k mod (2^32 - 1), so never zero |
| ReqRep.SameIdMeansFarApart | src/protocols/reqrep.rs:64-67 | two calls have the same ID exactly when a multiple of 2^32 - 1 apart |
| ReqRep.AcceptedIds | src/protocols/reqrep.rs:88-120 | which earlier call's ID can pass a later call's check: only one at least 2^31 - 1 calls older, and none for IDs from 2^31 on |
| ReqRep.HighBitIsBitwise | src/protocols/reqrep.rs:92-112 | the arithmetic of setting and stripping the high bit is the bit operations, for every ID |
| ReqRep.Req0State.PrepareOutgoing | src/protocols/reqrep.rs:88-95 | appends the ID with its high bit set to the header and moves to the next ID |
| ReqRep.Req0State.ProcessIncoming | src/protocols/reqrep.rs:102-120 | too short, mismatch or match; the word is consumed unless too short |
| ReqRep.Rep0State.ProcessIncoming | src/protocols/reqrep.rs:159-169 | takes the 4-byte routing word off the body, or reports that it is too short |
| ReqRep.Rep0State.PrepareReply | src/protocols/reqrep.rs:175-177 | appends the routing word to the header |
| ReqRep.ReplyArrives | src/protocols/reqrep.rs:102-120 | what the client makes of a reply to one ID while it waits for another, body included |
| ReqRep.RoundTripAccepted | src/protocols/reqrep.rs:88-120 | the round trip is accepted exactly for the IDs below 2^31 |
| ReqRep.FirstUnansweredCall | src/protocols/reqrep.rs:88-118 | the call whose ID is 2^31: the answer to it is taken for one to ID 0 and refused |
| ReqRep.StepsOnFixedBuffer | src/protocols/reqrep.rs:88-177 | on a fixed buffer, stamping a request or a reply gives the heap message's header and body exactly when four header bytes are free; accepting one always does |
| ReqRep.RoundTripOnFixedBuffers | src/protocols/reqrep.rs:88-177 | the whole round trip on fixed buffers: the same words on the wire, the same bodies, accepted for exactly the same IDs |
| ReqRepSystem.StepKeepsInv | src/socket/reqrep0.rs:85-109 | every step of client, channels and server keeps: each message in flight is what its origin says, each reply returned passed the ID check |
| ReqRepSystem.RunKeepsInv | src/socket/reqrep0.rs:85-109 | so over every run: timeouts, resends, requests never answered, calls given up, lost connections; and history is never rewritten |
| ReqRepSystem.RepliesAreOwn | src/socket/reqrep0.rs:75-84 | in every run of at most 2^32 - 1 calls, a reply returned by a call is one the server produced for that call's own body, and no call returns twice |
| ReqRepSystem.InvGivesOwnReplies | src/socket/reqrep0.rs:75-84 | the invariant alone gives it, for any state with at most 2^32 - 1 calls |
| ReqRepSystem.OnlyVeryOldRepliesAreTakenForNew | src/socket/reqrep0.rs:99-106 | in runs of any length, a reply returned is the call's own or at least 2^31 - 1 calls old; calls with IDs from 2^31 on never return |
| ReqRepSystem.RepliesAreLongEnough | src/protocols/reqrep.rs:107-109 | a reply in flight is never too short for its ID |
| ReqRepSystem.StaleRepliesAreSkipped | src/socket/reqrep0.rs:92-107 | a waiting call returns the first reply in its channel that passes the check; all before it are discarded and nothing else is |
| ReqRepSystem.RetryIsAnswered | src/socket/reqrep0.rs:75-98 | from every state in which a call waits, whatever was in flight or lost: after a reconnect, a resend, and an answer, the call has returned the server's answer to its own body, exactly for the IDs below 2^31 |
| ReqRepSystem.CallIsAnswered | src/socket/reqrep0.rs:85-103 | a call on an idle connection returns the server's answer to its body |
| ReqRepSystem.BoundIsExact | src/socket/reqrep0.rs:75-84 | replies are never mixed up in runs of at most n calls if and only if n <= 2^32 - 1 |
| ReqRepSystem.WrongRun | src/protocols/reqrep.rs:112-118 | a run in which a late reply is returned to a call that is not its own, for any two calls whose IDs collide under the mask |
| Req0Socket.Req0.Request | src/socket/reqrep0.rs:85-109 | the loop as written is a run of the step system that follows the script to where it stops; the ID is stamped once; with at most 2^32 - 1 calls a reply it returns is the server's answer to this very request; it never ends in a protocol violation; with a resend time and an ID below 2^31, wherever in the script a retry is answered, the call has returned by then, with that answer if with it |
| Req0Socket.Req0.Receive | src/socket/reqrep0.rs:95-106 | a reply is returned, skipped as stale, or ends the call as too short |
| Survey.Surveyor0State.PrepareSurvey | src/protocols/survey.rs:90-96 | appends the next ID to the header and makes it the current one |
| Survey.Surveyor0State.ProcessResponse | src/protocols/survey.rs:103-116 | too short, stale or current; the word is consumed unless too short |
| Survey.Respondent0State.ProcessIncoming | src/protocols/survey.rs:156-166 | takes the 4-byte ID off the body, or reports that it is too short |
| Survey.Respondent0State.PrepareResponse | src/protocols/survey.rs:172-174 | appends the ID to the header |
| Survey.Respond | src/socket/survey0.rs:214-219 | the answer goes out as one frame, the ID in front of it |
| Survey.SurveyRoundTrip | src/protocols/survey.rs:90-116 | the round trip is accepted exactly when the answer is to the current survey, for every ID |
| Survey.SurveyStepsOnFixedBuffer | src/protocols/survey.rs:90-116 | the survey's steps on a fixed buffer: the heap message's header and body, with the exact condition for stamping |
| Survey.Surveyor0.SurveyWithTimeout | src/socket/survey0.rs:144-203 | polling all respondents together, round after round, gives the same answers and leaves the same streams as waiting for each alone; at most one answer each |
| Survey.Surveyor0.SendPass | src/socket/survey0.rs:154-159 | exactly the respondents the survey could be sent to are pending, each at the start of its wait |
| Survey.Surveyor0.PollRound | src/socket/survey0.rs:171-190 | one round polls every pending respondent once and keeps count of answers got and answers still to come |
| Survey.PollStep | src/socket/survey0.rs:172-189 | one poll moves a respondent to done or keeps it waiting; nobody is polled twice in a round |
| Survey.OneAnswerEach | src/socket/survey0.rs:169-189 | at most one answer per respondent |
| Survey.FirstFrameDecides | src/socket/survey0.rs:173-189 | what is got from a respondent is the first frame on its unread stream, or nothing |
| Survey.IncludedExactlyIfFirst | src/socket/survey0.rs:179-185 | whatever the first unread frame is: of those heard from, exactly those are included whose first frame starts with the current ID |
| Survey.ReadableAnswerIsIncluded | src/socket/survey0.rs:161-201 | a respondent whose first unread frame is complete on its stream is included if and only if that frame starts with the current ID and arrives before the deadline |
| Survey.ContributionIsExact | src/socket/survey0.rs:161-201 | what a survey gets from a respondent, for every stream and every schedule, read off the stream |
| Survey.ReceivedWasFirst | src/socket/survey0.rs:173-189 | a message received is the first one on the unread stream |
| Survey.StaleAnswerUsesUpTurn | src/socket/survey0.rs:179-185 | with a stale answer in front, the current one behind it is not included, however long the survey waits |
| Survey.RunSurvey | src/socket/survey0.rs:137-203 | as a multiset, the survey returns exactly what the respondents it could be sent to contribute; so each of them with an empty inbound queue and an answer readable before the deadline is in it; every message in it carried the current ID and is the one message read from some respondent; no respondent gives up more than one |
| TopicFilter.PrefixSortsFirst | src/protocols/pubsub.rs:102-106 | a prefix sorts no later than what it is a prefix of |
| TopicFilter.InsertLaw | src/protocols/pubsub.rs:93-95 | insertion keeps the order strict and adds exactly the topic |
| TopicFilter.RemoveLaw | src/protocols/pubsub.rs:98-100 | removal keeps the order strict and removes exactly the topic |
| TopicFilter.ScanIsComplete | src/protocols/pubsub.rs:111-116 | the range scan finds a prefix exactly when some subscribed topic is a prefix of the body |
| TopicFilter.HistoryDecides | src/protocols/pubsub.rs:93-100 | after any changes a topic is in the set exactly when the last change naming it subscribed it |
| TopicFilter.FilterIsExact | src/protocols/pubsub.rs:93-116 | after every sequence of changes, the scan agrees with the naive test over that history |
| TopicFilter.Sub0State.SubscribeTo | src/protocols/pubsub.rs:93-95 | adds exactly the topic; a repeated one changes nothing |
| TopicFilter.Sub0State.UnsubscribeFrom | src/protocols/pubsub.rs:98-100 | removes exactly the topic |
| TopicFilter.Sub0State.MatchesMessage | src/protocols/pubsub.rs:111-123 | true exactly when some topic whose last change was a subscription is a prefix of the body; never when the set is empty |
| PubSub.Pub0.Publish | src/socket/pubsub0.rs:66-77 | newcomers first; then the subscribers are, as a multiset, exactly those on whom every message since they joined was sent with success |
| PubSub.RemainingAfter | src/socket/pubsub0.rs:66-77 | publishing one more message is one more send on each who remained |
| PubSub.Sub0.NextMessage | src/socket/pubsub0.rs:179-199 | returns what the step-by-step search returns; all messages read are noted with the subscriptions at the time, those returned are exactly the matching ones; connections never mix |
| PubSub.Sub0.Step | src/socket/pubsub0.rs:180-197 | one turn of the loop: read, filter, or replace the transport |
| PubSub.Sub0.Recover | src/socket/pubsub0.rs:187-196 | after an error: the error itself if no reconnect is configured, else a new connection or the reconnect's own error |
| PubSub.NextFollowsStream | src/socket/pubsub0.rs:179-199 | what `next` comes to, by the stream: it waits for the next message or error; a matching message is returned, after another it goes on with the polls left, and so after an error recovered from |
| PubSub.MatchingMessageIsReturned | src/socket/pubsub0.rs:179-186 | a matching message all of whose bytes arrive in time, with nothing before it, is returned |
| PubSub.ErrorIsRecovered | src/socket/pubsub0.rs:187-196 | without a reconnect the error comes back at once; with one, a new connection on the first stream accepted, or the reconnect's error, or nothing yet |
| PubSub.SubscriberGetsWhatMatches | src/socket/pubsub0.rs:179-199 | a subscriber that stays connected has read the first of the messages published since it joined, in order, without a gap, and all of them once every send succeeded and the stream is used up; it returned exactly those that matched its subscriptions when it read them |
| Bus.FanOut | src/socket/bus0.rs:92-102 | every peer is tried exactly once, and as a multiset exactly those whose send succeeded remain |
| Bus.SurvivorsOfPermutation | src/socket/bus0.rs:92-102 | what becomes of the peers does not depend on the order in which removal leaves them |
| Bus.Bus0.Broadcast | src/socket/bus0.rs:92-102 | the peers left are those the broadcast reached |
| Bus.Bus0.RecvAny | src/socket/bus0.rs:108-132 | every peer is accounted for: in each round each is polled once, those dropped have failed, the message comes from one peer at its turn, `NoPeers` if and only if none is left |
| Bus.Bus0.PollAll | src/socket/bus0.rs:114-129 | one round over a list that shrinks while it is walked: the peer moved into a gap still gets its turn |
| Bus.SurvivorsAreReached | src/socket/bus0.rs:92-102 | on framed transports a fan-out keeps exactly the peers whose write schedules take the frame, each with the whole frame on its wire and nothing else changed |
| Bus.NotYetMeansNoneArrived | src/socket/bus0.rs:113-129 | a call that ends without a message leaves none behind that a listed peer's schedule brought in its rounds |
| Bus.OnlyOneMessageIsTaken | src/socket/bus0.rs:108-132 | after a delivery, its peer has given up exactly that message and every other listed peer nothing, with no partial read lost |
| Bus.WaitingLosesNothing | src/socket/bus0.rs:116-119 | polling a peer that is not ready loses no partial read |
| Bus.DeliveryTakesOneMessage | src/socket/bus0.rs:120-122 | the peer that delivers gives up exactly its next message |
| PushFan.Push0Fan.Push | src/socket/pipeline0.rs:122-129 | `NoPeers` exactly without workers; otherwise one attempt on the worker whose turn it is, and the turn passes on; success exactly when the whole frame is out on that worker's wire, an error exactly when a proper prefix is |
| PushFan.RoundRobin | src/socket/pipeline0.rs:122-129 | whichever sends fail: what is attempted on a worker is exactly every n-th message from its first turn on, in order |
| PushFan.SharesPartition | src/socket/pipeline0.rs:100-101 | message k is in share k mod n only, at place k / n |
| PushFan.SharesAreBalanced | src/socket/pipeline0.rs:100-101 | the sizes of any two shares differ by at most one |
| PushFan.WorkerReceivesItsShare | src/socket/pipeline0.rs:122-129 | from a new fan, a worker whose sends succeed has messages i, i+n, i+2n, ... on its stream as whole frames |
| PullFan.StepKeepsInv | src/socket/pipeline0.rs:220-249 | every step of reader tasks, channel and `pull_any` conserves each sender's messages and the channel's bound |
| PullFan.EveryInterleavingConserves | src/socket/pipeline0.rs:220-260 | in every interleaving, for each sender: pulled, then queued, then in its reader's hand, are exactly the messages received, in order; the queue never exceeds its capacity |
| PullFan.EverythingCanBePulled | src/socket/pipeline0.rs:220-260 | no reachable state is a dead end: for every reader there is a run after which all its connection yields, up to its error, has been pulled |
| PullFan.NewConnectionCanBePulled | src/socket/pipeline0.rs:216-249 | so for a connection just added, from the start of what it yields |
| PullFan.ArrivingMessageIsPulled | src/socket/pipeline0.rs:224-259 | a message that comes in while the channel is empty is received, sent on and pulled |
| PullFan.QueuedMessageIsPulled | src/socket/pipeline0.rs:252-259 | a queued message is pulled whatever errors are queued before it |
| PullFan.SendersCounted | src/socket/pipeline0.rs:143-158 | every step keeps the channel's count of senders one above the number of running readers: the fan's own is never dropped |
| PullFan.ChannelNeverCloses | src/socket/pipeline0.rs:252-257 | in no run does the channel report that it is closed, however many readers have finished |
| PullFan.PulledIsPrefixOfStream | src/socket/pipeline0.rs:220-260 | only what a connection yields is pulled, in order; once its reader is done and the channel empty, all of it has been |
| PullFan.PulledIsPrefixOfSent | src/socket/pipeline0.rs:220-260 | from a pusher's wire over a framed transport, its reader task and the channel: what is pulled from it is a prefix of what it sent, and once its reader is done and the channel empty, all its transport delivered |
| PullFan.ChannelIsFifo | src/socket/pipeline0.rs:252-260 | entries leave the channel in the order they entered |
| PullFan.Pull0Fan.SpawnReader | src/socket/pipeline0.rs:220-249 | one more reader, holding nothing |
| PullFan.Pull0Fan.PullAny | src/socket/pipeline0.rs:252-260 | is a run of the system; returns the next message and skips errors; stays pending only while the channel is empty, after all that happens; never returns `NoPeers`; a message that arrives on an empty channel is returned |
| Reconnecting.DelayIsBounded | src/socket.rs:814-828 | every delay between attempts is at most `max_backoff`, for all options; the one before the first attempt too exactly when `min_backoff` is |
| Reconnecting.DelaysGrow | src/socket.rs:814-828 | if `min_backoff` is at most `max_backoff`, delays never get shorter |
| Reconnecting.ReconnectHasOutcome | src/socket.rs:845-871 | said of the list of attempts: a success puts in place a new transport on the stream of the first attempt accepted, within the limit, and leaves the attempts behind it; giving up takes exactly max(limit, 1) refusals; otherwise the transport stays what it was |
| Reconnecting.OneOutcome | src/socket.rs:845-871 | that leaves no choice: it determines transport, attempts left and result |
| Reconnecting.NewConnectionStartsOver | src/socket.rs:854-859 | on the new connection the first message received is the first its peer sent, received exactly when the schedule brings it in time |
| Reconnecting.AttemptsWithinLimitIff | src/socket.rs:829-831 | with attempts to come, `max_attempts` bounds those made if and only if it is not 0 |
| Reconnecting.ZeroLimitMakesOneAttempt | src/socket.rs:861-866 | with a limit of 0 and nobody answering, one attempt is made |
| Reconnecting.ReconnectTransport | src/socket.rs:845-871 | the loop comes to that outcome; it pauses `min_backoff` before the first attempt and before each next one twice as long, capped |
| Reconnecting.Socket.DoReconnect | src/socket.rs:910-916 | a success closes the old connection with whatever part of a frame it had read |
| Reconnecting.Socket.RecvRaw | src/socket.rs:1136-1145 | one receive; after an error one reconnect and one more receive, on the first stream accepted, whose first message is the first sent on it; if the reconnect fails, the first error, and while it goes on, nothing; messages heard so far are those of each connection's own bytes |
| Reconnecting.Socket.SendRaw | src/socket.rs:1125-1134 | one send; after an error one reconnect and the whole message again on the first stream accepted; if the reconnect fails, the first error |
| Reconnecting.BytesOfConnectionsNeverMix | src/socket.rs:845-871 | over any sequence of failures, what was heard is a prefix of what the first connection's peer sent, then a prefix of the second's, and so on, in whole messages |

## Left out

- Connecting, the handshake and `expected_peer`: every transport here is past its handshake, and a dial ends in a refusal or such a transport.
- TCP, IPC, TLS, QUIC, KCP, vsock, WebSocket and UDP adapters, URL dispatch, certificates: replaced by the stream oracle.
- The runtime: wakers, `select!`, the channel's insides. What remains is that a poll may be pending, that a receive future may be dropped, and that the channel is a bounded FIFO. The clock is a number of rounds or an event in a script.
- Dropping a send in the middle: only receives are cancelled.
- Dropping `Pull0Fan`, which stops its reader tasks, and a channel of capacity 0, which the runtime refuses.
- Waiting for peers, accepting and adding peers, `recv_from`, counters of peers: they only add to or read a list.
- PAIR0, PAIR1, the single-peer PUSH and PULL sockets, builders, streams and sinks, error conversions: nothing hard in them.
- `push_front`, `header_push_front`, `header_trim_front`, `header_trim_back`, `trim_back` of the heap message: no protocol uses them.
- Overflow of a `Duration` when doubled, and of the attempt counter when there is no limit.
- A 32-bit `usize`: lengths are cast from 64 bits without loss.
- Which I/O error occurred: all are one.
- Panics: where the fixed buffer panics its methods set a flag and the operation lists give no result.
- The `MessageBuf` trait is not a trait here but the list of operations a step performs.
- Message: allocation and capacity are not modelled, except for the capacity a pooled buffer is judged by.
- Req0Socket.Req0.Request: the two nested loops are one loop over what happens next, each turn of which is one turn of the inner loop or a jump to the outer one; a transport error ends the call like a dropped future, and a reconnect inside it empties both channels.
- ReqRepSystem.ServerStep: a server handles one request at a time, as its `Responder` borrows the socket; a request too short for an ID is dropped.
- Bus.FanOut: the peers that remain are given as a multiset, since `swap_remove` changes their order.
- Survey.Surveyor0.SurveyWithTimeout: the answers are given as a multiset; in what order they come depends on who answers in which round.
- PubSub.Sub0.NextMessage: says nothing about which messages are lost between two connections; the publisher keeps no history.
- Respondent0's receive loop: the same reconnect loop as the subscriber's, around a step that is modelled.
