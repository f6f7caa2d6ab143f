# A verified model of duh.go

duh.go is a Go library for RPC over HTTP. This project models its structured streaming
protocol, its retry loop and error classification, its replies, its request size limit and
its cursor iterator in Dafny, and proves what they promise, for all inputs, all
interleavings and all runs. `dafny verify dfyconfig.toml` checks everything.

## The parts

| file | models |
|---|---|
| Prelude.dfy | options, bytes, Go's integer ranges |
| FrameCodec.dfy | the frame format of a stream as functions on bytes |
| ByteIO.dfy | writers that fail and readers that split, stall, fail and cancel; the frame writer and reader on top of them |
| StreamServer.dfy | the server side of a stream: two goroutines as program counters over a mutex, two channels, a `sync.Once` and the response writer |
| ServerSafety.dfy, ServerFrames.dfy | the invariants of every step |
| ServerRuns.dfy | the guarantees of every run: atomic frames, one terminal frame, the join |
| ServerCalls.dfy | what the server makes of its handler's calls and of the ticks of its ticker |
| StreamClient.dfy | the client side: `Recv` as a relation and as a method that stays within it |
| ClientRuns.dfy | every sequence of `Recv` and `Close` calls |
| EndToEnd.dfy | server, network and client together |
| KeepAlive.dfy | heartbeat interval against heartbeat timeout |
| Errors.dfy, ErrorChains.dfy | error chains, what they show to a caller, and the `Reply` body |
| Retry.dfy, BackOff.dfy | `retry.On` and the exponential back-off |
| MediaType.dfy, Service.dfy | content negotiation, `Reply` and its recursion, the opening of a stream |
| Classify.dfy | the client's three-stage classification of error responses, and what retry makes of it |
| LimitReader.dfy, SizeText.dfy | the request size limit and the unit in its text |
| Pagination.dfy | the cursor iterator on top of `retry.On` |

## How to read it

Server. `Advance` gives each goroutine's next step; `Do` performs one step of one of them;
`IsRun` is any interleaving from the call of the handler on. The handler is arbitrary: it
calls Send and Close in any order and any number of times and returns nil or any error. Any
write may fail, after taking none, some or all of its bytes (`AnyFailure`). The fields at the end of
`Server` are history: they record what the calls were given and returned, and no step reads
them. `IsTrace` is a run with the action of each step; `Sent`, `FirstClose` and `Returned`
are functions of the list of calls alone, and the end-to-end results are stated with them.

Errors. `Leaves` is a chain as a flat list and `Shows` is what its first duh error shows: the
status, code, message and details. The replies, the error frames, the retry decision and the
sleeps are all stated with these and with the literal statuses, keys and media types.

Network and client. The client is handed any prefix of the server's wire. `Source` scripts
how its reads split those bytes, when the context ends (the heartbeat timer or the caller)
and where reading fails; `Calm` sources do not fail. A session is any sequence of `Recv` and
`Close` calls.

What is assumed:

- marshal and unmarshal are partial inverses, and a marshalled message is shorter than 2^32
  bytes (`Lawful`); `FrameRoundTrip` shows that beyond that length a frame does not survive;
- a writer that has failed keeps failing;
- Send and Close are called only from the handler and only until it returns, as the
  interface asks;
- float64 multiplication, powers and the conversion from int64 keep order (`Ordered`), with
  any rounding; a conversion to int64 that is out of range gives any value;
- time is discrete, and the heartbeat of a tick arrives within a bounded delay (`Timely`);
- the reply that reports a marshalling error can itself be marshalled
  (`ErrorTextMarshals`); `ReplyReturnsIff` says, without this, exactly when `Reply` returns.

Where the code and its documentation disagree the model follows the code:

- docs/streaming.md:74 asks receivers to skip unknown flags; `Recv` fails
  (`FirstFrameDecides`);
- docs/streaming.md:78 promises 400 for an Accept header that is not a stream; the code
  sends 455 when `Reply` does not support the header either (`RefusalStatus`,
  `RefusedWith455`).

Edges that the statements pin down:

- a Close whose message does not marshal leaves a stream with no terminal frame at all
  (`SilentClose`; exactly when a terminal frame appears is `TerminalFrameIff`);
- a Close message that marshals to zero bytes is not delivered (`FinalMessage`);
- a body of limit + 1 bytes is accepted when its source returns the last byte together with
  io.EOF, and the largest int64 as a limit refuses every body (`ReadBody`, `OneByteOver`);
- a service 404 joined with an infrastructure error is retried (`JoinedNotFoundRetried`);
  exactly which chains are not treated like their first error is `FirstErrorDecidesIff`;
- the default back-off sleeps exactly its minimum after the first two attempts
  (`DefaultStartsAtMin`).

## Model

| member | source | states |
|---|---|---|
| FrameCodec.FrameRoundTrip | stream/stream.go:31-93 | a reader gets a frame back, and none of the bytes after it, if and only if the frame fits the 32-bit length and the reader's limit |
| FrameCodec.WireFormat | stream/stream.go:29-45 | a frame is its flag, its payload length with the most significant byte first, and its payload |
| FrameCodec.HeartbeatBytes | streaming.go:190 | a heartbeat frame is the five bytes 3 0 0 0 0 |
| FrameCodec.ParsedReencodes | stream/stream.go:62-93 | a frame that was read re-encodes to the bytes that were consumed, at least five of them, and is within the limit |
| FrameCodec.PartialFrame | stream/stream.go:62-93 | a proper prefix of a frame is io.EOF when empty, the size error once an oversize header is there, and a truncation otherwise |
| FrameCodec.DecodeRoundTrip | stream/stream.go:31-93 | every list of frames within the limit decodes to itself and then io.EOF |
| FrameCodec.DecodeTruncated | stream/stream.go:59-93 | every truncation of an encoding decodes to exactly the wholly contained frames, then io.EOF at a boundary and io.ErrUnexpectedEOF elsewhere |
| FrameCodec.DecodedReencodes | stream/stream.go:62-93 | what is decoded from any bytes re-encodes to a prefix of them, and to all of them if and only if the end is io.EOF |
| FrameCodec.EncodeAllInjective | stream/stream.go:31-45 | different lists of frames have different encodings |
| FrameCodec.DecodePrefix | stream/stream.go:62-93 | any prefix of complete frames followed by a piece of one decodes, under any limit, to a prefix of the frames |
| ByteIO.AnyFailure | stream/stream.go:36-43 | the writers of the model fail in every way io.Writer allows: after any successful writes, in one that takes any number of its bytes, none and all included |
| ByteIO.AnySplitting | stream/stream.go:62-93 | the readers of the model can split their bytes in any way, empty reads included |
| ByteIO.FrameWriter.WriteFrame | stream/stream.go:31-45 | success puts exactly the frame on the wire, failure a prefix of it, for a writer that fails in any write after any number of bytes |
| ByteIO.FrameReader.ReadFull | stream/stream.go:64 | fills the buffer with the next bytes however they are split; io.EOF only before the first byte, and failure only if the source broke or is too short |
| ByteIO.FrameReader.ReadFrame | stream/stream.go:62-93 | returns what the remaining bytes hold whatever the splitting; only a failing source turns it into ErrUnexpectedEOF |
| ByteIO.FrameReader.ReadAll | stream/stream.go:62-93 | repeated ReadFrame yields the decoding of the input for every splitting |
| ServerSafety.PutIsWriteFrame | streaming.go:97 | the write steps of a goroutine are the writes of WriteFrame |
| ServerRuns.RunInv | streaming.go:85-225 | every state of every run satisfies the lock, join, wire, terminal-frame and delivery invariants |
| ServerRuns.FrameAtomicity | streaming.go:85-128 | the wire decodes to the complete frames; a piece after them belongs to the holder of the mutex or was torn by a failed write; with the mutex free and no failure everything is flushed |
| ServerRuns.SendsOnWire | streaming.go:85-102 | the Data frames on the wire carry in order the messages whose Send returned nil, and at most one more whose Send is under way or failed |
| ServerRuns.AcceptedFlushed | streaming.go:97-101 | without write failures the flushed bytes are, in every state and whoever holds the mutex, whole frames that carry at least the messages whose Send returned nil |
| ServerRuns.TerminalSilence | streaming.go:104-128 | at most one Final or Error frame per run, not a byte on the wire after it, and no write after a failed one succeeds |
| ServerRuns.TerminalFrameIff | streaming.go:104-225 | without write failures a finished stream has a terminal frame if and only if the message that was to end it marshals, and it is that message |
| ServerRuns.SilentClose | streaming.go:112-120 | a run in which a failed final marshal leaves the wire empty although the handler returns an error |
| ServerRuns.JoinSafety | streaming.go:62-72 | no channel is closed twice, no one waits for the heartbeat while holding the mutex, a closed stream has no heartbeat, and no step is possible after HandleStream returns |
| ServerRuns.NoDeadlock | streaming.go:175-206 | until HandleStream returns some goroutine can step, and a join in progress is advanced by the heartbeat |
| ServerRuns.CallsFinish | streaming.go:67-225 | every Send, Close and return path ends within a bound computed from the state, under any scheduling, and only a finished server is stuck |
| ServerCalls.RunHasTrace | streaming.go:85-225 | every run can be labelled with its actions, so what is proved of traces holds of all runs |
| ServerCalls.EverySendAccepted | streaming.go:85-102 | between calls and at the end, without write failures, the messages whose Send returned nil, and those on the wire, are exactly the messages given to Send before any Close that marshal; with a failure they are a prefix of those |
| ServerCalls.SendReturnsNilIff | streaming.go:85-102 | a Send adds its message to those accepted if and only if the stream was open and the message marshals, among any steps of the heartbeat |
| ServerCalls.ReturnsNilIff | streaming.go:85-128 | without write failures a Send or Close returns nil if and only if it found the stream open and its message, if any, marshals |
| ServerCalls.EveryTickBeats | streaming.go:184-192 | without write failures the ticks delivered are, in every state, the Heartbeat frames on the wire and the one about to be written; with a failure there are at most that many |
| ServerCalls.TickHasFrame | streaming.go:184-192 | the k-th tick has a frame of the stream as its heartbeat, at the same place for the rest of the run |
| StreamClient.StreamReader.Recv | streaming.go:262-340 | terminates and stays within the Recv relation: pending Final, heartbeats skipped, one outcome per flag, timeouts reported when the context ended |
| StreamClient.StreamReader.ReadOne | streaming.go:273-338 | a heartbeat iteration consumes at least five bytes and changes no flag; anything else ends the call as the relation says |
| StreamClient.StreamReader.Close | streaming.go:342-346 | sets done and ends the context, and leaves the unread bytes alone |
| ClientRuns.Drive | streaming.go:262-346 | any sequence of Recv and Close calls of a streamReader is a session of the relation |
| ClientRuns.Absorption | streaming.go:262-271 | after io.EOF, an error, the Final payload or Close, every later Recv returns io.EOF and reads nothing |
| ClientRuns.TransportReport | streaming.go:287-297 | a transport error is io.ErrUnexpectedEOF or the size error by where the bytes stop making frames, and ErrHeartbeatTimeout in place of every one but a clean end exactly when timeouts are enforced and the context ended |
| ClientRuns.SessionPrefix | streaming.go:262-340 | the messages of any session are in order the first of those its bytes hold |
| ClientRuns.SessionEnd | streaming.go:287-337 | io.EOF and errors carried by frames come only after every message before them |
| ClientRuns.EofNeedsFinal | streaming.go:310-320 | without Close, io.EOF is the first terminal result only if a complete Final frame was there |
| ClientRuns.CalmSession | streaming.go:262-340 | over a network that does not fail, enough Recv calls return every message and then how the stream ended |
| ClientRuns.FirstFrameDecides | streaming.go:299-338 | a Recv answers its first frame that is no heartbeat by flag 0, 1, 2 or any other, with the exact message, end or error for each payload; only a failing reader can bring about another result |
| EndToEnd.ServerTells | streaming.go:85-225 | the frames of every reachable server mean, to a client with the same encoding, what its calls said |
| EndToEnd.EndToEndOrder | streaming.go:85-340 | for every interleaving, cut, splitting, failure and session, the messages returned are an in-order prefix of those given to Send before any Close that marshal, and the message of the first Close |
| EndToEnd.EndToEndComplete | streaming.go:200-340 | under any failures, io.EOF as first terminal result means that the client has every message given to Send before Close that marshals, and the Close message unless it is empty; the server's error comes with the code, message and details of its first duh error, or its text under code 500, and again no message is missing; every other failure is the transport's |
| EndToEnd.ToldAsPromised | streaming.go:85-225 | without write failures the frames of a finished server mean exactly what a function of its handler's calls promises: the messages sent, then the end, the error or nothing |
| EndToEnd.NothingLost | streaming.go:85-340 | with no failures and frames within the limit, enough Recv calls return every message given to Send before any Close that marshals, the Close message and the end that the calls asked for |
| EndToEnd.Consume | streaming.go:262-346 | the end-to-end order and completeness for the calls of the streamReader itself |
| KeepAlive.NoTimeout | streaming.go:170-297 | with a timeout above interval plus delay no read of an open stream times out, whenever reads are made |
| KeepAlive.KeepAliveIff | streaming.go:273-297 | interval plus delay is the exact bound for a positive timeout |
| KeepAlive.SettingsKeepAlive | streaming.go:170-173 | the exact bound for every pair of settings, where nothing or zero is 30 seconds for the interval and 60 for the timeout |
| KeepAlive.DefaultsKeepAlive | client.go:251-254 | the default settings survive exactly the delays below 30 seconds |
| KeepAlive.TwiceTheInterval | streaming.go:275-279 | a timeout of twice the interval survives exactly the delays below one interval |
| Retry.ShouldRetryIff | retry/retry.go:137-163 | for every policy and chain: without lists always, else exactly when the first duh error's status is in the one list for the origin that the first ClientError gives |
| Retry.OneListOnly | retry/retry.go:151-162 | an infrastructure error is never retried when only OnCodes is set, nor another when only OnInfraCodes is |
| Retry.RateLimitDuration | retry/retry.go:167-187 | the loop over the two keys gives the rate limit that SleepAfter describes |
| Retry.SleepAfter | retry/retry.go:205-209 | each sleep is the seconds of "ratelimit-reset" in the details of the first duh error if that is a positive number, else those of "http.retry-after", else Interval.Next; also when the seconds come to zero nanoseconds |
| Retry.OnOutcome | retry/retry.go:189-223 | every attempt but the last failed and was retried within the limit with the context alive; the result is that of the last attempt, which succeeded or was not to be retried, or the context's error, found before the next attempt or during the sleep |
| Retry.NoAttemptOnceDone | retry/retry.go:195-198 | no attempt is made once the context is found done |
| Retry.On | retry/retry.go:189-223 | calls the operation with 1, 2, ..., returns the outcome of the first attempt that succeeds, is not retryable or reaches the limit, or the context's error at the first check that sees it done; sleeps the rate limit of error i or else Interval.Next(i) |
| Retry.TraceUnique | retry/retry.go:189-223 | that description determines the result, the calls and the sleeps |
| Retry.LimitTerminates | retry/retry.go:201-203 | a non-zero limit ends the loop, and a negative one behaves as one attempt |
| Retry.FirstSuccess | retry/retry.go:195-221 | with retryable errors only, On returns the first success, or the last error allowed by the limit |
| Retry.UntilSuccess | retry/retry.go:132-144 | a policy without code lists or limit returns the first success whatever fails before it |
| Retry.TotalSleep | retry/retry.go:205-217 | k attempts without rate limits sleep between k-1 times the interval's bounds |
| BackOff.NextDelay | retry/retry.go:62-78 | the delay lies between Min and Max for every attempt, draw and out-of-range conversion |
| BackOff.NextBounded | retry/retry.go:71-77 | the delay is within the bounds if and only if Min is at most Max |
| BackOff.NextValue | retry/retry.go:62-78 | while it is within int64 the delay is Min * Factor^attempts in whole nanoseconds, with jitter the drawn fraction of it, cut to the bounds |
| BackOff.DoublesUntilMax | retry/retry.go:62-78 | without jitter a factor of two doubles the delay with every attempt until it is Max, and it stays there |
| BackOff.FiveSecondSchedule | retry/retry.go:80-85 | from 500ms to 5s the delays are 1s, 2s, 4s and then always 5s |
| BackOff.NextMonotone | retry/retry.go:62-78 | without jitter the delay does not decrease while the conversion is in range |
| BackOff.JitterStaysAtMin | retry/retry.go:64-77 | with jitter the delay stays at Min until Jitter times the exponential delay exceeds it |
| BackOff.DefaultStartsAtMin | retry/retry.go:80-85 | with float64 exact on small integers, quarters and powers of two, the default back-off sleeps 500ms after the first two attempts whatever is drawn |
| BackOff.BackOffTotal | retry/retry.go:62-217 | k attempts under a back-off sleep between (k-1)*Min and (k-1)*Max in all |
| MediaType.NormalizeCanonical | service.go:247-259 | a normalized media type is lower case without separators or surrounding space, and normalizing it again changes nothing |
| MediaType.NormalizeIgnores | service.go:255-259 | parameters, further alternatives and case do not matter |
| MediaType.NormalizeVariant | service.go:247-259 | a media type in any case and with any parameters normalizes to its name |
| MediaType.ReplyFormatIff | service.go:107-121 | exactly which normalized Accept headers are answered in JSON and which in protobuf |
| MediaType.StreamHeader | streaming.go:146-150 | application/duh-stream+json selects JSON and application/duh-stream+protobuf protobuf, in any case and with any parameters |
| MediaType.JsonByDefault | service.go:107-118 | without an Accept header, and for wildcards and JSON with any parameters, the reply is JSON |
| Service.Exchange.Reply | service.go:110-139 | terminates and writes exactly one status: the message in the negotiated encoding, a 500 if it does not marshal, a 455 for any other Accept header |
| Service.AnswerByAccept | service.go:110-139 | JSON for no header, the two wildcards and JSON, protobuf for protobuf, a 455 in JSON for any other; in each case the message itself, or a 500 with the reason if it does not marshal |
| Service.Exchange.ReplyWithCode | service.go:85-91 | the same for a reply that repeats its status as its code |
| Service.Exchange.ReplyError | service.go:96-105 | one status, with the status, code, message and details of the first duh error in the chain, else 500, the code "500" and the error's text |
| Service.Exchange.OpenStream | streaming.go:136-159 | with a flusher, application/duh-stream+json opens a JSON stream and application/duh-stream+protobuf a protobuf one, announced as such and with no status written; every other request gets exactly one reply |
| Service.RefusalStatus | streaming.go:137-156 | the refusal is 400, 455 or 500, each if and only if its condition on the writer, the header and the text holds |
| Service.RefusedWith455 | service.go:122-127 | a request for text/html is refused with 455 |
| Service.StreamFormatsAgree | client.go:232-244 | the client decodes a stream with the encoding the server selected, JSON and protobuf each for its own media type |
| Service.ThreeCalls | service.go:110-139 | the recursion of Reply is at most three calls deep when error texts marshal |
| Service.ReplyReturnsIff | service.go:110-139 | for every encoder, header and message Reply returns if and only if one of its successive tries, the message and then each reason for refusal, can be marshalled |
| Service.OneReasonIff | service.go:130-134 | an encoder with one error text ends it if and only if it accepts the first try or that text |
| Classify.NewReplyError | client.go:148-173 | the Reply's code and message, the response's status, and exactly these details: the service's, the Retry-After header over them on a 429 that has one, and four of the request and response under keys the service did not set |
| Classify.ReplyBecomesError | client.go:362-389 | a response that holds a Reply, by its Content-Type or, failing that, by X-DUH-Version with JSON tried before protobuf, becomes that error |
| Classify.ClassifiedAs | client.go:342-407 | an error is infrastructure's if and only if the selected decoders find no Reply and the response claimed one or has status 404 or 5xx; its message is then the body and its details the five of the response; an unreadable body is the client's 452 |
| Classify.RetryDecision | policies.go:24-41 | under any wrapping the OnRetryable policy retries exactly infrastructure's 404, 502, 503, 504 and other 429, 454, 500, and never an unreadable body |
| Classify.NotFoundDecision | policies.go:26-32 | a 404 with a Reply is never retried and one without always is, given an infrastructure policy |
| ErrorChains.AsIsFind | retry/retry.go:146-152 | errors.As finds the first matching error of a chain in visiting order, whatever the nesting |
| ErrorChains.ReplyOfChain | streaming.go:228-237 | the Reply of a chain is the code, message and details of its first duh error, or "500" and the error's text if it has none |
| ErrorChains.ItoaValue | client.go:150 | the text of a status is its decimal number without leading zeros |
| Classify.RetryDecisionEveryChain | retry/retry.go:137-163 | over every chain, joins included, OnRetryable retries exactly when the first duh error has a status retried for the origin that the first ClientError gives |
| Classify.FirstErrorDecidesIff | retry/retry.go:146-162 | a chain is treated like its first duh error alone, except exactly when that is no ClientError, the first ClientError is infrastructure's and the status is in either list |
| Classify.ServiceNotFoundIff | policies.go:26-32 | a chain that starts with a service 404 is retried if and only if its first ClientError is infrastructure's |
| Classify.JoinedNotFoundRetried | retry/retry.go:146-157 | joined errors escape the table |
| Classify.ErrorRoundTrip | service.go:96-139 | for a supported Accept header, what ReplyError sends comes back as a service error with the status, code, message and details of the chain's first duh error, or as a 500 with its text; only Retry-After on a 429 that has the header is the header's |
| Classify.UnsupportedAcceptHidesError | service.go:122-127 | for any other Accept header the caller gets a 455 instead |
| Classify.RetryAfterSleeps | client.go:160-165 | a retried 429 with a usable Retry-After is followed by a sleep of that many seconds, unless the service names a usable "ratelimit-reset" |
| LimitReader.LimitReader.Read | reader.go:35-45 | takes at most the remaining allowance and fails once it is used up |
| LimitReader.ReadBody | service.go:49-65 | at most limit + 1 bytes are taken; a body is copied intact if and only if it is within the limit, or one byte over and its source returned the last byte with io.EOF; otherwise it fails for its size; a source that fails never has a cut or oversize body accepted; limit and limit + 1 are exact for sources that report io.EOF alone or always with their last bytes |
| LimitReader.OneByteOver | reader.go:25-45 | the same body one byte over the limit, read through the same buffers, is accepted from one source and refused from another |
| SizeText.BytesToSI | reader.go:83-105 | the unit is 1024 for its multiples and else 1000; div is a power of the unit with div <= b < div * unit, div does not overflow and the suffix index is at most 5 |
| SizeText.SizeUnique | reader.go:93-97 | only one exponent satisfies that |
| Pagination.Iterator.Next | pagination.go:73-105 | one page per successful fetch, the cursor moved past it; after an error or the last page nothing more; the caller's slice is untouched when it returns false |
| Pagination.DrainOrder | pagination.go:73-105 | for any failures and cancellations the pages come in order, none lost and none repeated |
| Pagination.DrainEnd | pagination.go:92-110 | when Next first returns false, Err is unset and all pages are out, or Err is set and they are a proper prefix; no later call fetches anything |
| Pagination.ErrIsLastFetch | pagination.go:82-96 | what Err reports is how the fetches of the last Next that fetched ended: the error of its fetch or, with a policy, what retry.On returned |
| Pagination.TransientDrain | pagination.go:82-87 | with a policy that retries them, any number of transient failures per page is invisible |
| Pagination.TransientTerminates | pagination.go:82-87 | and every Next returns |

## Left out

- tls.go, wait.go, log.go, demo/ and cmd/: certificates, dialling, pipes and examples over libraries outside the repository.
- A handler that panics: stopHeartbeat is not deferred, so the join of the heartbeat is stated for handlers that return.
- net/http itself: a status without a body (1xx, 204, 304) does not carry a Reply, so `Classify.ErrorRoundTrip` is about the others; the transport is represented by `Transmit` and `Source`.
- Protobuf and JSON encoding: abstract partial inverses.
- Case mapping beyond ASCII in `Normalize`; header values are ASCII here.
- The text of errors: CodeText, `%.1f` in bytesToSI, ClientError.Error(), and fmt formatting in NewServiceError.
- The statuses 400 and 500 that ReadRequest gives to a failed body read, and its decoding of the body.
- DoStream's default frame limit of 4 MB: a parameter of the client here.
- HandleBytes, WriteContent, ReadContent, DoContent, DoBytes: raw bodies that are copied through without framing or negotiation.
- A Retry-After that is a date, and infinite or not-a-number seconds: parsing is an abstract partial function to the reals.
- Fairness: `CallsFinish` bounds the steps of a call, not its duration; the ticks of a run are finite in number.
- Pagination.Iterator.Next: a policy without an interval makes retry.On panic, and one that retries forever makes it diverge; both are excluded by `CanFetch`.
- Retry.On: the contract is about calls that return; with no limit on attempts, a call whose every attempt leads to another does not (`Terminates`).
