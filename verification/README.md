# pg2ch replication consumer and LSN encodings, in Dafny

This project models two parts of pg2ch, a tool that streams PostgreSQL logical
replication into ClickHouse.

- **The LSN value** (`pkg/utils/lsn.go`). An LSN is a 64-bit write-ahead-log
  position, and 0 means "invalid". It has two text forms. The hex form is 16
  lowercase hex digits, zero-padded (`%016x`). The canonical form is
  PostgreSQL's `pg_lsn` display: the upper and lower 32 bits, each as
  uppercase unpadded hex (`%X/%X`). YAML marshalling and `Bytes` reuse the
  canonical form. The Go code takes the canonical form from the pglogrepl
  package, which is not part of this model, so `String` and `ScanLsn` define
  that form directly.
- **The replication consumer** (`pkg/consumer/consumer.go`) as a sequential
  state machine. `Run` connects, starts replication, sends one status update,
  and only then starts the loop. Each loop turn is one `Event`:
  - the context ends;
  - the status ticker fires, carrying the outcome of the send;
  - a receive times out, is canceled or fails;
  - a message arrives (`Keepalive`, `XLogData`, other CopyData, a non-CopyData
    message or nil).

  The pgoutput decoder and the application handler are functions supplied by
  the caller (`Collaborators`). A handler outcome may carry the position that
  the handler passed to `AdvanceLSN`.

The state (`Consumer.State`) holds:
- the current position;
- the connection state;
- the caller's one-slot error sink, as an `Option`;
- the log of every error handed to `close`, whether kept or dropped;
- the log of START_REPLICATION requests: slot, publication and start
  position;
- the log of the write position of every status update attempted, recorded
  whether or not the send succeeded;
- the log of handler-call positions;
- the phase: `Idle`, `Running`, `Stopped`, or `Aborted` (a `log.Fatalln`
  exit).

Files:
- `wrappers.dfy`: `Option`, `Result`, `Outcome`.
- `hex_text.dfy`: hex digit strings, their values, and the padded and unpadded
  renderings.
- `lsn.dfy`: `pkg/utils/lsn.go`.
- `consumer.dfy`: `pkg/consumer/consumer.go`.
- `consumer_properties.dfy`: lemmas over event sequences.

Behaviour of the code that the model keeps, although a reader might expect
otherwise:
- The code closes the database connection only when the context ends (and
  when starting replication fails). A fatal loop error, a canceled receive and
  a failed initial status all leave the connection open.
- A malformed Keepalive or XLogData body ends the process through
  `log.Fatalln`. Nothing goes through the error sink.
- A Keepalive that asks for a reply sends nothing. The reply code is commented
  out.
- `AdvanceLSN` accepts any position, including a smaller one. Keeping the
  position from going backwards is left to the handler.

## Model

| member | source | states |
|---|---|---|
| Lsn.Hex | pkg/utils/lsn.go:13-18 | the hex form is exactly 16 characters, all lowercase hex digits, and as a hex numeral it denotes the position, so short values are zero-padded on the left |
| Lsn.ScanHex | pkg/utils/lsn.go:24-33 | the scan succeeds exactly on one to sixteen hex digits of either case and then yields the number they denote; otherwise it fails with a scan error naming the input |
| Lsn.ParseHex | pkg/utils/lsn.go:24-36 | the call succeeds exactly on well-formed hex input; on error the receiver keeps its old value; on success the receiver holds the value the digits denote |
| Lsn.HexRoundTrip | pkg/utils/lsn.go:13-36 | for every 64-bit position and any prior receiver, parsing the hex form succeeds and yields that position |
| Lsn.HexOfParsed | pkg/utils/lsn.go:13-36 | any 16 lowercase hex digits parse, and the hex form of the result is the same text, so the hex form is onto the 16-digit strings |
| Lsn.ParseHexNoDigits | pkg/utils/lsn.go:24-35 | input without any hex digit is rejected with a scan error and the receiver is unchanged |
| Lsn.Slash | pkg/utils/lsn.go:38-46 | finds the first '/' of the text, or reports that there is none; this is where the canonical form splits into its two halves |
| Lsn.String | pkg/utils/lsn.go:20-22 | the canonical form is the upper 32 bits as uppercase hex with no leading zeros, then one '/', then the lower 32 bits the same way; each half has at most 8 digits and the whole text has 3 to 17 characters |
| Lsn.ScanLsn | pkg/utils/lsn.go:38-46 | the parse succeeds exactly on two groups of 1–8 hex digits of either case around the first '/', leading zeros allowed; the result is hi·2^32 + lo, where hi and lo are the values of the two groups; otherwise it fails with a syntax error naming the input |
| Lsn.Parse | pkg/utils/lsn.go:38-46 | the call succeeds exactly on two groups of 1–8 hex digits of either case around the first '/'; on success the receiver becomes hi·2^32 + lo; on error the receiver keeps its old value and the error is the syntax error for the input |
| Lsn.ParseAcceptsLowercase | pkg/utils/lsn.go:38-46 | `Parse` accepts text `String` never prints: `0/1a` parses to 0x1a, whose canonical form is `0/1A` |
| Lsn.ParseAcceptsLeadingZeros | pkg/utils/lsn.go:38-46 | `00000001/0` parses to 2^32, whose canonical form is `1/0`, so leading zeros are accepted and dropped |
| Lsn.StringRoundTrip | pkg/utils/lsn.go:20-46 | for every position, parsing the canonical form succeeds and yields that position |
| Lsn.ParseOfString | pkg/utils/lsn.go:38-46 | whatever the receiver held, `Parse` of the canonical form sets it to the printed position with no error |
| Lsn.StringOfParsed | pkg/utils/lsn.go:20-46 | text in canonical form (uppercase, no leading zeros, at most 8 digits per half) parses, and printing the result gives back the same text |
| Lsn.EncodingsInjective | pkg/utils/lsn.go:16-22 | two different positions never share a hex form or a canonical form |
| Lsn.IsValid | pkg/utils/lsn.go:48-50 | a position is valid exactly when it is not the invalid position 0, which is the same as its hex form not being sixteen zeros |
| Lsn.ValidIffNonzeroText | pkg/utils/lsn.go:48-50 | a position is valid exactly when its hex form is not sixteen zeros, and exactly when its canonical form is not `0/0` |
| Lsn.MarshalYaml | pkg/utils/lsn.go:52-54 | the YAML value is canonical text, and unmarshalling it into any receiver restores the position with no error |
| Lsn.UnmarshalYaml | pkg/utils/lsn.go:56-73 | the call succeeds exactly when the YAML node decodes to a string of two groups of 1–8 hex digits of either case around the first '/'; the receiver then becomes hi·2^32 + lo; a decode error is passed on; a parse failure is wrapped with the text; on any error the receiver is unchanged |
| Lsn.YamlRoundTrip | pkg/utils/lsn.go:52-73 | marshalling a position to YAML and unmarshalling it into any receiver yields that position |
| Lsn.Bytes | pkg/utils/lsn.go:75-77 | the bytes are the canonical form's characters, one byte each; every byte is ASCII; read back as text they parse to the position |
| HexText.PadHexValue | pkg/utils/lsn.go:13-18 | the zero-padded rendering keeps exactly the low `width` hex digits of the number |
| HexText.UpperHexValue | pkg/utils/lsn.go:20-22 | the unpadded uppercase rendering denotes its argument |
| HexText.UpperHexShape | pkg/utils/lsn.go:20-22 | the unpadded rendering has no leading zero and takes at most k digits for a value below 16^k |
| Consumer.New | pkg/consumer/consumer.go:49-59 | a new consumer holds the supplied start position, slot and publication, with no connection, nothing sent, nothing handled, and the loop not started |
| Consumer.AdvanceLsn | pkg/consumer/consumer.go:61-64 | the position becomes the argument, with no monotonicity check, and no other field changes |
| Consumer.Offer | pkg/consumer/consumer.go:71-76 | a non-blocking send on the one-slot sink always leaves it full: an empty slot takes the error, and a full one keeps its old error |
| Consumer.Close | pkg/consumer/consumer.go:71-76 | reporting an error never waits: it fills an empty sink, is dropped when the sink is full, and changes nothing else |
| Consumer.CloseDbConnection | pkg/consumer/consumer.go:121-125 | the connection ends closed and nothing else changes; a close failure is not reported |
| Consumer.SendStatus | pkg/consumer/consumer.go:216-225 | the status update attempted carries the current position as its write position; the call returns the transport's outcome and changes nothing else |
| Consumer.StartDecoding | pkg/consumer/consumer.go:102-119 | one START_REPLICATION request is made, for the consumer's slot and publication, from the current position, whatever the outcome; a failure closes the connection before the error is returned; nothing else changes |
| Consumer.Run | pkg/consumer/consumer.go:79-100 | the loop starts only if connect, start replication and the first status update all succeed, and that status carries the start position; once connected, exactly one START_REPLICATION request is made, from the start position; a connect failure changes nothing; a start failure leaves the connection closed and sends no status; a status failure leaves the connection open; a failure never starts the loop; only the connection, the request and status logs and the phase ever change, so the names, position, sink, report log and handled log stay as they were |
| Consumer.Dispatch | pkg/consumer/consumer.go:159-201 | a received message calls the handler exactly when it is XLogData whose payload decodes, with its WAL start; only XLogData can move the position; the process aborts exactly on a malformed Keepalive or XLogData body; no status is sent |
| Consumer.Step | pkg/consumer/consumer.go:132-212 | outside the loop an event changes nothing; only a tick sends a status, and it carries the current position; only an XLogData frame calls the handler or moves the position; at most one error is reported per turn, and reporting one stops the loop; a full sink is never overwritten |
| Consumer.Steps | pkg/consumer/consumer.go:127-213 | once the loop has returned, later events change nothing; a whole run reports at most one error and stops when it does; a full sink stays as it is; the logs only grow |
| ConsumerProperties.StepsAppend | pkg/consumer/consumer.go:132-212 | running two event sequences one after the other is the same as running their concatenation |
| ConsumerProperties.NothingAfterStop | pkg/consumer/consumer.go:133-157 | after the loop has returned, no later event dispatches, sends or reports anything |
| ConsumerProperties.DispatchInOrder | pkg/consumer/consumer.go:159-201 | while no frame ends the loop, the handler is called once per XLogData frame, with its WAL start, in arrival order; Keepalive (even one asking for a reply), other CopyData, non-CopyData and nil messages cause no call, no status and no report, and the loop keeps running |
| ConsumerProperties.BenignStep | pkg/consumer/consumer.go:159-201 | a frame that does not end the loop causes at most one handler call, for an XLogData frame's WAL start; the loop keeps running and the sink, reports, statuses and connection are untouched |
| ConsumerProperties.PositionAfterFrame | pkg/consumer/consumer.go:186-196 | the loop never sets the position itself: after a received message the position is what the handler passed to `AdvanceLSN`; a frame that is not XLogData, a decode failure, a rejected call and a handler that did not advance all leave it unchanged |
| ConsumerProperties.HandlerCallsExact | pkg/consumer/consumer.go:165-201 | for any frame sequence, the handler calls are exactly the ones that a definition from the frames alone gives: one per decodable XLogData frame, up to the first frame that ends the loop |
| ConsumerProperties.FailFast | pkg/consumer/consumer.go:187-196 | a decode or handler failure reports exactly one error and stops the loop; the sink keeps it if it was empty; no later frame reaches the handler; no status is sent |
| ConsumerProperties.MalformedAborts | pkg/consumer/consumer.go:167-183 | a malformed Keepalive or XLogData body aborts with nothing reported, and no later frame reaches the handler |
| ConsumerProperties.FirstErrorWins | pkg/consumer/consumer.go:71-76 | for any series of reports, an empty sink keeps the first error and drops the rest; a full sink keeps what it had; every report is made |
| ConsumerProperties.ReceiveOutcomes | pkg/consumer/consumer.go:144-157 | a receive timeout changes nothing; a canceled receive stops the loop with nothing reported and the connection untouched; any other receive error reports one error and stops the loop |
| ConsumerProperties.LoopControl | pkg/consumer/consumer.go:133-142 | a tick sends the current position; a failed send reports one error and stops the loop; the end of the context closes the connection and stops the loop with nothing reported |
| ConsumerProperties.CancellationReportsNothing | pkg/consumer/consumer.go:133-157 | a run made only of cancellation, timeouts, successful ticks and frames that do not fail never touches the sink or the report log |
| ConsumerProperties.FailedRunStartsNoLoop | pkg/consumer/consumer.go:79-100 | after a failed `Run`, no event has any effect |
| ConsumerProperties.StatusCarriesLatestAdvance | pkg/consumer/consumer.go:216-225 | after any series of `AdvanceLSN` calls, the next status carries the last position advanced to, even when that position is smaller; nothing else changes |
| ConsumerProperties.AdvanceStep | pkg/consumer/consumer.go:193-196 | if the handler advances to each WAL start it gets, one event either leaves both the position and the handled log alone, or handles one frame and moves the position to its WAL start |
| ConsumerProperties.PositionFollowsHandled | pkg/consumer/consumer.go:193-196 | if the handler advances to each WAL start it gets, the position after any run is the WAL start of the last frame handled in that run, or the start position if none was handled |
| ConsumerProperties.StatusAfterHandled | pkg/consumer/consumer.go:138-196 | after XLogData frames that all decode, under a handler that advances to each WAL start, the next tick sends the last frame's WAL start |
| ConsumerProperties.TickAfter | pkg/consumer/consumer.go:138-142 | a successful tick at the end of a running session sends the position that session left |
| ConsumerProperties.SessionStart | pkg/consumer/consumer.go:79-119 | `Run` for slot "slot" and publication "pub" from 0x1500000 succeeds, makes exactly one START_REPLICATION request from 0x1500000, and sends one status at that position |
| ConsumerProperties.ThreeFrameSession | pkg/consumer/consumer.go:79-225 | starting at 0x1500000, with frames at 0x1500010, 0x1500020 and 0x1500030, `Run` succeeds and sends 0x1500000; the tick after the frames sends 0x1500030, whose hex form is `0000000001500030` |

## Left out

- The network: connecting, `StartReplication`, `ReceiveMessage`, sending the standby status update, and closing the connection. Their outcomes are parameters or event payloads. Wire formats are not modelled.
- The goroutine, `WaitGroup`/`Wait`, the status ticker, the receive timeout and the random choice in `select`. An arbitrary event sequence stands in for them. No timing property is stated.
- The Keepalive and XLogData body parsers, the pgoutput decoder and the handler. These are not part of this model. The body parsers appear only as "well-formed or malformed". The decoder and the handler are functions supplied by the caller.
- The panic on an empty CopyData message: it indexes `Data[0]`. Logging is also left out.
- The commented-out reply-requested handling. It is not live code, so a Keepalive never causes a status.
- pkg/replicator/conn_info.go: catalog queries and type registration through pgx and pgtype, which are not part of this model.
- ScanHex: accepts only input made entirely of 1 to 16 hex digits. `fmt.Sscanf` with `%016x` also skips leading spaces and ignores trailing input.
- ScanLsn: accepts only two groups of 1 to 8 hex digits. pglogrepl's `Sscanf("%X/%X")`-based parser also skips spaces before each group (so `" 0/ 1"` parses), ignores trailing input, and accepts longer groups; the high bits of a longer upper group are silently lost when it is shifted left by 32.
- Lsn.MarshalYaml: the Go method also returns an error that is always nil. The model returns only the string.
- Consumer.Close: the sink is one slot that nobody drains while the loop runs. An owner that drains it between reports is not modelled.
- The handler: a handler that calls `AdvanceLSN` and then fails is not modelled. A failing handler leaves the position unchanged. Its outcome depends only on the position and the decoded message. The model's handler can only call `AdvanceLSN`; a real handler could also call the exported `SendStatus`. So "only a tick sends a status" and "no status is sent" describe the loop's own code, not what a handler might do.
- Error text: errors are constructors that carry the cause. The formatted messages are not modelled.
- Run: a second call while a loop runs would start a second goroutine in Go. The model has one loop only.
