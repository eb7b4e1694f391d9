# openGauss client library: a verified model

This project models the stateful core of the Rust openGauss/PostgreSQL client and proves properties of it with
Dafny 4.11. Run `dafny verify dfyconfig.toml` to check everything.

| File | What it models |
|---|---|
| `Framing.dfy` | the decoder that cuts the server's byte stream into batches of messages |
| `Routing.dfy` | how the server's messages divide among requests |
| `Connection.dfy` | the connection task as a transition system: arrivals, reads, writes, full channels, hang-ups, COPY |
| `ConnectionTask.dfy` | the connection object whose polls are proved to be runs of that system, and the client's response reader |
| `Login.dfy` | authentication, the settings phase, and handing the stream to the connection |
| `CopyIn.dfy` | the data path of COPY IN: blocking writer, sink, channel, receiver |
| `BinaryCopy.dfy` | writer and reader of the binary COPY format |
| `BinaryTransfer.dfy` | a binary COPY from the caller's rows to the bytes the server is sent: the writer on a real sink and channel |
| `CopyWire.dfy` | the connection and the data path of one COPY together |
| `Numeric.dfy` | the NUMERIC codec in base 10000 |
| `Composite.dfy` | the derived codec for composite types |
| `TypeCache.dfy` | type lookup with a shared cache |
| `Transactions.dfy` | nested transactions over named savepoints |
| `SqlSplit.dfy` | the statement splitter, the input validator and the comment stripper of the shell |
| `SqlRegions.dfy` | the grammar of quoted texts, dollar quotes and comments, and that the splitter cuts outside them |
| `ConnString.dfy` | the key-value connection string parser and the printer of named connections |
| `Bytes.dfy`, `Characters.dfy`, `Sequences.dfy`, `Wrappers.dfy` | shared notions |

How to read the models:

* A run is a sequence of labels; the theorems hold for every run, so for every interleaving. Channel capacity, socket
  readiness and the other tasks' actions are part of the labels and never restricted.
* Imperative code is a class or a method, proved equal to a specification function; what the source promises is
  proved about that function. In `Connection.dfy` requests are numbered in the order in which they are enqueued, and
  `processed` records the messages that have left the read side.
* Fixed-width arithmetic is explicit: `u128` accumulation wraps, 16-bit counts wrap, 32-bit lengths are two's
  complement.
* Library code is a parameter with a contract where its behaviour matters: `Decimal::rescale` (exact when the result
  fits), the SCRAM verifier, the test for IP addresses.

Results that differ from what one may expect of the code, each with the exact condition and an input that fails:

* Decoding a NUMERIC of ten or more groups can wrap silently: 28 bytes denoting 2^128+5 decode to 5
  (`Numeric.TenGroupsCanWrap`, exactly when in `Numeric.DecodedValue`). A zero loses its scale and sign
  (`Numeric.ZeroRoundTrip`).
* Where a broken header directly follows a message inside a request, what is delivered depends on how the stream
  was cut (`Framing.ZeroLengthIsVisible`, exactly when in `Framing.ChunkingInvisibleExactly`).
* Reusing the name of a live savepoint makes an outer rollback land on the inner savepoint
  (`Transactions.ReusedNameBreaks`, exactly when in `Transactions.SafeToNestExactlyWhenFresh`).
* An item of 2 GiB makes the COPY sink drop small items it had accepted (`CopyIn.DamageIsReachable`, exactly when in
  `CopyIn.DamageExactly`), and every such COPY can still be reported as complete (`CopyIn.DamageGoesUnnoticed`).
* A row that fails half-way stays in the binary COPY buffer: whatever its place, it is transferred with the others
  (`BinaryCopy.FailedRowLeaksIn`, exactly when in `BinaryCopy.FileIsReportedExactly` and
  `BinaryCopy.TransferIsReportedExactly`). More than 32767 columns cannot be read back
  (`BinaryCopy.TupleReadBackExactly`).
* A row that makes the buffer longer than a message can be is refused and takes the earlier rows, or the header, along,
  and the COPY can still be completed (`BinaryTransfer.RefusalLosesHeader`, exactly when in
  `BinaryTransfer.FileSurvivesRefusalExactly`). What a failed row leaves can even make up for what is missing
  (`BinaryTransfer.FailureCanHideLoss`).
* A completed statement need not re-split when only `;` is appended: a trimmed line comment swallows it
  (`SqlSplit.TrimmedCommentSwallowsSemicolon`, exactly when in `SqlSplit.CompletedResplits`).
* A notice that is read in the poll in which writing to the socket fails is not returned by any poll
  (`ConnectionTask.NoticeIsReturnedUnlessWritingFails`, exactly when in `ConnectionTask.PollReturnsExactly`).
* The commit of an outermost transaction in which something failed reports success and keeps nothing
  (`Transactions.AnswersExactly`).
* A stray `=` where a key is expected silently ends the parsing of a connection string (`ConnString.IgnoredSetting`,
  exactly when in `ConnString.AcceptedIsReadToEndExactly`).
* The printer of named connections writes settings without quotes, so that a user name can be read as two settings
  (`ConnString.UnquotedSettingSplits`, exactly when in `ConnString.ConnectionReadBackExactly`).

## Model

| member | source | states |
|---|---|---|
| Framing.ParseIsExact | crates/opengauss-protocol/src/message/backend.rs:46-63 | the reference parser used below loses nothing: a buffer is its complete messages, no async one of them broken, followed by a rest that starts with none |
| Framing.DecodeMeaning | crates/tokio-opengauss/src/codec.rs:75-115 | on any buffer one decoding removes whole messages: one async message alone, or a batch of normal ones that holds ReadyForQuery exactly when `request_complete`, and then last; it waits exactly when no message is complete and none is broken; it fails exactly when a broken header comes before the end of the batch, or the buffer starts with an async message whose body cannot be parsed; everything else stays in place |
| Framing.FrameExactly | crates/opengauss-protocol/src/message/backend.rs:208-425 | a complete message is delivered if and only if it is no setting and no notification, or a setting whose body is two strings, or a notification of four bytes and two strings |
| Framing.InterleavingIsExact | crates/tokio-opengauss/src/codec.rs:75-115 | however arrivals and decodings interleave, the messages delivered followed by what the buffer parses to are exactly what arrived |
| Framing.ChunkingIsInvisible | crates/tokio-opengauss/src/codec.rs:75-115 | two ways of cutting the same bytes that both wait for more have delivered the same messages and hold the same rest |
| Framing.ChunkingInvisibleExactly | crates/tokio-opengauss/src/codec.rs:79-105 | all ways of cutting a stream deliver the same, and fail or not alike, if and only if no broken header directly follows a message that is not the end of a batch |
| Framing.ZeroLengthIsVisible | crates/tokio-opengauss/src/codec.rs:79-105 | a message followed by a header of length 0: in one piece nothing is delivered, cut between the two the message is |
| Framing.PostgresCodec.DecodeNext | crates/tokio-opengauss/src/codec.rs:75-115 | the loop with its index and in-place split computes that decoding and leaves exactly the bytes it did not take; of an async message that cannot be parsed the bytes are gone |
| Routing.SegmentBatch | crates/tokio-opengauss/src/connection.rs:131-168 | a batch extends the segment of the oldest open request and no other, and completes it exactly when it ends in ReadyForQuery |
| Routing.SegmentsPartition | crates/tokio-opengauss/src/connection.rs:131-168 | the segments are consecutive pieces of the stream, each finished one with exactly one ReadyForQuery, at its end |
| Connection.RoutingIsFaithful | crates/tokio-opengauss/src/connection.rs:95-193 | in every run, the messages a live request's client has polled, and also with those its channel and reader still hold, are a prefix of its own segment of the server's non-async messages |
| Connection.NothingIsLost | crates/tokio-opengauss/src/connection.rs:95-170 | once every complete message that arrived is processed, the messages polled and those still held for each live request are exactly its segment, and all messages were processed in the order of arrival, delayed notices first |
| Connection.PollingReadsNext | crates/tokio-opengauss/src/client.rs:46-60 | a poll of the client hands out the next unread message of its batches, and none exactly when all are read |
| Connection.RetryKeepsOrder | crates/tokio-opengauss/src/connection.rs:81-93 | in every run the retry queue is a suffix of the notices delayed at login, or one batch of a waiting request, or empty; messages are processed in order; notifications and settings are reported in that order |
| Connection.UnrequestedOnlyBeyondRequests | crates/tokio-opengauss/src/connection.rs:136-142 | the waiting requests are exactly those polled and unanswered, in order; a batch finds none only when the server has sent messages beyond the last request polled |
| Connection.ReadingCatchesUp | crates/tokio-opengauss/src/connection.rs:101-169 | from every reachable state, reading with room in the channels processes everything that arrived or stops for good: no kept batch gets stuck |
| Connection.WritingCatchesUp | crates/tokio-opengauss/src/connection.rs:195-263 | from every reachable state in which the connection goes on, writing to a ready socket puts the whole of every request on the wire, in order, up to the first COPY its client has not ended; without one, all requests, and Terminate behind them if and only if the queue is closed and everything is answered |
| Connection.ReadSideIsSound | crates/tokio-opengauss/src/connection.rs:54-62 | the read-side invariant holds in every reachable state: stream, order, retry queue, waiting requests and every live channel |
| Connection.WriteSideIsSound | crates/tokio-opengauss/src/connection.rs:172-263 | the write-side invariant holds in every reachable state: only the latest request polled is being retried, it is a COPY, and every earlier COPY is drained |
| Connection.WireIsExact | crates/tokio-opengauss/src/connection.rs:195-263 | the wire is the requests' messages in queue order, each request's contiguous; Terminate comes at most once, last, and only when the request queue is closed and every request is written and answered |
| CopyWire.CopyReachesTheWire | crates/tokio-opengauss/src/connection.rs:240-260 | in every joint run the wire carries for a COPY a prefix of what its receiver gave, and once anything stands behind it the whole: the stream has ended, its last message is CopyDone or CopyFail with Sync, CopyDone exactly when the sink was finished, and then behind exactly the accepted bytes unless an oversized item was joined |
| CopyWire.TerminatorsAreMessages | crates/tokio-opengauss/src/copy_in.rs:48-62 | the terminators are CopyDone or CopyFail with an empty text, each followed by Sync |
| Connection.RunIsForward | crates/tokio-opengauss/src/connection.rs:34-39 | however a run continues, the state's rank never falls, and the wire, the processed messages and what each request received only grow |
| ConnectionTask.PollingIsRunning | crates/tokio-opengauss/src/connection.rs:301-339 | a poll of the connection is a sequence of steps of the system, whatever happens around it; it reports the end only with Terminate last on the wire and every request answered |
| ConnectionTask.PollReturnsExactly | crates/tokio-opengauss/src/connection.rs:301-339 | for every poll of a connection that has not failed: a message is returned if and only if one was read and writing and flushing went well, and it is the one reported; the end if and only if the connection is closing and the socket has closed; an error if and only if reading or writing failed or the socket could not be flushed or closed; pending otherwise; the end and an error close the request queue |
| ConnectionTask.PollsReturnReports | crates/tokio-opengauss/src/connection.rs:305-317 | over any polls without an error the messages returned are what was reported meanwhile, each once and in order |
| ConnectionTask.PollsReturnNotices | crates/tokio-opengauss/src/connection.rs:305-317 | from the start of a connection these are exactly the notices and notifications among the messages processed, and among all that arrived once it has caught up |
| ConnectionTask.NoticeIsReturnedUnlessWritingFails | crates/tokio-opengauss/src/connection.rs:301-317 | a notice is returned by the poll that reads it, unless writing fails in the same poll: then the error is returned and the notice is not |
| ConnectionTask.ReadFailsExactly | crates/tokio-opengauss/src/connection.rs:81-142 | reading reports a closed connection exactly when the server closed it with nothing left to read, a broken one exactly when the socket failed, closed inside a message or a message was broken, and the other errors by the message that came |
| ConnectionTask.ConnectionObject.constructor | crates/tokio-opengauss/src/connection.rs:64-79 | a new connection is the initial state, its retry queue holding the delayed notices |
| ConnectionTask.ConnectionObject.PollResponse | crates/tokio-opengauss/src/connection.rs:81-93 | a kept response comes first, otherwise the decoder is polled |
| ConnectionTask.ConnectionObject.DeliverAsync | crates/tokio-opengauss/src/connection.rs:111-130 | a notice or notification is returned, a setting is recorded and reading goes on; fields that cannot be read end the connection with an error |
| ConnectionTask.ConnectionObject.DeliverBatch | crates/tokio-opengauss/src/connection.rs:136-168 | a batch goes to the front request, which leaves the queue exactly when it is complete; without room both are put back; without a request it fails |
| ConnectionTask.ConnectionObject.PollRead | crates/tokio-opengauss/src/connection.rs:95-170 | the loop, whatever happens between its rounds, ends in exactly the state and result of the read rounds of the transition system |
| ConnectionTask.ConnectionObject.PollRequest | crates/tokio-opengauss/src/connection.rs:172-193 | the retried request first, then the queue, whose requests start waiting for responses |
| ConnectionTask.ConnectionObject.WriteNext | crates/tokio-opengauss/src/connection.rs:211-261 | with the socket ready, one message of the retried or next request is written; a drained COPY that has ended is left; Terminate is written only with the queue closed and nothing outstanding |
| ConnectionTask.ConnectionObject.PollWrite | crates/tokio-opengauss/src/connection.rs:195-263 | the loop, whatever happens between its rounds, ends in exactly the state and result of the write rounds of the transition system |
| ConnectionTask.ConnectionObject.PollMessage | crates/tokio-opengauss/src/connection.rs:301-339 | one poll reads, writes, flushes and shuts down, giving the state and the result that PollReturnsExactly is about |
| ConnectionTask.Responses.PollNext | crates/tokio-opengauss/src/client.rs:46-60 | computes the client's poll of the transition system: every message exactly once and in order across batch borders, closure only when nothing is left |
| Login.RequireMeansBound | crates/tokio-opengauss/src/connect_raw.rs:167-319 | with channel binding required, authentication succeeds if and only if the input is protocol negotiations, then a SASL offer of SCRAM-SHA-256-PLUS, an accepted SaslContinue, a verified SaslFinal and AuthenticationOk, and takes exactly those messages |
| Login.RequireSendsNothingUnbound | crates/tokio-opengauss/src/connect_raw.rs:312-429 | with channel binding required, on any input and even when login fails, only messages of an exchange bound to the channel are sent, never a password |
| Login.AuthenticateExactly | crates/tokio-opengauss/src/connect_raw.rs:167-430 | in every mode authentication succeeds if and only if the input is negotiations and then a dialogue the client goes along with (at once, after an answerable request for a password, or after SCRAM with the binding and mechanism of RFC 5802); it takes exactly these messages and sends exactly what belongs to the dialogue |
| Login.AuthenticationErrors | crates/tokio-opengauss/src/connect_raw.rs:167-319 | the server's error is reported exactly when authentication stopped at one, a broken stream exactly when it stopped there, a closed one only when everything was taken |
| Login.OtherAuthenticationErrors | crates/tokio-opengauss/src/connect_raw.rs:190-348 | a missing password is reported exactly when one may be given or SCRAM is offered; with binding required a request for a password is refused |
| Login.ReadInfoExactly | crates/tokio-opengauss/src/connect_raw.rs:432-471 | the settings phase succeeds if and only if only settings, keys, notices and negotiations come before ReadyForQuery; the last value of each parameter and the last key count, notices stay in order, nothing more is taken |
| Login.ReadInfoErrors | crates/tokio-opengauss/src/connect_raw.rs:432-471 | the settings phase reports the server's error exactly when it stopped at one, and a broken stream likewise |
| Login.NothingIsLostAtHandOver | crates/tokio-opengauss/src/connect_raw.rs:57-83 | messages are taken in the order of arrival; when ReadyForQuery has just been taken the login buffer is empty, so everything behind it goes to the connection |
| Login.StartupStream.PerformSasl | crates/tokio-opengauss/src/connect_raw.rs:338-430 | mechanism and binding are chosen from the whole offer, and the exchange runs in order with the errors of each step |
| Login.StartupStream.PerformAuthentication | crates/tokio-opengauss/src/connect_raw.rs:167-310 | the loop and the branches produce exactly the result, the rest of the input and the messages sent of the specified login |
| Login.StartupStream.CollectInfo | crates/tokio-opengauss/src/connect_raw.rs:432-471 | the loop collects the settings and keeps the notices |
| CopyIn.BytesAreConserved | crates/tokio-opengauss/src/copy_in.rs:146-184 | in every run that joins no item too long for a message to accepted bytes, what is written, queued, in the sink's buffer and in the writer's buffer is exactly the bytes accepted, in order; the wire gets a prefix of them even when the connection goes away |
| CopyIn.TerminatorIsHonest | crates/tokio-opengauss/src/copy_in.rs:38-64 | a finished stream has exactly one terminator, last: CopyDone exactly when the sink was finished, and then after exactly the accepted bytes if and only if no such item was joined; CopyFail otherwise |
| CopyIn.TerminatorComes | crates/tokio-opengauss/src/copy_in.rs:38-64 | after the sink is finished or dropped, as many polls as there are queued messages and one more reach the terminator |
| CopyIn.PayloadsAreFrames | crates/opengauss-protocol/src/message/frontend.rs:143-159 | in every run each payload written fits its length field and makes one well-formed CopyData message |
| CopyIn.DamageExactly | crates/tokio-opengauss/src/copy_in.rs:146-168 | for every run with a receiver that is there or has finished: bytes written, queued and buffered are the bytes accepted, in order, if and only if no prefix of the run takes a step that joins an item with which the length no longer fits 32 bits to accepted bytes |
| CopyIn.DamageIsReachable | crates/tokio-opengauss/src/copy_in.rs:146-168 | sending one byte and then an item of 2^31-1 bytes is such a run |
| CopyIn.DamageGoesUnnoticed | crates/tokio-opengauss/src/copy_in.rs:93-122 | every run with such a loss, its sink usable and its receiver there, can be continued to a CopyDone that follows fewer bytes than were accepted |
| CopyIn.FinishHandsOverAll | crates/opengauss/src/copy_in_writer.rs:30-33 | a successful finish leaves both buffers empty and everything queued in front of the final Done |
| CopyIn.WriteIsSteps | crates/opengauss/src/copy_in_writer.rs:46-53 | a successful blocking write is a few steps of the system: it accepts exactly its bytes, loses none and keeps the invariants |
| CopyIn.CopyInSink.StartSendItem | crates/tokio-opengauss/src/copy_in.rs:146-168 | buffering, splitting at 4096 bytes and chaining of a large item, with both errors |
| CopyIn.CopyInSink.PollFlush | crates/tokio-opengauss/src/copy_in.rs:170-184 | the buffer is sent only when the channel has room, and kept otherwise |
| CopyIn.CopyInSink.PollFinish | crates/tokio-opengauss/src/copy_in.rs:93-122 | flush, then Done, then closing the channel, then the server's reply, whose tag gives the row count; resumable at each wait |
| CopyIn.FinishExactly | crates/tokio-opengauss/src/copy_in.rs:93-122 | for every sink, every answer of the channel and every reply: a count is reported if and only if everything is sent and the reply is CommandComplete, and then its count; the call is pending if and only if sending waits or there is no reply yet; every other case, the server's error included, fails |
| CopyIn.FlushExactly | crates/tokio-opengauss/src/copy_in.rs:170-184 | a flush is through, pending or failed exactly by the buffer, the room, the length and the connection |
| CopyIn.RowsAffectedExactly | crates/tokio-opengauss/src/query.rs:196-206 | the count of a tag is the number behind its last space, and 0 when no number stands there |
| CopyIn.CountIsReported | crates/tokio-opengauss/src/query.rs:196-206 | for every command and every 64-bit count, a reply tagged with both gives this count |
| CopyIn.CountComesLast | crates/tokio-opengauss/src/copy_in.rs:93-122 | a count is reported only when everything held has been queued in order, Done behind it, the channel is closed and the reply is CommandComplete |
| CopyIn.CopyInReceiver.PollNextMessage | crates/tokio-opengauss/src/copy_in.rs:41-64 | messages in order, then one terminator that depends on how the channel ended, then nothing |
| CopyIn.CopyInWriter.Write | crates/opengauss/src/copy_in_writer.rs:46-53 | a full buffer is handed over first, then the bytes are appended |
| CopyIn.CopyInWriter.FlushInner | crates/opengauss/src/copy_in_writer.rs:35-42 | the whole buffer goes to the sink and is waited for |
| CopyIn.CopyInWriter.FinishCopy | crates/opengauss/src/copy_in_writer.rs:30-33 | flushing, then finishing the sink and returning the row count of the server's reply |
| BinaryCopy.WriteAddsTuple | crates/tokio-opengauss/src/binary_copy.rs:61-99 | writing a row succeeds if and only if every value can be encoded; it then adds exactly the row's tuple to the stream, and otherwise leaves a part of the row behind |
| BinaryCopy.EncodeErrorExactly | crates/tokio-opengauss/src/binary_copy.rs:79-93 | a row's error is that of its first value that cannot be encoded: the serializer's with its position, or a value too long |
| BinaryCopy.HandOverExactly | crates/tokio-opengauss/src/copy_in.rs:146-168 | an idle sink takes a chunk of more than 4096 bytes if and only if its channel is connected and the chunk fits a message; the error says which of the two failed |
| BinaryCopy.TakenRow | crates/tokio-opengauss/src/binary_copy.rs:61-99 | as long as chunks fit and the channel is connected, writing a row to the sink buffers and sends what the accepting writer of the following rows does |
| BinaryCopy.WrittenFile | crates/tokio-opengauss/src/binary_copy.rs:34-111 | across all flushes the chunks are the header, the tuples in order and the trailer, and nothing stays in the buffer |
| BinaryCopy.FileRoundTrip | crates/tokio-opengauss/src/binary_copy.rs:34-111 | for at most 32767 columns, reading the written file as the binary COPY format of PostgreSQL is documented gives back all rows, NULLs included |
| BinaryCopy.FileIsReportedExactly | crates/tokio-opengauss/src/binary_copy.rs:61-111 | while the sink accepts everything, the file is the header, the tuples of the rows reported as written, and the trailer, if and only if no row failed |
| BinaryCopy.TransferIsReportedExactly | crates/tokio-opengauss/src/binary_copy.rs:61-111 | what is read from the file is exactly the rows reported as written if and only if no row failed |
| BinaryTransfer.FileSurvivesRefusalExactly | crates/tokio-opengauss/src/binary_copy.rs:61-111 | in every run of writer, sink, channel and receiver in which the server is told that the COPY is complete: as long as no row failed, it was sent the header, the tuples of exactly the rows reported as written, and the trailer, if and only if no call handed over, together with what was buffered before, more than 2^31-5 bytes; as long as no call did, if and only if no row failed |
| BinaryTransfer.RefusalLosesHeader | crates/tokio-opengauss/src/binary_copy.rs:96-111 | a first row whose value can be encoded but which does not fit one message together with the header: a run to its end in which the server is told that the COPY is complete and the file is the trailer alone |
| BinaryTransfer.FailureCanHideLoss | crates/tokio-opengauss/src/binary_copy.rs:79-99 | a run with both a failed row and a refused chunk whose file is right although a row reported as written was thrown away: with both, neither condition decides |
| BinaryTransfer.CallsComplete | crates/tokio-opengauss/src/binary_copy.rs:101-111 | any calls of which only the last one ends the writing are made in a run to its end, with the file and the reported rows that the calls alone determine |
| BinaryTransfer.WriteIsCall | crates/tokio-opengauss/src/binary_copy.rs:61-99 | a write step of these runs leaves the buffer and the sink as the writer object's call does |
| BinaryTransfer.FinishIsCall | crates/tokio-opengauss/src/binary_copy.rs:104-111 | a successful finish of the writer object is the step of the trailer, a flush and a finish of the sink |
| BinaryCopy.FailedRowLeaksIn | crates/tokio-opengauss/src/binary_copy.rs:79-94 | whatever rows are written before and after it, a row whose last value fails without writing anything is reported as failed and transferred with an empty value in its place |
| BinaryCopy.FieldsReadExactly | crates/tokio-opengauss/src/binary_copy.rs:191-205 | for any bytes and place, fields are read if and only if the encoding of some list of so many fields stands there, and then they are its fields and end where it ends |
| BinaryCopy.RangesAreSound | crates/tokio-opengauss/src/binary_copy.rs:141-212 | for any chunk at all, a row that is read has one range per column, all inside the chunk, in order and disjoint |
| BinaryCopy.TupleReadBackExactly | crates/tokio-opengauss/src/binary_copy.rs:175-205 | a tuple is read back if and only if its column count fits the 16-bit count |
| BinaryCopy.HeaderExactly | crates/tokio-opengauss/src/binary_copy.rs:141-172 | a chunk begins with a header if and only if the magic bytes, flags and an extension of the length given stand there; bit 16 of the flags announces OIDs |
| BinaryCopy.TupleExactly | crates/tokio-opengauss/src/binary_copy.rs:174-205 | on any bytes a tuple is read if and only if one of so many columns stands there, an announced OID not being counted, and then as its fields; the stream ends exactly at -1 |
| BinaryCopy.RowsReadBack | crates/tokio-opengauss/src/binary_copy.rs:141-212 | with one tuple per chunk and the header on the first, the reader returns the fields of every row exactly when their number fits, and remembers the header |
| BinaryCopy.StreamRoundTrip | crates/tokio-opengauss/src/binary_copy.rs:141-212 | fed the chunks of a COPY OUT one after the other, the stream yields exactly all rows and then ends at the trailer |
| BinaryCopy.BinaryCopyInWriter.WriteValue | crates/tokio-opengauss/src/binary_copy.rs:79-94 | the length slot is patched in place after the value; earlier bytes stay; an error leaves slot and partial value |
| BinaryCopy.BinaryCopyInWriter.WriteRaw | crates/tokio-opengauss/src/binary_copy.rs:61-99 | the loop with its in-place patches appends exactly the row's encoding, up to the value that fails, and hands the buffer over to the sink exactly above 4096 bytes; the error is the value's or the sink's |
| BinaryCopy.BinaryCopyInWriter.FinishCopy | crates/tokio-opengauss/src/binary_copy.rs:104-111 | the trailer is handed over, the sink finished and the row count of the server's reply returned |
| BinaryCopy.BinaryCopyOutStream.PollNext | crates/tokio-opengauss/src/binary_copy.rs:141-212 | header once, OIDs flag, extension, count and fields, with every error |
| BinaryCopy.BinaryCopyOutStream.TryGet | crates/tokio-opengauss/src/binary_copy.rs:234-256 | the field at an index, or the error for a missing column or a type that is not accepted |
| Numeric.RoundTrip | crates/opengauss-types/src/rust_decimal_1.rs:14-180 | for every nonzero decimal the encoding decodes to the same sign, mantissa and scale if and only if the 4-aligned mantissa, without trailing zero fraction groups, is at most 2^96-1; otherwise to an error, never to another value |
| Numeric.ZeroRoundTrip | crates/opengauss-types/src/rust_decimal_1.rs:117-121 | a zero comes back as plain zero, so unchanged exactly when it had no sign and no scale |
| Numeric.AlignedFits | crates/opengauss-types/src/rust_decimal_1.rs:126-143 | encoding never overflows: the aligned mantissa fits 128 bits and gives at most eight groups |
| Numeric.EncodedValue | crates/opengauss-types/src/rust_decimal_1.rs:137-163 | the groups written, weighted by powers of 10000, sum to the decimal's magnitude, each at most 9999 |
| Numeric.TrimmedGroups | crates/opengauss-types/src/rust_decimal_1.rs:153-163 | trimming removes only zero fraction groups and keeps the value |
| Numeric.DecodedValue | crates/opengauss-types/src/rust_decimal_1.rs:48-99 | in all three cases of the exponent an Ok result before rescaling is the signed sum of the groups if and only if the accumulated integer is below 2^128 |
| Numeric.DecodedValueOfNineGroups | crates/opengauss-types/src/rust_decimal_1.rs:48-99 | for at most nine groups of at most 9999 the decoded value is right and no accumulation step overflows |
| Numeric.TenGroupsCanWrap | crates/opengauss-types/src/rust_decimal_1.rs:50-53 | 28 bytes that denote 2^128+5 in ten groups of at most 9999 and that `from_sql` decodes to 5 |
| Numeric.WrappingIsResidue | crates/opengauss-types/src/rust_decimal_1.rs:50-53 | the unchecked accumulation yields the exact value modulo 2^128 |
| Numeric.ToSql | crates/opengauss-types/src/rust_decimal_1.rs:114-180 | appends exactly the encoding and never fails |
| Numeric.GroupsMsbFirst | crates/opengauss-types/src/rust_decimal_1.rs:137-146 | the division loop and the reversal give the base-10000 digits, most significant first |
| Numeric.PopTrailingZeros | crates/opengauss-types/src/rust_decimal_1.rs:153-163 | the loop pops zero groups behind the decimal point only |
| Numeric.FromSql | crates/opengauss-types/src/rust_decimal_1.rs:14-108 | on every input the loops compute the decoding that DecodesExactly and OtherPayloadsFail are about |
| Numeric.DecodesExactly | crates/opengauss-types/src/rust_decimal_1.rs:14-108 | for every payload with all its groups and a plain sign the result is the groups' sum, read modulo 2^128, with whole groups multiplied in and at the display scale, or the error that says why it is no decimal |
| Numeric.AcceptedExactly | crates/opengauss-types/src/rust_decimal_1.rs:48-99 | such a payload whose sum stays below 2^128 is accepted if and only if the sum is zero, or the sum times 10000 to the power of the groups left out is at most 2^96-1 and four times the fraction groups is at most 28 |
| Numeric.OtherPayloadsFail | crates/opengauss-types/src/rust_decimal_1.rs:14-46 | short headers, the special values and cut payloads are errors, each its own |
| Numeric.ServerFormReadBack | crates/opengauss-types/src/rust_decimal_1.rs:71-99 | a decimal in the form a server sends it, whole zero groups at the end left out, is read back under the same condition as in the form of the encoder |
| Numeric.AlignedIsReadBack | crates/opengauss-types/src/rust_decimal_1.rs:14-180 | in both forms every nonzero decimal whose scale is a multiple of four is read back unchanged |
| Numeric.Accumulate | crates/opengauss-types/src/rust_decimal_1.rs:48-53 | the accumulation with 128-bit wrap-around |
| Composite.RoundTrip | crates/opengauss-derive/src/fromsql.rs:189-237 | for every nesting depth, NULLs allowed and fields in any order on either side, decoding the encoding gives the value back |
| Composite.FieldsRoundTrip | crates/opengauss-derive/src/fromsql.rs:211-229 | each field is read from exactly the bytes written for it, whatever follows |
| Composite.EncodeFailsExactly | crates/opengauss-derive/src/tosql.rs:171-212 | encoding fails if and only if some field at some depth is larger than a 32-bit length can say, and otherwise has the computed size |
| Composite.LayoutExactly | crates/opengauss-derive/src/tosql.rs:171-212 | a value is encoded as given bytes if and only if they are the field count and then for each of the server's fields, in its order, the OID of its type and the length -1, or the length and the bytes, of the struct's field of that name |
| Composite.DecodesExactly | crates/opengauss-derive/src/fromsql.rs:189-237 | any bytes are decoded to a value if and only if they hold it, every field with the right OID and length, any negative length being NULL; bytes behind are ignored |
| Composite.NoFieldIsMissing | crates/opengauss-derive/src/fromsql.rs:231-235 | for any bytes at all, no struct field is still missing when the struct is built, so unwrapping never panics |
| Composite.EveryFieldIsMatched | crates/opengauss-derive/src/accepts.rs:81-98 | the acceptance test's equal counts and found names mean that every struct field is some server field |
| Composite.ToSql | crates/opengauss-derive/src/tosql.rs:171-212 | appends exactly the encoding, or reports the error; the bytes already in the buffer stay in both cases |
| Composite.WriteSlot | crates/opengauss-derive/src/tosql.rs:186-208 | the length is reserved, then patched in place behind the value |
| Composite.Slice.ReadBeI32 | crates/opengauss-types/src/private.rs:5-13 | reads four bytes and advances, or fails without advancing |
| Composite.Slice.ReadValueBytes | crates/opengauss-types/src/private.rs:15-33 | reads a length-prefixed value; any negative length is NULL; a length beyond the buffer is an error |
| Composite.FromSql | crates/opengauss-derive/src/fromsql.rs:189-237 | on any bytes the generated loop with its temporaries gives exactly the specified value or error |
| TypeCache.ResolveFailsExactly | crates/tokio-opengauss/src/prepare.rs:135-186 | a type cannot be resolved if and only if what it is made of leads to a type without a catalog row |
| TypeCache.ResolveIsUnique | crates/tokio-opengauss/src/prepare.rs:135-186 | what an OID denotes in an acyclic catalog does not depend on the order that shows it acyclic |
| TypeCache.ResolveIsDenotation | crates/tokio-opengauss/src/prepare.rs:135-186 | resolution gives a type if and only if it is the one the catalog's row says: name and schema; an enum with its labels in the supported order, a domain over the base, an array of the element, a composite of its relation's attributes in order, a range over the subtype, in this order of preference |
| TypeCache.PreparedIsDenoted | crates/tokio-opengauss/src/prepare.rs:61-110 | a statement is prepared if and only if the server describes it, with exactly the types its parameter and column OIDs denote |
| TypeCache.FailureIsMissingRow | crates/tokio-opengauss/src/prepare.rs:135-150 | the only error of resolution is that a type has no row |
| TypeCache.BuiltinsResolve | crates/tokio-opengauss/src/prepare.rs:20-57 | the bootstrap queries use built-in types only, so preparing them looks up nothing |
| TypeCache.InnerClient.GetType | crates/tokio-opengauss/src/prepare.rs:135-186 | whatever the cache holds and other tasks do to it meanwhile, the result is the type the OID denotes, the failure of resolution without a cache, or a lost connection; the cache stays consistent and the mutual recursion terminates |
| TypeCache.InnerClient.Prepare | crates/tokio-opengauss/src/prepare.rs:61-110 | parameter and column types of a statement are those resolution without a cache gives |
| TypeCache.InnerClient.TypeinfoStatement | crates/tokio-opengauss/src/prepare.rs:195-210 | the statement cached is the one this server can run: the fallback exactly when there is no table of ranges |
| TypeCache.InnerClient.TypeinfoEnumStatement | crates/tokio-opengauss/src/prepare.rs:222-237 | the enum statement cached is the one this server can run: the fallback exactly when labels have no sort order |
| TypeCache.InnerClient.GetEnumVariants | crates/tokio-opengauss/src/prepare.rs:212-220 | the labels in the order this server supports |
| TypeCache.InnerClient.GetCompositeFields | crates/tokio-opengauss/src/prepare.rs:239-256 | the fields in attribute order with their resolved types |
| TypeCache.InnerClient.SetType | crates/tokio-opengauss/src/client.rs:136-138 | a resolved type keeps the cache consistent |
| TypeCache.InnerClient.ClearTypeCache | crates/tokio-opengauss/src/client.rs:140-142 | clearing keeps the cache consistent |
| Transactions.StepSimulates | crates/tokio-opengauss/src/transaction.rs:33-75 | every operation, also failing statements and abandoned begins, keeps the simulation of a stack of snapshots by the server's savepoint stack |
| Transactions.RunRefinesSnapshots | crates/tokio-opengauss/src/transaction.rs:33-75 | for every run with fresh names the database equals that of the stack of snapshots |
| Transactions.NoNamesakeAbove | crates/tokio-opengauss/src/transaction.rs:331-342 | above a live transaction's savepoint no entry has its name, and that entry holds its snapshot, although rolled-back savepoints stay on the stack |
| Transactions.RollbackUndoesAll | crates/tokio-opengauss/src/transaction.rs:67-75 | whatever ran inside a nested transaction, its rollback restores the database and the transaction is usable again |
| Transactions.AnswersExactly | crates/tokio-opengauss/src/transaction.rs:54-75 | a rollback succeeds and restores the snapshot; a nested transaction can be begun and committed exactly when nothing has failed; the outermost commit reports success always and keeps the changes exactly when nothing has failed |
| Transactions.AutoNamesAreFresh | crates/tokio-opengauss/src/transaction.rs:331-333 | automatically named nestings always satisfy the freshness condition |
| Transactions.ReusedNameBreaks | crates/tokio-opengauss/src/transaction.rs:323-342 | reusing a live name makes an outer rollback restore the inner snapshot |
| Transactions.SafeToNestExactlyWhenFresh | crates/tokio-opengauss/src/transaction.rs:323-342 | a name is safe to nest under in all continuations if and only if no live transaction has it |
| Transactions.Transaction.Commit | crates/tokio-opengauss/src/transaction.rs:54-62 | marks the transaction done, sends RELEASE or COMMIT and reports the server's answer |
| Transactions.Transaction.Rollback | crates/tokio-opengauss/src/transaction.rs:67-75 | marks the transaction done, sends ROLLBACK TO or ROLLBACK and reports the server's answer |
| Transactions.Transaction.Drop | crates/tokio-opengauss/src/transaction.rs:33-42 | rolls back unless done |
| Transactions.Transaction.Nested | crates/tokio-opengauss/src/transaction.rs:331-342 | a nested transaction exists exactly when its savepoint was set |
| SqlSplit.SplitIsExact | tools/gaussdb-mcp/src/interactive.rs:40-202 | the pieces joined by semicolons are the input, and the cuts are exactly the semicolons at which the lexer is in the normal state |
| SqlRegions.SemicolonCutsExactly | tools/gaussdb-mcp/src/interactive.rs:40-202 | in a text made of quoted texts with doubled quotes, dollar quotes without their delimiter inside, line comments, nested block comments and ordinary characters, and perhaps a region it ends in, a semicolon cuts if and only if it is an ordinary character |
| SqlRegions.RegionIsPassed | tools/gaussdb-mcp/src/interactive.rs:56-195 | every such region is lexed from the normal state back to it and holds no separator, whatever follows |
| SqlRegions.SplitCutsOutsideRegions | tools/gaussdb-mcp/src/interactive.rs:40-202 | every input is made of such parts, and the splitter cuts it exactly at the ordinary semicolons |
| SqlSplit.CompletedExactly | tools/gaussdb-mcp/src/interactive.rs:184-190 | of the pieces in front of the last one exactly those that are not blank are completed, trimmed and in order |
| SqlSplit.RemainderExactly | tools/gaussdb-mcp/src/interactive.rs:198-201 | the remainder is the last piece without its leading white space |
| SqlSplit.PiecesAreStatements | tools/gaussdb-mcp/src/interactive.rs:184-190 | every finished piece is lexed from and back to the normal state without a separator inside |
| SqlSplit.CompletedResplits | tools/gaussdb-mcp/src/interactive.rs:184-201 | every completed statement followed by a line break and a semicolon splits into itself alone; without the line break if and only if it does not end inside a line comment |
| SqlSplit.TrimmedCommentSwallowsSemicolon | tools/gaussdb-mcp/src/interactive.rs:184-201 | the text `--x`, a line break and `;` completes the statement `--x`, and `--x;` completes none |
| SqlSplit.SplitComposes | tools/gaussdb-mcp/src/interactive.rs:184-201 | when the first part leaves no remainder, splitting a concatenation is splitting the parts |
| SqlSplit.AcceptedLosesNothing | tools/gaussdb-mcp/src/interactive.rs:213-227 | input other than a shell command is accepted if and only if it leaves no remainder, and then whatever follows splits independently |
| SqlSplit.ValidatesExactly | tools/gaussdb-mcp/src/interactive.rs:213-227 | at once the shell accepts blank lines, a question mark, lines that begin with a dot, and otherwise exactly the input that leaves no remainder |
| SqlSplit.SplitStatements | tools/gaussdb-mcp/src/interactive.rs:40-202 | the loop over flags, depth and tag computes the split of the reference lexer |
| SqlSplit.ReadQuoted | tools/gaussdb-mcp/src/interactive.rs:56-136 | in each comment or quote state the loop body reads exactly the reference lexer's next token |
| SqlSplit.ReadPlain | tools/gaussdb-mcp/src/interactive.rs:138-195 | outside quotes and comments the loop body reads exactly the reference lexer's next token, dollar tags and comment openers included |
| SqlSplit.StripAgrees | tools/gaussdb-mcp/src/cli.rs:113-143 | the stripper removes exactly the leading white space and comments as the splitter's lexer sees them |
| SqlSplit.StripIsFinal | tools/gaussdb-mcp/src/cli.rs:113-143 | stripping is idempotent; the result is a suffix that starts with no white space or comment, empty exactly when there is nothing else, and met by the lexer in the normal state |
| SqlSplit.StripLeadingComments | tools/gaussdb-mcp/src/cli.rs:113-143 | the recursive procedure with its inner loop computes that and terminates |
| ConnString.QuotingReadBack | crates/tokio-opengauss/src/config.rs:932-990 | every value, quoted as documented, is read back unchanged and nothing behind it is touched |
| ConnString.UnquotedReadBackExactly | crates/tokio-opengauss/src/config.rs:932-967 | an unquoted value is read back if and only if it is nonempty, does not start with a quote and has no white space or backslash |
| ConnString.PrintedParses | crates/tokio-opengauss/src/config.rs:861-874 | any list of printed parameters is parsed into exactly these parameters, applied in order up to the first one refused |
| ConnString.ParameterExactly | crates/tokio-opengauss/src/config.rs:922-1004 | on any text a parameter is read if and only if the grammar has one there (white space, key, equals sign, quoted or unquoted value with escapes), and then with its key, its unescaped value and the rest |
| ConnString.ParameterErrors | crates/tokio-opengauss/src/config.rs:900-1004 | why a parameter is refused: the text ends behind its key or its equals sign, something else stands for the equals sign, or a quoted value has no end |
| ConnString.NoParameterExactly | crates/tokio-opengauss/src/config.rs:922-1004 | on any text no parameter is found if and only if, behind white space, it ends or an equals sign stands for the key |
| ConnString.AcceptedIsReadToEndExactly | crates/tokio-opengauss/src/config.rs:861-874 | every accepted text is read to its end if and only if it does not spell, by the grammar alone, some parameters and then an equals sign in place of a key; otherwise the unread part starts with that sign |
| ConnString.IgnoredSetting | crates/tokio-opengauss/src/config.rs:861-874 | `=dbname=x` is accepted, gives the defaults and is left unread |
| ConnString.StrayEqualsEndsParsing | crates/tokio-opengauss/src/config.rs:992-1004 | behind any printed parameters an equals sign hides whatever follows: the result is that of the parameters alone |
| ConnString.PrintedConnectionReadBack | crates/gaussdb/src/config.rs:265-295 | a printed connection whose settings need no quotes parses to exactly these settings, a host with commas being a list, if and only if the driver knows its TLS mode, and to an error otherwise |
| ConnString.ConnectionReadBackExactly | crates/gaussdb/src/config.rs:265-295 | for every connection with separate settings, the parameters read from the printed text are its settings, all of them and nothing else, if and only if no setting that is present needs quotes |
| ConnString.BareReadBackExactly | crates/tokio-opengauss/src/config.rs:861-874 | any list of settings printed without quotes is read back if and only if every value is plain |
| ConnString.ParseAppliesAll | crates/tokio-opengauss/src/config.rs:861-874 | parsing is applying, in order, the parameters that are read |
| ConnString.ConfigRoundTrip | crates/tokio-opengauss/src/config.rs:583-752 | every configuration that settings can express, all twenty fields, printed setting by setting and parsed, is read back as it was |
| ConnString.BindingExactly | crates/tokio-opengauss/src/config.rs:706-718 | `channel_binding`, like the other options with named values, takes exactly its named values and changes nothing else |
| ConnString.RefusedExactly | crates/tokio-opengauss/src/config.rs:583-752 | a key is refused exactly when it is none of the twenty, and a value with its own key |
| ConnString.HostListParam | crates/tokio-opengauss/src/config.rs:621-625 | a list of hosts sets all of them in order, a name that begins with a slash being a path |
| ConnString.PortListParam | crates/tokio-opengauss/src/config.rs:634-644 | a list of ports sets all of them in order, one left out being 5432 |
| ConnString.UnquotedSettingSplits | crates/gaussdb/src/config.rs:265-295 | a user name with a space, `dbname=` and a word in it is printed and read as a user and a database |
| ConnString.UserReadBackExactly | crates/gaussdb/src/config.rs:265-295 | a connection with nothing but a user is printed and read back unchanged if and only if the name needs no quotes |
| ConnString.ToConnectionUrl | crates/gaussdb/src/config.rs:265-295 | the printer pushes the parts present, in order, and joins them |
| ConnString.Parser.TakeChars | crates/tokio-opengauss/src/config.rs:880-898 | takes the longest run of matching characters |
| ConnString.Parser.TakeSimpleValue | crates/tokio-opengauss/src/config.rs:944-967 | reads up to white space, undoing escapes, and refuses an empty value |
| ConnString.Parser.TakeQuotedValue | crates/tokio-opengauss/src/config.rs:969-990 | reads up to the first unescaped quote, undoing escapes, and refuses a value without one |
| ConnString.Parser.TakeValue | crates/tokio-opengauss/src/config.rs:932-942 | a quoted value with its closing quote, or an unquoted one |
| ConnString.Parser.TakeParameter | crates/tokio-opengauss/src/config.rs:992-1004 | key, equals sign and value, with white space around |
| ConnString.ParseText | crates/tokio-opengauss/src/config.rs:861-874 | parameters are read and applied one by one; each consumes input, so parsing terminates |

## Left out

- Sockets, TLS handshakes, DNS, timeouts and the runtime: they appear as ready, pending or error results.
- Message bodies: of a normal message only its header and bytes are modelled, so an error in its body, which a client meets when it polls that message, is not.
- ConnectionTask.ConnectionObject.DeliverAsync: whether the text of a well-formed notice, notification or setting can be read (UTF-8, known fields) is an answer given with each read.
- Failures of sending during login: writing to the socket is taken to succeed there.
- Waking of tasks: a poll that is pending is simply followed by later labels; that it is followed is the runtime's duty.
- ConnectionTask.ConnectionObject.PollMessage: the map of settings is the list of setting messages in order, of which the last one per name counts.
- CopyIn.CopyInWriter.Write: blocking on the channel is one step; what the receiver does meanwhile is a separate step of the system.
- CopyIn.CopyInSink.PollFinish: the server's reply is a parameter; that its tag is UTF-8 text is not modelled.
- BinaryCopy.BinaryCopyInWriter.WriteRaw: a serializer that reports NULL is taken to have written nothing.
- Composite.RoundTrip: scalar fields are bytes that their own codecs keep; enum, domain and transparent wrappers delegate and are not modelled.
- Numeric.RoundTrip: `Decimal::rescale` and the checked constructor are contracts of the decimal library.
- TypeCache.InnerClient.GetType: the catalog does not change while a client uses it, and the effect of a failed fallback query on an open transaction is not modelled.
- Transactions.RunRefinesSnapshots: names are opaque values; folding and quoting of identifiers are not modelled.
- BinaryTransfer.FileSurvivesRefusalExactly: a call that is abandoned half-way, and calls made after the trailer has been handed over, are not modelled.
- The URL form of connection strings, date and time types, UUID, network, geometry and JSON adapters, `decimal_to_json`, `format_interval`, and the shell's printing: conversions by libraries, floating point, or output.
