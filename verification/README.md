# A verified model of the redis-rs client core

This project models, in Dafny, the parts of the redis-rs client where correctness is
hard to see by reading one function, and proves what those parts promise over every
input, every stream and every interleaving.

* **The wire.** `Text`, `Parser`, `Names`, `Framing`, `Nesting`, `Codec`, `Wire`, `Grammar`
  and `Command` hold the RESP2/RESP3 reply parser with its depth limit, the resumable
  decoder, the command buffer and the command encoder. The results: the parser accepts
  exactly the language of the reply grammar, which `Grammar` writes down on literal bytes;
  printing and parsing are inverse, framing is unambiguous, the depth limit decides every
  frame by its nesting alone, and how the bytes are cut into chunks does not matter.
* **Matching replies to requests.** `Matching` says which messages count as replies and
  what a request's own replies mean to its caller. `AsyncSink` and `Multiplexed` hold the queue of the multiplexed connection,
  `SyncConnection` the loops and the debt counter of the blocking one, `Agreement` the
  comparison of the two, `Replies`, `Pipelines` and `Atomic` the composition of results.
  `EndToEnd` joins decoder and sink: from bytes in arbitrary pieces to each caller's result.
* **Protocols on top.** `Transaction` and `TransactionLoop` (WATCH/EXEC retry), `Manager`
  (compare-and-swap reconnection), `Tracker` (subscription replay), `Drain` (leaving the
  subscribed state), `Scan` (cursor paging), `Permits` (the concurrency limiter).

State that the source updates in place is a class with `modifies` clauses, and loops are
loops; each such method is proved against a function of its inputs, and the theorems are
about those functions. Concurrent protocols are state machines whose runs are arbitrary
lists of steps, so a statement about all lists is one about all interleavings.

What the model leaves open is a parameter: UTF-8 validation, lossy decoding, doubles and
big numbers are the function fields of `Parser.Leaves` and `Drain.Foreign`; the typed
conversion of a page is a function parameter of `Scan`; what the network does is a list of
outcomes. The only thing assumed of the leaves is that ASCII text is valid UTF-8
(`Wire.AcceptsAscii`, `Tracker.ReadsNames`).

## Where the code does less than one might expect

Each of these is a property that fails as it stands. The model keeps the code as it is,
gives an input on which the property fails, and proves exactly when it holds.

* A push that arrives while a blocking connection is in debt pays for an overdue reply, and
  so do malformed bytes, which stay where they are. Inputs:
  `SyncConnection.PushPaysTheDebt`, `SyncConnection.MalformedPaysTheDebt`. Exactly when: over
  every session the debt is the number of replies outstanding if and only if the schedule
  has no push met while in debt and the stream has neither ended nor turned malformed, and
  with distinct answers a command or plain pipeline gets its own replies if and only if there
  was no such push up to then (`SyncConnection.Session`, `SyncConnection.OwnReplyExactly`).
* The blocking and the multiplexed connection differ on pushes. Inputs:
  `Agreement.EarlyPushDisagrees` (an unasked push among the skipped replies) and
  `Agreement.ConfirmationDisagrees` (a confirmed subscription taken for a reply). Exactly
  when: `Agreement.SyncAsyncAgree`, with the condition `PushesHarmless`.
* The tracker and the server differ after an UNSUBSCRIBE without names. Input:
  `Tracker.BareUnsubscriptionForgotten`. Exactly when: `Tracker.TrackerFollowsServer`, over
  whole histories.
* `arg_idx` slices from a start after its end, which panics, for a cursor argument that
  follows data. Input:
  `Command.ArgIdxOnScan`. Exactly when: `Command.ArgIdxExact`.
* Atomic mode is not transparent for an empty pipeline: the plain one is refused, the
  transaction succeeds. Input and condition: `Atomic.AtomicIsTransparent`.
* Two clients on one connection lose updates. Input: `Transaction.SharedConnectionLoses`.
  Exactly when: `Transaction.NoLostUpdate`.
* A disconnection push can replace a healthy connection. Input:
  `Manager.HealthyConnectionReplaced`. Exactly when: `Manager.PushReplacesAnother`, over
  whole runs.
* A message published on RESP2 during the drain can fail it, or end it early. Inputs:
  `Drain.PublishedMessage`, `Drain.PatternMessageFails`. Exactly when: for every stream with
  the server's answers in order and anything between them, `Drain.DrainedExactlyWhen`; on
  RESP3 messages do no harm wherever they stand (`Drain.MessagesDoNoHarm`).
* An error reply to MULTI has no command index; the subtraction wraps around to the
  largest machine word (`Matching.SkippedErrorsExact`). Builds with overflow checks stop
  there instead.
* The repository's own reply encoder announces one byte too few for verbatim text with a
  three-letter format, and such a frame is always rejected (`Wire.ShortLengthRejected`).
  Exactly when it reads back: for two-letter formats (`Wire.EncoderVerbatimReadsBack`).
  `Wire.Encode` writes the right length.

The comment on `transaction_async` says that UNWATCH is sent when the closure fails; the
code sends it after every closure, and the model follows the code.

## Model

| member | source | states |
|---|---|---|
| Framing.ValueStable | redis/src/parser.rs:71-325 | appending bytes never changes a verdict already reached, and an unfinished parse can only be completed by using appended bytes |
| Framing.VerdictIsFinal | redis/src/parser.rs:361-383 | a completed or rejected parse is unchanged by extending the input, and the extra bytes are exactly what is left over |
| Framing.ParseSplitsOffAFrame | redis/src/parser.rs:71-325 | every input that parses is one non-empty frame followed by the bytes left over, and the frame alone gives the same value |
| Framing.StrictPrefixNeedsMore | redis/src/parser.rs:361-383 | no proper prefix of a frame yields a value or an error |
| Framing.FrameIsUnique | redis/src/parser.rs:71-325 | a byte stream starts with at most one frame: value and length are determined |
| Framing.DepthBounded | redis/src/parser.rs:78-88 | a value parsed at recursion level n nests at most 101 - n levels |
| Framing.ParsedDepthAtMost100 | redis/src/parser.rs:25-25 | every value handed out nests at most 100 levels, whatever the input declares |
| Framing.PartsAreShallower | redis/src/parser.rs:78-88 | whatever stands inside a value, at whatever place, nests less deeply than the value |
| Nesting.ValueCut | redis/src/parser.rs:71-325 | for all bytes and leaves, finished or not, a parser with less room gives the verdict of one with more room, or rejects, by the number of levels that have arrived alone |
| Nesting.LimitIsExact | redis/src/parser.rs:78-88 | whatever a larger limit makes of the bytes (a value, an error, or waiting for more), the client makes the same of them while they nest at most 100 levels, and rejects them as soon as the first byte of a deeper level has arrived |
| Nesting.DeepValuesRejected | redis/src/parser.rs:25-25 | the frame of any value nested deeper than 100 levels is an error |
| Framing.PairLengths | redis/src/parser.rs:153-203 | in 64-bit arithmetic the doubled length overflows exactly for negative declared lengths, and the extra element of an attribute never overflows |
| Framing.MapAndAttributeFraming | redis/src/parser.rs:153-203 | a successful map or attribute holds exactly the declared number of pairs in wire order, and an attribute always has its payload, which is the last element |
| Framing.CollectPairs | redis/src/parser.rs:158-167 | the pairing loop yields the consecutive pairs in order and leaves what follows them for the payload |
| Parser.PairsInOrder | redis/src/parser.rs:183-191 | the i-th pair is made of elements 2i and 2i+1 |
| Parser.ParseValue | redis/src/parser.rs:71-325 | parsing is total with remaining depth and remaining bytes as its measure, and every success consumes input |
| Grammar.ParserIsGrammar | redis/src/parser.rs:71-325 | for all bytes, leaves and values: a frame followed by anything is read as a value, leaving exactly what follows, if and only if the grammar of the fifteen reply types says that the frame denotes that value within 100 levels |
| Grammar.NullForms | redis/src/parser.rs:118-252 | a null line, and a negative length of a bulk string, an array or a set, are read as Nil |
| Grammar.BulkNamedPush | redis/src/parser.rs:217-250 | a push whose kind is sent as a bulk string is read as the push of that kind, for every well-formed push |
| Grammar.UnknownTagRejected | redis/src/parser.rs:306-323 | a reply that starts with any other byte than the fifteen types is an error at once |
| Grammar.WrongLineRejected | redis/src/parser.rs:89-305 | a line that is not UTF-8, not a number where one is due, a negative number of pairs, or no boolean, double or big number is an error as soon as it is complete |
| Grammar.WrongEndRejected | redis/src/parser.rs:118-137 | a payload that does not end where its length says is an error as soon as that shows |
| Grammar.ErrorExact | redis/src/parser.rs:27-54 | an error text is read as the error whose code, one of fourteen literal words or another one, and detail it spells |
| Grammar.KindCalled | redis/src/parser.rs:56-69 | a push name is read as the kind that has this literal name, or as another one if none has |
| Grammar.ConfirmationNames | redis/src/types.rs:347-360 | a push answers a request exactly if its name is one of six literal ones |
| Grammar.ConfirmationsSubscribe | redis/src/types.rs:347-360 | those six are the listed names that end in "subscribe" |
| Names.ErrorReadsBack | redis/src/parser.rs:27-54 | printing an error reply and reading it gives the error back if and only if an unlisted code is a single word outside the table |
| Names.KindReadsBack | redis/src/errors/server_error.rs:40-58 | the code printed for each known kind is read as that kind |
| Names.PushKindReadsBack | redis/src/parser.rs:56-69 | printing a push kind and looking it up gives it back if and only if it is not the client's own notice and not an alias of a listed name |
| Names.VerbatimReadsBack | redis/src/parser.rs:270-288 | printing verbatim text and reading it gives it back if and only if its format is no alias of a known one and has no colon |
| Text.PrintParseI64 | redis/src/parser.rs:108-117 | every 64-bit integer survives printing, trimming and parsing |
| Text.NumeralExact | redis/src/parser.rs:108-117 | a text is read as an integer exactly if it is a 64-bit integer written with an optional sign, any zeros and its decimal notation |
| Text.TrimExact | redis/src/parser.rs:108-117 | trimming cuts Unicode white space off both ends, and what is left neither starts nor ends with any |
| Text.WhiteExact | redis/src/parser.rs:108-117 | the bytes taken for white space are exactly the UTF-8 encodings of the code points with that property |
| Text.FindCrlfIsFirst | redis/src/parser.rs:90-97 | a line ends at the first CR LF and nowhere earlier |
| Codec.ValueCodec.DecodeStream | redis/src/parser.rs:361-383 | one decoding attempt gives what parsing the bytes taken so far plus the buffer gives; an unfinished reply loses no byte; at the end of input nothing pending is no value and an unfinished reply an error; with a value exactly its frame is removed |
| Codec.DecodeContinues | redis/src/parser.rs:361-383 | decoding a longer stream continues where decoding the shorter one stopped |
| Codec.StreamEnds | redis/src/parser.rs:361-383 | decoding a stream stops at an unfinished reply, which is what is left, or at a malformed one |
| Codec.ReadAvailable | redis/src/aio/multiplexed_connection.rs:171-188 | the read loop yields all complete replies of what has arrived and keeps the rest |
| Codec.ReceiveChunks | redis/src/parser.rs:361-383 | a stream cut at any positions, with any amount taken over by unfinished parses, yields the values and the outcome of the stream parsed whole |
| Codec.FailureIsFinal | redis/src/parser.rs:361-383 | after a malformed reply no later chunk changes what was decoded |
| Wire.ValueRoundTrip | redis/tests/support/mod.rs:408-474 | every well-formed value, encoded and followed by any bytes, parses to that value and leaves those bytes if it nests at most 100 levels, and is rejected if it nests deeper |
| Wire.LeafReadsBack | redis/src/parser.rs:89-137 | each reply without elements is read back from its encoding, foreign numbers and verbatim text included |
| Wire.ItemsRoundTrip | redis/src/parser.rs:139-150 | consecutive encoded elements are read back in order, or all rejected when one is too deep |
| Wire.HeaderReadsBack | redis/src/parser.rs:139-251 | an aggregate's header asks for exactly its elements, doubled for maps and doubled plus one for attributes |
| Wire.BlobErrorReadsBack | redis/src/parser.rs:269-269 | an error with a length is read as the same error as one on a line |
| Wire.LevelsOfEncoding | redis/src/parser.rs:78-88 | on what an encoder writes, the levels the parser meets are the nesting of the value's frame |
| Wire.ShortLengthRejected | redis/tests/support/mod.rs:442-448 | verbatim text announced one byte too short, as for every three-letter format, is rejected, whatever the text and what follows |
| Wire.EncoderVerbatimReadsBack | redis/tests/support/mod.rs:442-448 | verbatim text as the repository frames it reads back, followed by anything, if and only if the name of its format has two letters |
| Command.Cmd.constructor | redis/src/cmd.rs:485-495 | a new command has no arguments, no cursor and no flags |
| Command.Cmd.WriteArg | redis/src/cmd.rs:362-366 | the argument list grows by exactly this argument, whatever bytes it holds |
| Command.Cmd.CursorArg | redis/src/cmd.rs:591-595 | the argument list grows by a cursor placeholder and the cursor is set |
| Command.Cmd.Clear | redis/src/cmd.rs:535-545 | the command is as new |
| Command.Build | redis/src/cmd.rs:759-770 | after every sequence of builder calls the iterator returns exactly those arguments in order, and the cursor is the one given last |
| Command.CountDigits | redis/src/cmd.rs:272-291 | counting four digits at a time gives the length of the decimal notation |
| Command.BulkLen | redis/src/cmd.rs:294-296 | the announced length of a bulk string is the length of its header, content and terminator |
| Command.ArgsLen | redis/src/cmd.rs:298-310 | the computed length equals the length of the encoding |
| Command.WriteCommand | redis/src/cmd.rs:336-360 | exactly the encoding of the request is appended |
| Command.CmdLen | redis/src/cmd.rs:312-314 | the space reserved for a command is exactly what writing it fills |
| Command.GetPackedCommand | redis/src/cmd.rs:603-610 | a command without arguments is no bytes at all, any other its encoding |
| Command.RequestHolds | redis/src/cmd.rs:336-360 | the request of a command is an array of its arguments as they are, with the decimal cursor, zero if none is set, in each place kept for it |
| Command.ArgIdxExact | redis/src/cmd.rs:774-795 | indexing agrees with the iterator if and only if the argument is plain, does not end at offset zero and is not preceded by a cursor placed after data; its slice starts after its end exactly for a cursor that follows data |
| Command.ArgIdxWithoutCursors | redis/src/cmd.rs:774-795 | on commands without cursors and with a non-empty name indexing and iterating agree everywhere |
| Command.ArgIdxOnScan | redis/src/cmd.rs:774-795 | on SCAN with a cursor, asking for the cursor slices from 4 to 0 |
| Replies.ExtractErrorExact | redis/src/types.rs:513-536 | extraction succeeds and changes nothing exactly when no server error sits at any depth; otherwise it fails with the first one in reading order |
| Replies.ExtractErrorMap | redis/src/types.rs:538-544 | the map loop gives every pair unchanged, or the first error in reading order |
| Pipelines.Pipeline.constructor | redis/src/pipeline.rs:43-55 | a new pipeline is empty and plain |
| Pipelines.Pipeline.AddCommand | redis/src/pipeline.rs:295-298 | appends a command and keeps ignored indices below the command count |
| Pipelines.Pipeline.Ignore | redis/src/pipeline.rs:320-326 | ignores the last command if there is one, keeping ignored indices below the command count |
| Pipelines.Pipeline.Clear | redis/src/pipeline.rs:346-349 | forgets commands and ignored indices but not the modes |
| Pipelines.Pipeline.Atomic | redis/src/pipeline.rs:71-74 | turns on transaction mode and changes nothing else |
| Pipelines.Pipeline.IgnoreErrors | redis/src/pipeline.rs:121-124 | turns on error tolerance and changes nothing else |
| Pipelines.WritePipeline | redis/src/pipeline.rs:267-287 | appends the encodings of all requests, MULTI first and EXEC last when atomic, and reserves exactly their length |
| Pipelines.PipelineRoundTrip | redis/src/pipeline.rs:261-287 | decoding a packed pipeline followed by any bytes yields one array per command with exactly its arguments and its cursor, the literal MULTI first and EXEC last when atomic, and leaves exactly the following bytes |
| Pipelines.RequestCarries | redis/src/cmd.rs:603-610 | a packed command followed by any bytes is read as an array of its arguments, byte for byte and in order, with the cursor in its place, and leaves exactly those bytes |
| Pipelines.FilterKeeps | redis/src/pipeline.rs:360-373 | filtering keeps exactly the replies whose index is not ignored, each after the kept ones before it |
| Pipelines.FilterNothing | redis/src/pipeline.rs:364-366 | the shortcut for an empty ignore set agrees with the filter |
| Pipelines.TopErrorsExact | redis/src/pipeline.rs:382-389 | the list holds exactly the top-level errors with their positions, in increasing order |
| Pipelines.ComposeExact | redis/src/pipeline.rs:375-398 | without error tolerance the result is the list of top-level errors, ignored positions included, exactly when there is one, otherwise the kept replies exactly when no error sits in them at any depth; with it always the kept replies |
| Matching.SkippedErrorsExact | redis/src/aio/multiplexed_connection.rs:239-258 | an aborted transaction reports exactly the errors among its skipped replies, one entry each and in their order, with the index of the command each answers; the reply to MULTI has none and its index wraps |
| Matching.ErrorPositionsExact | redis/src/aio/multiplexed_connection.rs:243-252 | the reported positions are exactly those of the errors, strictly increasing |
| Matching.RepliesAmongAsked | redis/src/aio/multiplexed_connection.rs:192-216 | every message the blocking connection takes for a reply the multiplexed one takes too |
| AsyncSink.AbsorbPartial | redis/src/aio/multiplexed_connection.rs:238-293 | an entry that has taken in some of its replies and takes one more either waits for the remaining ones or completes with the meaning of all of them |
| AsyncSink.FirstErrorSticks | redis/src/aio/multiplexed_connection.rs:240-285 | once an entry has noted a transport error, no later reply or error changes it and its caller can only get that one |
| AsyncSink.BatchExact | redis/src/aio/multiplexed_connection.rs:238-293 | for every mixture of replies and transport errors a batch goes on until as many values as it expects came after its skipped part, and then gives the first transport error that counts (of the skipped part only in a transaction), else the aborted transaction, else the values |
| AsyncSink.ReplyStep | redis/src/aio/multiplexed_connection.rs:222-293 | a reply goes to the front entry and to nothing else |
| AsyncSink.SendStep | redis/src/aio/multiplexed_connection.rs:359-369 | a new request waits behind the others and changes nothing for them |
| AsyncSink.OwedExact | redis/src/aio/multiplexed_connection.rs:190-295 | replies owed by the queue are those of all requests sent less those received |
| AsyncSink.CallerGetsItsSlice | redis/src/aio/multiplexed_connection.rs:190-295 | each answered caller's result is the meaning of its own slice of the reply stream, at its place in send order; an unanswered one has nothing |
| AsyncSink.AtMostOnce | redis/src/aio/multiplexed_connection.rs:190-295 | no caller gets two results and every result belongs to a caller |
| Multiplexed.PipelineSink.constructor | redis/src/aio/multiplexed_connection.rs:152-168 | a new sink has sent, received and delivered nothing |
| Multiplexed.PipelineSink.Cancel | redis/src/aio/multiplexed_connection.rs:343-348 | a caller may go away at any time without disturbing the invariant |
| Multiplexed.PipelineSink.SendOutput | redis/src/aio/multiplexed_connection.rs:227-232 | a result is handed to its caller and arrives unless the caller has gone |
| Multiplexed.PipelineSink.Aggregate | redis/src/aio/multiplexed_connection.rs:227-293 | the entry goes back to the front with the reply or error noted, or its result is handed out |
| Multiplexed.PipelineSink.SendResult | redis/src/aio/multiplexed_connection.rs:190-295 | pushes are routed, unasked ones and replies nobody waits for change nothing else, every reply keeps queue and results equal to what the history implies, and a transport error goes to the front entry alone |
| Multiplexed.PipelineSink.StartSend | redis/src/aio/multiplexed_connection.rs:335-377 | a request is sent and queued unless its caller has gone; an earlier or present transport error is reported to it and nothing is queued |
| Multiplexed.RunAll | redis/src/aio/multiplexed_connection.rs:171-295 | after every run of sends, cancellations, no-response requests, replies and unasked pushes the queue and the results are what the history implies |
| Multiplexed.Happen | redis/src/aio/multiplexed_connection.rs:171-188 | each event moves the sink to what the extended history implies |
| Multiplexed.HistoryExact | redis/src/aio/multiplexed_connection.rs:190-369 | over every run the callers gone are those cancelled, a request was sent unless its caller had been cancelled before, and an arrival counts as a reply exactly if it is no unasked push and replies were owed |
| Multiplexed.LiveCallerServed | redis/src/aio/multiplexed_connection.rs:190-295 | after every run the queue owes commands sent less replies received, and a caller has its result exactly if its replies are all in: its own slice, once, in send order, and received unless it had gone |
| Multiplexed.ConfirmationIsReply | redis/src/aio/multiplexed_connection.rs:192-220 | with two commands waiting, a push with one of the six confirming names answers the first and the next value the second; a push with any other name is passed over |
| EndToEnd.Receive | redis/src/aio/multiplexed_connection.rs:171-295 | if encoded replies, mixed with unasked pushes, arrive cut into any chunks, decoder and sink together leave nothing queued and every caller has received exactly the meaning of its own slice, in send order |
| EndToEnd.ArrivalsHistory | redis/src/aio/multiplexed_connection.rs:190-220 | after all requests are sent, arriving messages count as replies exactly if they are not unasked pushes and still owed |
| EndToEnd.SinkTakes | redis/src/aio/multiplexed_connection.rs:204-293 | the caller of a batch gets the meaning of the first messages that are not unasked pushes, confirmed subscriptions among them |
| EndToEnd.Drive | redis/src/aio/multiplexed_connection.rs:171-377 | for every interleaving of requests, leaving callers and chunks of bytes, decoder and sink end with the queue and results that the requests sent and the replies decoded so far imply |
| EndToEnd.ArrivedInOrder | redis/src/parser.rs:361-383 | however the bytes were cut and interleaved, what arrived is the whole stream decoded at once |
| EndToEnd.TimelyReplies | redis/src/aio/multiplexed_connection.rs:190-222 | if no reply comes before its request, every reply in the stream counts, so callers get slices of the stream itself |
| SyncConnection.GatherExact | redis/src/connection.rs:2007-2046 | the loop collects as errors those of the first `offset` messages and as values the replies among the later ones, pushes left out |
| SyncConnection.Connection.constructor | redis/src/connection.rs:1553-1561 | a new connection has no debt and nothing outstanding |
| SyncConnection.Connection.ParseValue | redis/src/connection.rs:1847-1866 | the peer's replies arrive in order, one by one, until the stream ends or malformed bytes stand in the way, and from then on every read fails the same way |
| SyncConnection.Connection.Read | redis/src/connection.rs:1846-1892 | overdue messages are passed over while in debt and malformed bytes pay for them, a timeout adds to the debt, the end of the stream closes the connection, and debt, pushes taken for replies and replies given up together keep up with the replies outstanding |
| SyncConnection.Connection.ReqCommand | redis/src/connection.rs:1960-1995 | whatever fails, debt, swallowed pushes and replies given up add up to the replies outstanding again, a returned reply answers this very command if no push was ever taken for an overdue reply, and on a broken stream there is none |
| SyncConnection.Connection.ReadReplies | redis/src/connection.rs:2007-2046 | the loop leaves no reply of the pipeline unread that was not added to the debt or given up, what it gathers is determined by the schedule alone, and if no read failed the replies it read are the pipeline's own |
| SyncConnection.Connection.ReqPackedCommands | redis/src/connection.rs:1997-2053 | whatever fails, the books balance again afterwards; if no read failed the result is made of the pipeline's own replies, otherwise it is the aborted transaction or the first failure; on a broken stream always an error |
| SyncConnection.Session | redis/src/connection.rs:1846-2053 | over every session with timeouts and pushes anywhere and the stream ending or turning malformed at any point: the debt is the number of replies outstanding if and only if no push was met while in debt and the stream is not broken, every successful result consists of the replies to the commands as many places earlier as such pushes were met (without pushes, to that very request), and nothing succeeds on a broken stream |
| SyncConnection.OwnReplyExactly | redis/src/connection.rs:1869-1873 | with distinct answers a successful command or plain pipeline is given its own replies if and only if no push was met while in debt up to then; after the first such push every later one is wrong |
| SyncConnection.PaidGrows | redis/src/connection.rs:1869-1873 | a reply paid for by a push stays mispaid for the rest of the session |
| SyncConnection.PushPaysTheDebt | redis/src/connection.rs:1869-1873 | with a push the next command is given the late reply of the one before |
| SyncConnection.MalformedPaysTheDebt | redis/src/connection.rs:1875-1881 | a read that meets malformed bytes clears the whole debt, with every overdue reply still unread, and fails |
| SyncConnection.FailureReported | redis/src/connection.rs:1847-1891 | without debt, a timeout on the first read is reported as an I/O error, malformed bytes as a parse failure and the end of the stream as such, by a single command and by a pipeline alike, whatever the pipeline reads afterwards |
| SyncConnection.FirstFailureStands | redis/src/connection.rs:2007-2046 | once a read of a pipeline has failed, no later read changes which failure is reported |
| SyncConnection.PlainResult | redis/src/connection.rs:2007-2046 | what a single command or plain pipeline returns is the replies to the commands as many places earlier as pushes were swallowed, whatever pushes came in between |
| Agreement.SyncAsyncAgree | redis/src/connection.rs:1997-2053 | on every stream that answers a batch in full the blocking loop and the aggregator return the same list, or the same aborted transaction with the same indices, if and only if the pushes are harmless: none unasked before the last skipped error, or without such an error none at all in the skipped part and no confirmed subscription among the messages taken |
| Agreement.EarlyPushDisagrees | redis/src/connection.rs:2026-2037 | a push before EXEC's reply makes the blocking loop return a QUEUED too many |
| Agreement.ConfirmationDisagrees | redis/src/aio/multiplexed_connection.rs:204-216 | a confirmed subscription before a reply is returned by the aggregator in its place and passed over by the blocking loop |
| Agreement.ErrorListsAgree | redis/src/connection.rs:2019-2025 | the two error lists are equal and not empty exactly when nothing was left out before the last error |
| Agreement.KeptAgree | redis/src/connection.rs:2026-2038 | the two value lists are equal exactly when no push is in the skipped part or among the messages taken |
| Atomic.TransactionAnswer | redis/src/aio/multiplexed_connection.rs:238-293 | a transaction whose commands were queued reaches the caller as EXEC's array |
| Atomic.SyncIsAsync | redis/src/pipeline.rs:177-219 | without pushes a query gives the same on both connection types |
| Atomic.AtomicIsTransparent | redis/src/pipeline.rs:177-258 | on both connection types the result in atomic mode equals the result in plain mode, positions and ignored commands included, if and only if there is a command |
| Atomic.AbortedByWatch | redis/src/pipeline.rs:238-243 | a transaction discarded by the server reaches the caller as Nil, which makes the transaction loop retry |
| Transaction.EachCallCommitsOnce | redis/src/connection.rs:2384-2399 | over every interleaving with every loss each call commits at most once, one that returns a result exactly once, and the calls account for every commit |
| Transaction.DirtyExactly | redis/src/connection.rs:2384-2399 | over every run a connection's watch is dirty exactly if there was a commit since that watch began |
| Transaction.ConflictsAreRetried | redis/src/connection.rs:2384-2399 | at every EXEC of every run that is answered: after a commit since the watch began nothing changes and the client starts over at WATCH, in the asynchronous loop after UNWATCH whatever becomes of that; otherwise it commits and returns a result once UNWATCH is answered |
| Transaction.ErrorsHaveACause | redis/src/aio/connection.rs:149-161 | over every run a call ends in an error if and only if one of its own requests failed, UNWATCH counting in the blocking loop alone; a conflict is no failure |
| Transaction.AnsweredNeverFails | redis/src/connection.rs:2384-2399 | over every run a client whose requests are all answered, or whose closure asks for a retry in place of EXEC, never returns an error, whatever conflicts it meets |
| Transaction.AloneSucceeds | redis/src/connection.rs:2384-2399 | a client that nobody disturbs commits once, returns a result and leaves nothing watched, in five requests |
| Transaction.GivingUp | redis/src/aio/connection.rs:149-161 | over every run a closure that gives up sends nothing; the asynchronous loop then lets go of the watch once its UNWATCH reaches the server, the blocking loop keeps it through its next WATCH |
| Transaction.NoLostUpdate | redis/src/connection.rs:2384-2399 | in every run from every start the counter has grown by the number of committed EXECs, if and only if no two clients share a connection |
| Transaction.SharedConnectionLoses | redis/src/aio/connection.rs:113-121 | two clients on one connection have a run with two commits that moves the counter by one |
| Transaction.ConsistentStep | redis/src/aio/connection.rs:149-161 | on separate connections no step breaks the invariant that a clean watch guards a current value |
| Transaction.AccountedStep | redis/src/aio/connection.rs:149-161 | no step lets a call commit twice or return a result without a commit |
| TransactionLoop.Closure | redis/src/connection.rs:2364-2369 | the increment closure takes the steps of the interleaved system |
| TransactionLoop.BlockingTransaction | redis/src/connection.rs:2384-2399 | the blocking loop, run among other clients, takes exactly the system's steps, and a call that returns committed at most once, with a result exactly once |
| TransactionLoop.AsyncTransaction | redis/src/aio/connection.rs:149-161 | the same for the asynchronous loop, which ignores what becomes of UNWATCH |
| Manager.ConnectionManager.TryReconnect | redis/src/aio/connection_manager.rs:613-664 | the swap happens and an attempt is started exactly if the generation found lost is still in place |
| Manager.ConnectionManager.CheckForDisconnectPushes | redis/src/aio/connection_manager.rs:666-687 | undisturbed, the listener replaces a generation for each disconnection and hands on every push in order if there is someone to take them |
| Manager.SingleFlight | redis/src/aio/connection_manager.rs:613-664 | in every interleaving no generation has two successors, attempts started are exactly the swaps, and a generation was replaced exactly if someone who loaded it reported it lost |
| Manager.FailureReplacesItsOwn | redis/src/aio/connection_manager.rs:404-425 | at every point of every run a command's failure replaces the generation it loaded if that is current and otherwise changes nothing; afterwards a newer one is in place |
| Manager.CommandSwapsWhatItLoaded | redis/src/aio/connection_manager.rs:691-717 | every swap a command made in a run replaced the generation that command had loaded |
| Manager.CommandReplacesLoaded | redis/src/aio/connection_manager.rs:691-717 | over every run a command that loads the connection, is overtaken by anything and fails replaces the generation current at its load if and only if nobody replaced it in between; one that succeeds, or is over, replaces nothing |
| Manager.PushReplacesAnother | redis/src/aio/connection_manager.rs:666-687 | over every run a disconnection push replaces a generation other than its source if and only if its source was no longer current when it was taken in and no swap came before the listener's own |
| Manager.SameGeneration | redis/src/aio/connection_manager.rs:653-663 | over any stretch of a run the same generation is current exactly if there was no swap |
| Manager.HealthyConnectionReplaced | redis/src/aio/connection_manager.rs:681-681 | a run in which the push of an already replaced generation replaces its successor |
| Tracker.SubscriptionTracker.constructor | redis/src/subscription_tracker.rs:8-13 | a new tracker tracks nothing |
| Tracker.SubscriptionTracker.UpdateWithRequest | redis/src/subscription_tracker.rs:70-96 | the set of the request's kind gains or loses exactly the names, the others stay |
| Tracker.SubscriptionTracker.UpdateWithCmd | redis/src/subscription_tracker.rs:98-103 | a command counts exactly as the request it is read as |
| Tracker.SubscriptionTracker.GetSubscriptionPipeline | redis/src/subscription_tracker.rs:105-127 | one command per non-empty set, in fixed order, naming each member once in the order the set yields them |
| Tracker.NamesDiffer | redis/src/subscription_tracker.rs:53-67 | the six command names are told apart in whatever case |
| Tracker.RequestExact | redis/src/subscription_tracker.rs:35-68 | a command is read as a request exactly if its name is UTF-8 and spells one of six literal names in whatever case, and then of that kind and direction; any other command is none |
| Tracker.PlaceholdersDropOut | redis/src/subscription_tracker.rs:48-51 | the names of a request are its arguments in order, without cursor placeholders |
| Tracker.TrackedExactly | redis/src/subscription_tracker.rs:70-96 | after any history a name is tracked exactly when the last request of its kind naming it was a subscribe |
| Tracker.TrackCommands | redis/src/subscription_tracker.rs:35-103 | after any run of commands the tracker holds what their requests amount to |
| Tracker.ReplayRebuilds | redis/src/aio/connection_manager.rs:631-639 | feeding the generated commands to an empty tracker rebuilds the three sets for every iteration order |
| Tracker.TrackerFollowsServer | redis/src/subscription_tracker.rs:86-95 | after any history the tracker holds what the server holds if and only if every name tracked at an unsubscription without names is named again by a later request of its kind |
| Tracker.ServerHoldsExactly | redis/src/subscription_tracker.rs:70-96 | the server holds a name exactly when it is tracked and no unsubscription without names came after its last naming |
| Tracker.BareUnsubscriptionForgotten | redis/src/subscription_tracker.rs:91-95 | after a subscription and an unsubscription without names the tracker still holds what the server dropped |
| Drain.PubSubConnection.ClearActiveSubscriptions | redis/src/connection.rs:1714-1791 | both commands are sent, overdue messages are passed over, and the drain loop ends where the specification says and leaves the messages after that unread; if the messages run out it fails with the debt that a timeout, the end of the stream or malformed bytes leave |
| Drain.PubSubConnection.RecvResponse | redis/src/connection.rs:1668-1670 | the first message past the debt; without one a timeout adds to the debt, the end of the stream keeps what is overdue, and malformed bytes pay for all of it |
| Drain.ReadsAsConnection | redis/src/connection.rs:1846-1892 | on the same messages a read of the drain and a read of the blocking connection give the same message, or the same failure with the same debt left |
| Drain.PubSubConnection.SendBytes | redis/src/connection.rs:1899-1910 | the bytes are sent if the transport takes them, and otherwise the failure is reported |
| Drain.PubSubConnection.ExitPubsub | redis/src/connection.rs:1698-1708 | the connection counts as subscribed afterwards exactly if the drain failed |
| Drain.DrainIsExact | redis/src/connection.rs:1714-1791 | for all channels and patterns, on both protocols, with or without NOSUB errors, with noise anywhere and overdue messages in front: the drain ends exactly on the last reply, leaves everything after it, and is still waiting after any shorter part |
| Drain.DrainedExactlyWhen | redis/src/connection.rs:1714-1791 | for every stream that holds the server's answers in order with anything between them and ends on an answer, the drain reads exactly up to its end if and only if everything else was noise when it came |
| Drain.ClearedMeansSkimmed | redis/src/connection.rs:1737-1786 | in every state, a drain that ends on the last answer of a stream has ignored exactly what is no answer |
| Drain.MessagesDoNoHarm | redis/src/connection.rs:1740-1753 | pushes that confirm nothing and have no number in second place may stand anywhere among the answers |
| Drain.AnswersAreNotNoise | redis/src/connection.rs:2404-2448 | every reply to the two commands counts |
| Drain.NoiseIsIgnored | redis/src/connection.rs:1740-1786 | the noise in a state of the loop is exactly what answers neither command and leaves that state as it is |
| Drain.VerdictStands | redis/src/connection.rs:1737-1786 | how a drain ends does not depend on what comes later |
| Drain.FailsExactly | redis/src/connection.rs:1755-1786 | in every state the drain fails at once on an error with another code than NOSUB, on an array that is no triple and on every reply that is no push, error or array, and on nothing else |
| Drain.TupleExact | redis/src/connection.rs:1772-1773 | an array is read as kind and count exactly if it has three elements: one that stands for the kind (a string, a list or set of bytes in any of their notations, or nothing), no error, and one that stands for the count |
| Drain.AnswersSetAFlag | redis/src/connection.rs:2404-2448 | what counts as an answer is exactly what marks one of the commands as answered when none was |
| Drain.AnswerForms | redis/src/connection.rs:1740-1781 | the server's answers are arrays or errors on RESP2 and pushes or errors on RESP3 |
| Drain.PublishedMessage | redis/src/connection.rs:1772-1781 | a published RESP2 message fails the drain exactly if its payload is no numeral; a numeral other than zero is passed over in every state, zero unless both commands have had an answer, and then it ends the drain early |
| Drain.PatternMessageFails | redis/src/types.rs:2208-2212 | a RESP2 message published to a pattern always fails the drain |
| Scan.Server.Request | redis/src/connection.rs:1980-1995 | one reply per request, in order; an empty request is refused |
| Scan.CheckedIter.constructor | redis/src/cmd.rs:687-700 | the iterator starts with the first page's batch and cursor |
| Scan.CheckedIter.Fetch | redis/src/cmd.rs:143-154 | the request carries the last cursor; a page replaces batch and cursor, a failure leaves them |
| Scan.CheckedIter.Next | redis/src/cmd.rs:131-157 | each call hands out the next item of the course that batch, cursor and replies determine, converted or failed, passing over empty pages; it ends exactly at cursor zero, and without replies left reports an error |
| Scan.Take | redis/src/cmd.rs:131-157 | for any replies and any number of calls, each call gives the item, error or end that the course has at its place |
| Scan.Collect | redis/src/cmd.rs:131-157 | calling until the end yields the whole course, sends exactly its cursors and asks for nothing more |
| Scan.Iter | redis/src/cmd.rs:658-704 | the first reply is read as a page if it looks like one and as a complete list otherwise |
| Scan.FirstReplyExact | redis/src/types.rs:456-466 | the first reply is read as a page exactly if it is an array of a bulk string and an array, and as the whole list otherwise |
| Scan.CarriedReads | redis/src/cmd.rs:143-146 | the server reads each further request as the command's arguments with the cursor of the reply before it in the cursor's place |
| Scan.PagesUpToZero | redis/src/cmd.rs:131-157 | for every list of pages the items are those of the pages up to the first zero cursor, each request carries the previous reply's cursor, and no later reply is asked for |
| Scan.ScanAll | redis/src/cmd.rs:658-704 | a whole scan from its first request on yields exactly the items of the pages up to the first zero cursor, be it the first page; the bytes sent are the command as given and then with each cursor in turn, and nothing after the zero |
| Scan.ErrorsLoseNothing | redis/src/cmd.rs:143-150 | failed requests in between change no item and not the final cursor |
| Permits.PermitVecCapacity | redis/src/aio/multiplexed_connection.rs:516-518 | a pipeline's capacity is the smaller of its size, at least one, and the limit |
| Permits.BuildConcurrencyLimiter | redis/src/aio/multiplexed_connection.rs:521-533 | a limit of zero is refused, no limit gives no limiter, any other one with all permits free |
| Permits.ConcurrencyLimiter.constructor | redis/src/aio/multiplexed_connection.rs:508-512 | a new limiter has all its permits free |
| Permits.Semaphore.Acquire | redis/src/aio/multiplexed_connection.rs:777-777 | waiting ends with one permit less |
| Permits.Semaphore.TryAcquire | redis/src/aio/multiplexed_connection.rs:837-840 | a permit is taken exactly if one is free |
| Permits.ConcurrencyLimiter.AcquireMany | redis/src/aio/multiplexed_connection.rs:832-842 | undisturbed, a pipeline takes its capacity or all there is, and no permit is lost |
| Permits.PermitsConserved | redis/src/aio/multiplexed_connection.rs:773-845 | over every interleaving held and free permits add up to the limit, each limited request in progress holds between one and its capacity, at most `limit` are in progress, and a request waits only while another holds a permit |
| Permits.WaiterServed | redis/src/aio/multiplexed_connection.rs:777-777 | over every run a waiting request gets a permit exactly if one is free, and a single command then runs |
| Permits.SubmissionWaits | redis/src/aio/multiplexed_connection.rs:773-782 | a request that skips the limit runs at once without a permit, any other one waits |
| Permits.LeavingFrees | redis/src/aio/multiplexed_connection.rs:828-845 | a request that is over, completed or cancelled, gives back all it held |
| Permits.NoDeadlock | redis/src/aio/multiplexed_connection.rs:828-832 | from every point of every run a waiting request can still get its permit while the others only finish what they do, so pipelines that hold some permits never block each other |
| Permits.ShortOnlyWhenExhausted | redis/src/aio/multiplexed_connection.rs:836-841 | a pipeline starts exactly when it has its capacity or no permit is free |
| Permits.AllPermitsReturn | redis/src/aio/multiplexed_connection.rs:828-845 | when all requests are over, completed or cancelled, every permit is free again |

## Left out

- Wire.ValueRoundTrip: doubles and big numbers are written as the text they were read from, because printing the number itself is left to foreign libraries.
- Wire.HeaderReadsBack: stated for the headers an encoder writes; other length lines are covered by Nesting.LimitIsExact, negative lengths by Framing.PairLengths.
- Codec.ValueCodec.DecodeStream: how many bytes an unfinished parse takes over, and whether the end of input after the start of a reply is an error when the buffer itself is empty, are decided by the parser library and left open; the state left by an error is not stated.
- Multiplexed.PipelineSink.SendResult: after a transport error the front entry's new state is stated (AsyncSink.BatchExact says what it amounts to) but not the history invariant, since such an error counts as no reply; the read loop stops at an unrecoverable one.
- Multiplexed.RunAll: runs on a working transport; SUBSCRIBE to several channels, which is answered by several pushes, is one request that takes one of them.
- SyncConnection.Connection.ParseValue: that malformed bytes are met again by every later read is taken from the decoder returning its error before it advances; the parser state such an error leaves is not modelled.
- SyncConnection.Connection.ReqPackedCommands: the number of messages a request can meet is taken to fit a machine word.
- SyncConnection.Connection.ReqCommand: commands without a response are not modelled; leaving the subscribed state before a request is Drain.PubSubConnection.ExitPubsub.
- Transaction.NoLostUpdate: the closure is read, increment, EXEC, or giving up; an empty key list, which the asynchronous function refuses, is not modelled.
- Drain.PubSubConnection.ClearActiveSubscriptions: repeating a drain that failed is not modelled.
- Scan.Collect: the loop until the end has an end only if the replies reach cursor zero; Scan.Take states every number of calls on any replies.
- Scan.Server.Request: pushes and overdue replies met while reading are those of SyncConnection.
- Permits.PermitsConserved: the order in which waiting requests get permits is left to the semaphore.
- Sockets, TLS, runtimes, wakers and clocks: a read or a send is an outcome that the model takes as given.
- The client-side cache, cluster handling, sentinel, the separate asynchronous pubsub connection, scripts and connection setup: the cache and cluster branches are configured out, the others add easy members or repeat a queue modelled here.
- Typed conversions of arguments and replies, and the chunked argument writer: many easy branches and no property over runs.
