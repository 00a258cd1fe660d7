# AMP manager: verified core

A Dafny model of the parts of this gateway where a subtle mistake costs data or money, with proofs of what each part
promises over every input, every chunking and every run. `dafny verify dfyconfig.toml` checks all of it.

**The event-stream pipeline.** Upstream bodies are scripts of pieces of any size, with the end of file or an error
attached to any of them (`UpstreamReader`); buffers of the caller have any size. On top of the shared delimiter
search (`Framing`) and event parser (`SSEEvent`, with its round trip in `EventText`) stand the transparent retry wrapper (`RetryPolicy`,
`RetryPatterns`, `RetryWrapper`), the frame rewriter (`Transform`, `TransformEvents`), the token extractor (`Usage`,
`TokenExtractor`), the SSE-to-JSON aggregator (`Aggregator`) and the audited buffer (`PseudoNonStream`); `Pipeline`
stacks the first three readers. Each is a class or loop as in the program, proved to be a function of the bytes
alone, by a specification on whole streams that mentions no pieces and no buffers; only what is left of an attempt
whose retry is refused depends on its reads.

**Billing.** `Windows` is the calendar arithmetic of the quota windows, `Ledger` one settlement as a function on
rows, `BillingServices` the service that refines it, `Runs` what every sequence of top-ups and settlements keeps, and
`SettlementRules` what that means on the tables.

**Smaller cores.** The SQL placeholder lexer (`Placeholders`), the tool-name allocator and its round trip
(`ToolNames`, `ToolPrefixer`, `NameRules`), two-phase archiving (`Archive`), and channel selection (`Channels`,
`SelectionRules`).

## What turned out not to hold

Where a promise of the program fails, the code is modelled as it is, and the exact condition is proved.

- A limit on a *sliding month* can be exceeded, because "one month earlier" moves back from 3 March (seen on 31
  March) to 1 March (seen on 1 April). `LimitAlwaysKeptIff`: with strictly later readings a limit is kept on all
  runs if and only if it is not a positive limit on a sliding month.
- A sliding window ends just before the moment it is asked for, so two settlements at one reading of the clock do
  not see each other. `KeptDespiteTiesIff`: where readings may coincide with earlier stamps, exactly the fixed,
  total and zero limits are kept on all runs.
- The comment on `transformSSEFrame` says that only JSON lines change. `[DONE]` starts like an array, so
  `data:[DONE]` becomes `data: [DONE]` (`MarkerRespaced`); a payload the transform returns as it is keeps its line
  exactly if that is already spaced so (`LeftAloneIff`).
- Settling a request twice can charge it twice: uniqueness is per request *and source*
  (internal/database/sqlite.go:475). `SettledTwice` is a case, `RepeatChargesIff` the condition.
- The comment on `archiveOldDetails` says that data is never lost. That needs the hot and archived rows of a batch
  to agree: a row rewritten after it was archived is dropped by the next run (`DisagreementLosesRow`,
  `MoveKeepsViewIff`).
- `tool_choice` is said to match the prefix of its tool. It does not if a built-in or external tool shares its
  normal form with a prefixed one (`ChoiceDrifts`, `ChoiceFollowsToolIff`).
- Names such as `a_b` and `a-b` share one prefixed name, and only the first comes back (`SharedFormNotRestored`,
  `RoundTripIff`).
- A refused retry loses data: the old body is closed already, so only what had been read of it is delivered.
  `ByteLost` is a case; `CutIff` says when an attempt is cut, `DeliveredInFullIff` when that loses something, in
  terms of the reads, and `ReadThrough` what is delivered.
- A plan whose every limit has the int64 maximum left counts as having nothing left. `MaximalPlanHasNothing` is a
  case, `RemainingMeaning` the condition.
- A selection can panic by indexing with a negative remainder once its model has been selected 2^63 times.
  `PanicsAt` is a case, `PanicIff` the condition.

## Assumptions

Payload contents are read through uninterpreted total functions (JSON access, lower-casing, the payload transform,
the audit, the model matcher); every theorem holds for all of them. A payload transform is handed the end marker
like any payload; `EndKeptIff` says what it has to do with it. A transform that returns `[DONE]` as it is and makes
it of nothing else meets that, as long as what it returns has no line feeds. Times are nanoseconds since the Unix
epoch, and clock readings are not before it. A closed body reports its end or an error, not an endless run of empty
reads. White space is trimmed as Go does, by its UTF-8 encodings. Database transactions commit as a whole or not at
all, and any call may fail. Settlements are serialised: each checks its windows after the stamp of every earlier
event (for fixed and total limits, not before it) and stamps its own event later, possibly in another window.

## Model

| member | source | states |
|---|---|---|
| `Framing.DelimiterIsFirstBlankLine` | internal/amp/channel_router.go:1087-1105 | the earliest-start search over two delimiters finds exactly the earliest end of a blank line, and nothing only if there is none |
| `Framing.FrameLenStable` | internal/amp/channel_router.go:1087-1105 | a delimiter found in a prefix is the one found in every extension |
| `Framing.FramesPartition` | internal/amp/channel_router.go:1087-1105 | frames and residual give the stream back; every piece is one frame, the residual holds none |
| `Framing.FramesAppend` | internal/amp/channel_router.go:1087-1105 | splitting text as it arrives, keeping only the residual, equals splitting the whole |
| `Framing.FramesUnique` | internal/amp/channel_router.go:1087-1105 | there is only one way to cut a stream into frames and a frameless rest |
| `Framing.FrameLenPeel` | internal/amp/channel_router.go:1087-1105 | where the first frame ends, in terms of the first line and the text behind it |
| `Bytes.TrimSpaceEnds` | internal/amp/openai_responses_sse_aggregate.go:143-153 | trimming leaves no Unicode white space at either end, and what it cuts off is a sequence of white-space runes |
| `Bytes.SpaceRunesAreUnicode` | internal/amp/openai_responses_sse_aggregate.go:143-153 | what trimming takes for white space are the UTF-8 forms of Unicode's white-space code points |
| `SSEEvent.ParseSSEEvent` | internal/amp/openai_responses_sse_aggregate.go:138-168 | the one-pass loop with its early return computes the event of the frame: up to the first `[DONE]`, the last name and the joined non-empty data |
| `SSEEvent.DoneAt` | internal/amp/openai_responses_sse_aggregate.go:152-156 | the first `[DONE]` line ends the event, with the last name before it and no payload |
| `SSEEvent.LineEndsDoNotMatter` | internal/amp/openai_responses_sse_aggregate.go:140-147 | a frame parses alike with LF and with CRLF line ends |
| `SSEEvent.PayloadNotBlank` | internal/amp/openai_responses_sse_aggregate.go:152-166 | a payload, where there is one, is never blank |
| `SSEEvent.DataFrame` | internal/amp/openai_responses_sse_aggregate.go:138-168 | a frame of one data line reads as its trimmed payload |
| `EventText.WrittenIsRead` | internal/amp/openai_responses_sse_aggregate.go:138-168 | an event written as `event: ` and `data: ` lines is read back: its name, and its data joined by line feeds |
| `EventText.DoneIsRead` | internal/amp/openai_responses_sse_aggregate.go:152-156 | a line `data: [DONE]` ends the event whatever follows; the name before it is kept |
| `EventText.WrittenIsFrame` | internal/amp/channel_router.go:1087-1105 | an event so written is exactly one frame |
| `RetryPolicy.DecideStable` | internal/amp/sse_concurrency_retry.go:143-239 | a verdict reached on a prefix of an attempt is the verdict on the whole attempt |
| `RetryPolicy.LeadMeaning` | internal/amp/sse_concurrency_retry.go:174-239 | a stream is retried, or let through, exactly because of its first frame that is neither comment nor prelude |
| `RetryPolicy.DoneLetsThrough` | internal/amp/sse_concurrency_retry.go:167-239 | an end marker always lets the stream through |
| `RetryPatterns.RetryableIff` | internal/amp/sse_concurrency_retry.go:35-61 | a frame is retryable if and only if it is a named error event reporting the concurrency limit, or reports a stream read error by code or message |
| `RetryPatterns.OpenIff` | internal/amp/sse_concurrency_retry.go:167-231 | the verdict stays open exactly for comments and for the six prelude event types |
| `RetryPatterns.NextAttemptDelivered` | internal/amp/sse_concurrency_retry.go:181-224 | an attempt that begins with such an error is replaced by an acceptable second one |
| `RetryPatterns.FourthAttemptDelivered` | internal/amp/sse_concurrency_retry.go:181-224 | three retries are made before an error is let through |
| `RetryPatterns.LimitRetried` | internal/amp/sse_concurrency_retry.go:41-48 | a run whose first attempt is refused for the concurrency limit gives the second attempt and none of the error |
| `RetryPolicy.RunIgnoresPieces` | internal/amp/sse_concurrency_retry.go:108-243 | which attempt is delivered, and whether it is cut, depends on the bytes of the attempts alone, not on their pieces |
| `RetryPolicy.RunMeaning` | internal/amp/sse_concurrency_retry.go:108-243 | a run ends with the first attempt whose leading frame that is neither comment nor prelude is not a retryable error, or the last one allowed, whole; or it is cut where a retry is refused |
| `RetryPolicy.CutIff` | internal/amp/sse_concurrency_retry.go:201-217 | a run is cut if and only if the retry of some attempt is refused, all up to it being retryable |
| `RetryPolicy.HeldBegins` | internal/amp/sse_concurrency_retry.go:116-165 | what has been read of an attempt at its verdict is a beginning of its stream |
| `RetryPolicy.LeastReadsIs` | internal/amp/sse_concurrency_retry.go:116-129 | the least number of 8 KiB reads that give n bytes |
| `RetryPolicy.HeldIs` | internal/amp/sse_concurrency_retry.go:116-239 | what is held at the verdict are the bytes of a number of reads fixed by the frames: each turn makes one read and examines at most one frame, as soon as it is complete |
| `RetryPolicy.DeliveredInFullIff` | internal/amp/sse_concurrency_retry.go:201-217 | the attempt a run ends with is delivered in full if and only if its retry is not refused, or that many reads give all its bytes |
| `RetryPolicy.RestIsLost` | internal/amp/sse_concurrency_retry.go:201-217 | after an error frame in one piece and a refused retry everything behind that frame is lost |
| `RetryPolicy.ByteLost` | internal/amp/sse_concurrency_retry.go:201-217 | a concrete such run, with an error payload as an upstream sends it |
| `RetryWrapper.SSEConcurrencyRetryWrapper.Read` | internal/amp/sse_concurrency_retry.go:108-243 | keeps the every-step invariant under any pieces, buffer sizes, read errors and refused retries; terminates; returns bytes in order; at end of file exactly what the run is to deliver, fixed at the start, has been delivered |
| `RetryWrapper.SSEConcurrencyRetryWrapper.Examine` | internal/amp/sse_concurrency_retry.go:167-239 | the first complete frame is staged, triggers a retry, or starts forwarding, and the goal of the run never changes |
| `RetryWrapper.SSEConcurrencyRetryWrapper.Retry` | internal/amp/sse_concurrency_retry.go:181-222 | the old body is closed; on success nothing of it is kept, on refusal exactly what it had yielded is forwarded |
| `RetryWrapper.SSEConcurrencyRetryWrapper.Fill` | internal/amp/sse_concurrency_retry.go:117-129 | one read keeps the invariant and uses up input, or ends the stream, or fails |
| `RetryWrapper.SSEConcurrencyRetryWrapper.NothingMixed` | internal/amp/sse_concurrency_retry.go:65-76 | in every reachable state, before forwarding all the current attempt yielded is held and nothing delivered; afterwards delivered, pending and buffered bytes are what one single attempt yielded |
| `RetryWrapper.SSEConcurrencyRetryWrapper.Budget` | internal/amp/sse_concurrency_retry.go:181-204 | at most three retry calls over the whole life, after one, two and three base waits |
| `RetryWrapper.SSEConcurrencyRetryWrapper.VerdictReached` | internal/amp/sse_concurrency_retry.go:167-239 | the verdict on the frame at hand, after staged open frames, is the verdict on the attempt's whole stream |
| `RetryWrapper.ReadAll` | internal/amp/sse_concurrency_retry.go:108-243 | a client reading with any buffers terminates; it only ever gets a beginning of the run's outcome, and without read errors all of it |
| `RetryWrapper.ReadThrough` | internal/amp/sse_concurrency_retry.go:98-243 | end to end: the bytes up to end of file are exactly one attempt's whole stream, or exactly what had been read of the attempt whose retry was refused, error frame included; reached whenever no attempt that is used has a read error |
| `Transform.TransformSSEFrame` | internal/amp/sse_transform.go:75-97 | overwriting the lines in place gives the line-wise image of the frame |
| `Transform.JsonLineRewritten` | internal/amp/sse_transform.go:78-95 | a `data:` line whose trimmed payload begins with a brace or bracket becomes `data: ` and the image of that payload, its carriage return kept |
| `Transform.OtherLineKept` | internal/amp/sse_transform.go:78-95 | every other line comes back as it is |
| `Transform.ToolUseRewritten` | internal/amp/sse_transform.go:83-89 | a tool-use object is handed to the transform |
| `Transform.TransformLineKeeps` | internal/amp/sse_transform.go:78-95 | rewriting keeps which lines are empty; if every image is safe, also which are a lone carriage return and which end in one, and no line gets a frame end |
| `Transform.RewritingKeepsBlankLines` | internal/amp/sse_transform.go:75-97 | with safe images a text holds a frame end, or ends in its first one, exactly when its rewriting does |
| `Transform.FramingPreserved` | internal/amp/sse_transform.go:75-97 | with safe images, re-splitting the output gives exactly the rewritten frames and rest |
| `Transform.FramingPreservedIff` | internal/amp/sse_transform.go:75-97 | the framing of every stream is kept if and only if the image of everything a transform may be handed is safe: no frame end in it, also once its line is ended, and no carriage return at its end |
| `Transform.ReturningTextIsSafe` | internal/amp/sse_transform.go:86-88 | a transform that returns text as it is, or as one line not ending in a carriage return, has safe images |
| `Transform.SSETransformWrapper.Read` | internal/amp/sse_transform.go:30-73 | keeps the refinement to whole streams; at end of file all of the upstream has been delivered, rewritten frame by frame; progress on every call |
| `Transform.SSETransformWrapper.TakeFrames` | internal/amp/sse_transform.go:55-63 | every complete frame in the buffer is rewritten in order and none is left |
| `Transform.SSETransformWrapper.AllDelivered` | internal/amp/sse_transform.go:35-42 | delivered bytes at the end equal the rewriting of the whole stream, rest included |
| `Transform.ReadThrough` | internal/amp/sse_transform.go:30-73 | chunk independence: a client gets the rewriting of the upstream's bytes, whatever the pieces and buffers |
| `TransformEvents.RewrittenLine` | internal/amp/sse_transform.go:78-95 | the rewriter finds the payload where the event parser finds it; the parser reads its image, and any other line is untouched |
| `TransformEvents.RewrittenFrame` | internal/amp/sse_transform.go:75-97 | if what is handed over comes back without line feeds, parsing a rewritten frame gives the original event with each JSON payload line replaced by its image |
| `TransformEvents.RewritingKeepsNameAndEnd` | internal/amp/sse_transform.go:75-97 | the event's name and whether it ends the stream are kept by a transform that keeps the marker |
| `TransformEvents.EndKeptIff` | internal/amp/sse_transform.go:84-90 | the end marker of every frame is seen behind the rewriter as before it if and only if the transform keeps it and forges none |
| `TransformEvents.LeftAloneIff` | internal/amp/sse_transform.go:76-95 | a data line whose payload the transform returns as it is stays as it is if and only if it is spaced as the rewriter does |
| `TransformEvents.MarkerRespaced` | internal/amp/sse_transform.go:76-95 | the line `data:[DONE]` is changed although it carries no JSON |
| `Usage.UsageParser.ConsumeSSE` | internal/amp/usage_parser.go:56-98 | the stateful merge of message_start and message_delta, field by field, is one step of the parser's state function |
| `Usage.RequestTrace.SetUsage` | internal/amp/request_trace.go:116-131 | given counters replace earlier ones, absent ones leave them |
| `Usage.OutputIsLastReported` | internal/amp/usage_parser.go:62-95 | although message_start resets the parser, the trace's output count is the last one any message_delta reported |
| `Usage.ExtractedIffReported` | internal/amp/usage_parser.go:76-95 | a stream counts as extracted exactly when some message_delta carried a usage |
| `Usage.CurrentIsSaid` | internal/amp/usage_parser.go:62-91 | input, cache-read and cache-creation counts of the parser are the last a delta gave since the latest message_start, or else that start's |
| `Usage.CountersAreSaid` | internal/amp/usage_parser.go:62-95 | the trace has these values as of the last message_delta with a usage, and what that message had not mentioned is as it was |
| `Usage.CachedMessage` | internal/amp/usage_parser.go:66-95 | a message read from the cache: prompt counts from its start, output from its delta |
| `TokenExtractor.ScanChunk` | internal/amp/token_extractor.go:108-145 | scanning pieces while keeping the unfinished line equals scanning the joined text |
| `EventRules.WrittenIsHanded` | internal/amp/token_extractor.go:119-143 | a written event is handed to the parser line by line: its name with the first data line, none with the others |
| `TokenExtractor.SSETokenExtractor.ProcessChunk` | internal/amp/token_extractor.go:108-145 | every line the chunk completes is processed once and in order, the unfinished one kept |
| `TokenExtractor.SSETokenExtractor.FlushRemainingBuffer` | internal/amp/token_extractor.go:70-105 | the flush makes the events seen those of the whole text split into lines |
| `TokenExtractor.SSETokenExtractor.ParseSSEData` | internal/amp/token_extractor.go:148-163 | the parser's state, the trace's four counters and the extracted flag stay the account of all events handed over |
| `TokenExtractor.SSETokenExtractor.Read` | internal/amp/token_extractor.go:54-60 | the caller gets exactly the reader's bytes and error, and the scan covers exactly the bytes passed |
| `TokenExtractor.ForwardAndClose` | internal/amp/token_extractor.go:54-145 | after any run and close the trace is a pure fold over the bytes forwarded, and these are the upstream's |
| `Aggregator.TakeFrames` | internal/amp/openai_responses_sse_aggregate.go:42-79 | the inner loop stops exactly at the first `[DONE]` frame, or takes every complete frame and leaves the unfinished rest; it keeps the latest snapshot among the frames taken |
| `Aggregator.AggregateSSE` | internal/amp/openai_responses_sse_aggregate.go:19-98 | a response or a missing-response error is a function of the whole stream alone, and of at most 50 MB read; the size error means the stream is longer than that; read errors and cancellation only where they occur |
| `Aggregator.AggregateMeaning` | internal/amp/openai_responses_sse_aggregate.go:59-92 | the result is the snapshot of the last complete frame carrying one before the first `[DONE]` frame, an error exactly if there is none |
| `Aggregator.DoneDecides` | internal/amp/openai_responses_sse_aggregate.go:54-58 | once `[DONE]` is met nothing that follows changes the result |
| `EventRules.SnapshotRule` | internal/amp/openai_responses_sse_aggregate.go:65-79 | a payload is a snapshot if it embeds a response object or is one itself, and else not |
| `EventRules.OneEventAggregated` | internal/amp/openai_responses_sse_aggregate.go:65-92 | a stream of one event aggregates to the response in it, or to an error if it has none |
| `PseudoNonStream.ExtractText` | internal/amp/pseudo_non_stream.go:273-334 | the audit sees the texts of exactly the frames in front of `[DONE]`, the same ones the aggregator reads |
| `EventRules.OneEventAudited` | internal/amp/pseudo_non_stream.go:273-334 | the audit of a stream of one event sees the text of that event |
| `PseudoNonStream.BufferUpstream` | internal/amp/pseudo_non_stream.go:94-143 | the buffer handed on is the response chosen by the audit, never a mixture of attempts |
| `PseudoNonStream.AuditedMeaning` | internal/amp/pseudo_non_stream.go:98-141 | that response is the whole stream of one attempt, all earlier ones were rejected, and it is approved unless no further one was to be had |
| `PseudoNonStream.ThirdResponse` | internal/amp/pseudo_non_stream.go:98-141 | after two rejected responses the third is handed on |
| `PseudoNonStream.FirstResponse` | internal/amp/pseudo_non_stream.go:112-134 | an approved response is handed on at once, and a rejected one if no other can be had |
| `Pipeline.StreamToClient` | internal/amp/channel_router.go:698-783 | the three readers stacked: the client gets the rewriting of exactly one attempt, or of what was held of a refused one, with its framing kept, and the trace is a fold over these bytes |
| `Windows.FixedWindowContains` | internal/service/quota.go:40-81 | a moment lies in its own fixed window |
| `Windows.FixedWindowPartition` | internal/service/quota.go:40-81 | every moment of a fixed day, week, month or five-hour window has that same window |
| `Windows.FixedWindowIs` | internal/service/quota.go:40-81 | the fixed window of a moment is the one whole day, week from Monday, calendar month or multiple of five hours that contains it |
| `Windows.NewYear` | internal/service/quota.go:62-65 | the calendar's months add up to Gregorian years, leap years included |
| `Windows.FarFutureIs` | internal/service/quota.go:16 | the end of total windows is one second before the year 2100 |
| `Windows.SlidingContains` | internal/service/quota.go:45-80 | sliding windows hold exactly the 24 hours, 7 days or 5 hours before now |
| `Windows.TotalContains` | internal/service/quota.go:81-83 | a total window holds exactly the moments from the start of the subscription to the end of 2099 |
| `Windows.SlidingStartMonotone` | internal/service/quota.go:45-80 | the start of a sliding window never moves back, months excepted |
| `Windows.MonthEarlierIs` | internal/service/quota.go:66-69 | one month earlier is as many days earlier as the previous month has |
| `Windows.SlidingMonthMovesBack` | internal/service/quota.go:66-69 | in every year the sliding month of 31 March starts after that of 1 April |
| `Windows.MonthUnique` | internal/service/quota.go:62-65 | a day has exactly one calendar month |
| `Ledger.MinLeftIsLeast` | internal/service/billing.go:357-386 | the minimum is below every limit's remainder and attained, or the sentinel |
| `Ledger.RemainingMeaning` | internal/service/billing.go:329-392 | the remaining quota is the least amount left, and positive exactly if every limit has something left and not all have the sentinel's value |
| `Ledger.MaximalPlanHasNothing` | internal/service/billing.go:388-391 | an unused plan of maximal limits has nothing remaining |
| `BillingServices.BillingService.CalcSubscriptionRemainingTx` | internal/service/billing.go:329-392 | the loop computes the remaining quota, an error exactly for an unknown limit type |
| `BillingServices.BillingService.CalcSubscriptionRemaining` | internal/service/billing.go:110-136 | the same minimum over the limits of known type whose usage query succeeds |
| `BillingServices.ConsultedIsOptimistic` | internal/service/billing.go:114-122 | limits passed over can only raise that minimum |
| `BillingServices.BillingService.GetSubscriptionRemaining` | internal/service/quota.go:90-147 | the same minimum, with one correct overview line per limit |
| `BillingServices.BillingService.CanStartRequest` | internal/service/billing.go:62-108 | an error exactly if a lookup it makes fails; otherwise true exactly if a configured source has something left |
| `BillingServices.SplitLoop` | internal/service/billing.go:177-207 | the loop over the two sources computes the closed-form split |
| `BillingServices.BillingService.WriteCharges` | internal/service/billing.go:212-245 | all rows are written or none; the clamp of the balance to zero is never taken |
| `BillingServices.BillingService.SettleRequestCost` | internal/service/billing.go:138-250 | the service refines one settlement on values; any failing call leaves all rows unchanged |
| `BillingServices.BillingService.TopUpBalance` | internal/repository/user.go:257-274 | adds to the user's row if there is one, and says whether there was |
| `Runs.StepConserves` | internal/service/billing.go:220-230 | one step: balance plus balance charges on record changes only by deposits; the balance stays non-negative |
| `Runs.Conservation` | internal/service/billing.go:138-250 | over any run the balance is the initial one plus deposits minus balance charges, and never negative |
| `Runs.ChargedOnceKept` | internal/database/sqlite.go:475 | over any run each request and source has at most one charge |
| `Runs.SettlementCoversCost` | internal/service/billing.go:177-239 | charged subscription, charged balance and uncovered remainder add up to the cost, are recorded, and a remainder means both sources are empty |
| `Runs.SecondaryAfterPrimary` | internal/service/billing.go:180-207 | by the user's settings row, or subscription first by default: the primary source pays what it can, the secondary the rest, and only when the primary one is exhausted |
| `SettlementRules.BalanceFirst` | internal/service/billing.go:180-233 | a user whose row puts the balance first pays all of a cost it covers from it, and no subscription event is written |
| `SettlementRules.SubscriptionFirst` | internal/service/billing.go:180-218 | a user whose row puts the subscription first, or without a row, pays all of a cost every limit has room for from it |
| `SettlementRules.ExpiredPaysNothing` | internal/service/billing.go:306-319 | a subscription expired at the time of the lookup pays nothing |
| `SettlementRules.NewEventsAreTheRequests` | internal/service/billing.go:212-223 | every new event is a charge of this request and user, stamped with its reading of the clock |
| `SettlementRules.NoCostNoCharge` | internal/service/billing.go:139-144 | without cost nothing is charged and the log says so; a negative cost is an error |
| `SettlementRules.OneMoreEvent` | internal/repository/billing_event.go:40-57 | charges of the subscription inside the half-open window add to its usage, refunds take away, nothing else counts |
| `SettlementRules.ChargeCountsForSpan` | internal/service/billing.go:356-380 | a charge stamped at t lowers what is left under a sliding limit exactly for t < now <= t + span |
| `Runs.RepeatChargesIff` | internal/service/billing.go:214-223 | a repeated settlement charges again exactly if each source it takes from has not charged the request |
| `Runs.SettledTwice` | internal/service/billing.go:214-223 | a case in which a request is charged twice its cost |
| `Runs.EarlierCharges` | internal/service/billing.go:356-372 | charges a later window still sees were all seen by the check, even across a window boundary |
| `Runs.ChargeKeepsLimit` | internal/service/billing.go:356-392 | a charge within what was left at the check keeps the limit at every moment |
| `Runs.LimitsKept` | internal/service/billing.go:138-250 | over any run, for every limit but a sliding month, no window at any moment holds more charges than its limit |
| `SettlementRules.SpanNeverExceeded` | internal/service/billing.go:138-250 | over any run no 24 hours, 7 days or 5 hours hold more charges than a sliding limit of that span |
| `Runs.SlidingMonthBroken` | internal/service/quota.go:66-69 | every positive limit on a sliding month is exceeded by some run |
| `Runs.LimitAlwaysKeptIff` | internal/service/quota.go:40-88 | if each check reads a later time than the last stamp, a limit is kept on all runs if and only if it is not a positive limit on a sliding month |
| `Runs.TieBreaksSliding` | internal/service/quota.go:45-80 | every positive sliding limit is exceeded by two settlements at one reading of the clock |
| `Runs.KeptDespiteTiesIff` | internal/service/quota.go:40-88 | if a check may read the time of the last stamp, a limit is kept on all runs if and only if it is fixed, total or zero |
| `Runs.PreCheckAgrees` | internal/service/billing.go:62-136 | on the same rows and readings a request may start exactly when settling any positive cost takes from a source, and, if it has not been charged before, makes its total grow |
| `Placeholders.RewritePlaceholders` | internal/database/postgres_rewrite.go:213-303 | the flag-driven loop computes the rewriting defined by the recursive lexer |
| `Placeholders.TakeByte` | internal/database/postgres_rewrite.go:227-300 | one turn of the loop is one move of the five-state machine |
| `Placeholders.ScanIsRender` | internal/database/postgres_rewrite.go:227-302 | the state machine writes what the lexer's tokens render to |
| `Placeholders.TokensSound` | internal/database/postgres_rewrite.go:234-299 | every literal and comment begins with its opening and ends at its first closing or with the text, no other byte opens one, and no other `?` is left in place |
| `Placeholders.RewriteMeaning` | internal/database/postgres_rewrite.go:213-303 | the query is cut into tokens without loss, placeholders are numbered 1, 2, ... left to right, every other token is kept in place |
| `Placeholders.DigitsDenote` | internal/database/postgres_rewrite.go:293-296 | the decimal digits written denote the number |
| `Placeholders.RewriteIdempotent` | internal/database/postgres_rewrite.go:213-303 | rewriting a rewritten query changes nothing, on every string |
| `Placeholders.PlaceholderList` | internal/database/sqlite.go:182-192 | the loop builds the comma-separated list of its entries |
| `Placeholders.ListRewrites` | internal/database/sqlite.go:182-192 | the portable list rewrites to the PostgreSQL list of the same length |
| `ToolNames.ReverseSound` | internal/amp/claude_tool_transform.go:64-86 | no key is an original tool name; each key is the prefix plus the normal form of its value |
| `ToolNames.ReverseFirst` | internal/amp/claude_tool_transform.go:75-85 | a prefixed name belongs to the first eligible name that claims it |
| `ToolNames.RoundTrip` | internal/amp/claude_tool_transform.go:123-247 | with distinct normal forms and no prefixed name, unprefixing a prefixed request restores its messages in full, nested references included |
| `ToolNames.RoundTripIff` | internal/amp/claude_tool_transform.go:123-247 | the messages are restored if and only if every renamed name in them is the first of its normal form in the request, and no name at any depth was already the candidate of a renamed one |
| `ToolNames.SharedFormNotRestored` | internal/amp/claude_tool_transform.go:14-16 | two names that differ in underscore and hyphen are not both restored |
| `NameRules.PrefixedRule` | internal/amp/claude_tool_transform.go:14-86 | names beginning with `mcp__` and names of built-in tools stay; any other becomes the prefix and its hyphenated, lower-cased form, unless a tool has that name |
| `NameRules.ReadFile` | internal/amp/claude_tool_transform.go:14-16 | `Read_File` becomes `mcp__tools__mcp-read-file` |
| `NameRules.ToolRule` | internal/amp/claude_tool_transform.go:88-108 | a tool entry with a type keeps its name, one without gets the prefixed name |
| `NameRules.ReplacedPlaces` | internal/amp/claude_tool_transform.go:123-180 | names are replaced in tool uses, tool references, and references inside a tool result |
| `NameRules.OtherPlacesKept` | internal/amp/claude_tool_transform.go:123-180 | messages without such items come back as they are |
| `ToolPrefixer.Allocator.PrefixName` | internal/amp/claude_tool_transform.go:64-86 | the growing name set and reverse map give every name a result that does not depend on when it is seen |
| `ToolPrefixer.Allocator.PrefixAll` | internal/amp/claude_tool_transform.go:123-180 | the nested loops rewrite exactly the names in items and in references directly inside tool results |
| `ToolPrefixer.Prefix` | internal/amp/claude_tool_transform.go:25-194 | tools, tool_choice, messages and reverse map after the whole pass |
| `ToolPrefixer.ReverseMapSound` | internal/amp/claude_tool_transform.go:25-194 | for a whole request, no key of the reverse map is the name of one of its tools |
| `ToolPrefixer.ChoiceFollowsToolIff` | internal/amp/claude_tool_transform.go:109-120 | tool_choice keeps naming its tool if and only if that tool is eligible or no prefixed tool has its normal form |
| `ToolPrefixer.ChoiceDrifts` | internal/amp/claude_tool_transform.go:109-120 | a case in which choosing a built-in tool ends up choosing a custom one |
| `Archive.RequestDetailStore.Get` | internal/amp/request_detail_store.go:443-462 | a lookup reads memory, then the union of the two tables |
| `Archive.LookupRule` | internal/amp/request_detail_store.go:443-462 | memory before the hot table before the archive, and nothing only if all three lack the row |
| `Archive.RequestDetailStore.ArchiveOldDetails` | internal/amp/request_detail_store.go:635-768 | stopped after any database call the tables are untouched, copied or moved, nothing between; enough calls complete the move; runs are throttled |
| `Archive.StopsSafely` | internal/amp/request_detail_store.go:635-768 | wherever a run stops, no row is lost and every id reads as before, if the tables agree |
| `Archive.MoveKeepsViewIff` | internal/amp/request_detail_store.go:691-768 | a complete move keeps what is visible if and only if already archived rows of the batch equal the hot ones |
| `Archive.RerunReaches` | internal/amp/request_detail_store.go:699-768 | a complete rerun after a run that stopped anywhere ends where the uninterrupted run would have |
| `Archive.DisagreementLosesRow` | internal/amp/request_detail_store.go:699-702 | a hot row rewritten after archiving is lost by the next move of the batch it makes up |
| `Archive.OldestFirst` | internal/amp/request_detail_store.go:652-657 | a batch takes the oldest rows first, so it drains those older than any smaller cutoff |
| `Archive.RunsDrain` | internal/amp/request_detail_store.go:639-768 | in any history of stopped and complete runs with any cutoffs rows only move, unchanged, and once enough runs complete no row older than the least cutoff is left in the hot table |
| `Archive.RunsDrainByAge` | internal/amp/request_detail_store.go:639-768 | the same by age: nothing older than every cutoff stays hot once enough runs of 200 rows complete, and nothing younger than every cutoff moves |
| `Archive.RunsAtOneCutoff` | internal/amp/request_detail_store.go:652-768 | at one cutoff the tables are then exactly the drained ones |
| `Archive.RunsKeepView` | internal/amp/request_detail_store.go:635-768 | no such history loses a row or changes what is visible, if the tables agree |
| `Channels.ChannelService.SelectChannelForModelWithGroups` | internal/service/channel.go:404-478 | the filtering passes, the least priority number, the sort and the counter give the specified choice; the counter moves by one, with wrap-around, only if there is more than one candidate |
| `Channels.ChannelService.SelectSpecificChannel` | internal/service/channel.go:374-399 | a channel is returned exactly if one with that id is enabled, matches and is accessible |
| `Channels.OrderDoesNotMatter` | internal/service/channel.go:404-475 | the choice does not depend on the order in which the repository lists channels |
| `Channels.Fairness` | internal/service/channel.go:469-475 | over m rounds of consecutive counters each of the n best channels is chosen exactly m times |
| `Channels.SelectRounds` | internal/service/channel.go:404-478 | the same for m rounds of calls to the service |
| `Channels.ChosenIsAcceptable` | internal/service/channel.go:374-506 | every channel a selection gives would also be accepted when asked for by its id |
| `SelectionRules.SelectionRule` | internal/service/channel.go:404-478 | a channel is found if and only if one is enabled, matches the model and is open to the user, and what is found is such a channel |
| `SelectionRules.FailedLookupLeavesOut` | internal/service/channel.go:430-447 | a channel whose group lookup fails is left out |
| `SelectionRules.ChosenByRank` | internal/service/channel.go:451-475 | of the n channels with the least priority number, the one with counter mod n smaller ids is chosen |
| `SelectionRules.BeforeIs` | internal/service/channel.go:466-468 | the order of ids: a proper beginning first, otherwise the first difference decides |
| `Channels.PanicIff` | internal/service/channel.go:469-475 | a selection fails if and only if there is more than one candidate, the counter has reached 2^63, and the remainder is not zero; otherwise a candidate is chosen |
| `Channels.PanicsAt` | internal/service/channel.go:469-475 | three equally good channels at counter 2^63 |

## Left out

- Pipeline.StreamToClient: the capture, logging and keep-alive wrappers that some requests add between and behind these readers.
- RetryWrapper.SSEConcurrencyRetryWrapper.Read: logging, the sleeping itself (only counted), and the form without a retry function, which is the upstream unchanged.
- Aggregator.AggregateSSE: the assistant text extracted for logging and the debug copy of raw events.
- BillingServices.BillingService.SettleRequestCost: 64-bit overflow of sums of amounts, and partial visibility between concurrent settlements; they are serialised.
- BillingServices.BillingService.GetSubscriptionRemaining: failing database queries, each of which returns its error.
- PseudoNonStream.BufferUpstream: keep-alive heartbeats and the goroutine that copies the body.
- ToolPrefixer.Prefix: JSON decoding and encoding; requests are trees of objects with their kind, name, content and other children, rebuilt as values where the program updates maps in place, and the "unchanged" shortcuts are not modelled.
- Archive.RequestDetailStore.ArchiveOldDetails: rows persisted again between its calls, and the in-memory half of the store.
- Channels.ChannelService.SelectSpecificChannel: repository errors; the model matcher itself is uninterpreted.
- SelectChannelForModel is the same selection without the group filter.
- Refunds and adjustments count in window sums but nothing in the program inserts them, so runs do not either; plan edits and subscription changes during a run are not modelled.
- Stateless usage parsers (OpenAI chat, Responses, Gemini) are arbitrary functions of one event.
- HTTP plumbing, authentication, price arithmetic, the retrying transport, regex-driven filters, dashboards and the frontend.
- PostgreSQL dollar quotes, escape strings and nested comments, which the placeholder rewriter ignores as well.
