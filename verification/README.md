# Verified models of the agent's streaming, admission and validation machinery

This project models the parts of the repository whose correctness rests on more than one
function, and proves what those parts promise for every input, every schedule and every
reachable state.

- **Event streams** (`Sse`, `SseParser`, `SseFields`, `SseRoundTrip`, `SseStream`, `Utf8`, `SseCutting`,
  `SsePolling`). The Server-Sent Events parser that reads model responses. The incremental object,
  which never rescans its buffer, refines a parser that starts from scratch; messages written with
  any fields in any spacing and order are read back exactly, and every line is such a field; the
  decoder in front accepts exactly UTF-8, given by arithmetic on scalar values; however a stream is
  cut into chunks, even inside characters, the events are the same; flushing is the same as two
  more newlines; and a consumer that keeps polling is given every event in order, one error where
  the bytes fail, and then the end.
- **Hostcall admission** (`S3Fifo`, `S3FifoRuns`, `S3FifoPolicy`). The S3-FIFO policy: an index-free
  specification with an invariant kept by every run, when and why a fallback is raised in terms of
  the decisions handed out, and the indexed controller that refines it.
- **Concurrent harnesses** (`CaseExecutor`, `CaseFailures`, `FetchQueue`, `FetchReports`, `FetchOutcomes`).
  Workers that claim cases from an atomic counter or pop them from a locked vector, as step
  relations over every interleaving, which failures a parallel run can return, and when a report
  depends on the schedule.
- **Profiling analysis** (`VoiScheduler`, `VoiRanking`, `Percentile`, `Attribution`, `Provenance`,
  `Evidence`, `EvidenceReading`). The probe planner under two budgets and what its scores, ranks and
  reasons mean, weighted percentiles in saturating 64-bit arithmetic, the attribution of time to
  stages, and the eligibility of evidence as a parser and a separately written validator see it.
- **Extension validation** (`ShardFold`, `ProviderCompat`, `FullValidation`, `Verdicts`). Folding shard
  reports, gathering provider failures, running the stages, and the exact condition of every verdict.
- **Onboarding queue** (`Onboarding`, `OnboardingQueue`, `OnboardingScores`). In-place ranks, the
  geometric penalty with its bound per repository, what moves a candidate, and independence from
  the order of the pool.
- **Smaller state machines and loops** (`TreeScan`, `Pacer`, `NativeRuntime`, `Sanitize`,
  `DigitGrouping`).

`Integers`, `Reals`, `Sequences`, `Sorting`, `Text`, `WorkerPool` and `Wrappers` hold what the
models share: machine integers, the stable sort and its uniqueness, string order and ASCII
folding, worker threads, `Option` and `Result`.

## Reading the model

- `f64` is `real`: rounding, NaN and infinities are outside the model. Where 64-bit integers
  saturate or wrap, the model says so explicitly.
- Code that cannot be seen from a function is a parameter: what running a case or fetching a
  candidate does, whether a stage's command succeeds, the configuration hash, the profile read
  off a path, `ln_1p`, and the logarithm (known only to be non-negative from 1 on, and where a
  result says so to rise or to be 0 at 1).
- `HashMap` iteration and directory listings are modelled as arbitrary orders.
- In `Sse*` a text is the sequence of its UTF-8 bytes, one character per byte.
- Functions and lemmas speak about values; where the source updates an object or a slice in
  place, a class or an array method is proved to act as those functions do.

## What the proofs found

- **The hotspot builder can emit a matrix its own validator refuses.** The parser keeps
  unsorted `compiled_features` on rows that are not eligible; the validator demands sorted
  features of every row. `Evidence.BuiltPassesIffFeaturesAscend` gives the exact condition and
  `Evidence.BuilderOutputRefused` a record.
- **White space hides a failing shard.** The preference between shard results compares statuses
  untrimmed while the tally trims, so `" fail"` loses to a `"pass"` from another shard
  (`ShardFold.PaddedFailureIsLost`; the exact condition is `ShardFold.CountedFailedIff`).
- **Huge weights move a percentile.** The target rank is the exact nearest rank capped at the
  largest 64-bit quotient (`Percentile.RankIsCapped`), so the answer is right for every list of
  a given total weight if and only if weight times numerator is at most the largest multiple of
  the denominator below 2^64 (`Percentile.ExactIffProductFits`); `Percentile.SaturationMovesThe95th`
  is a list where it is wrong.
- **The SSE buffer limit depends on chunking.** A line longer than the buffer is accepted if
  its end arrives in the same chunk and reported as an error otherwise
  (`Sse.LimitDependsOnChunks`). A cut cannot be seen, whatever follows, if and only if the text
  before it does not overflow the buffer: `Sse.JoinsIffNoOverflow` for texts,
  `SseCutting.ChunksJoinIff` for bytes.
- **Malformed bytes make the cut visible.** The stream ends with the first chunk that shows bad
  bytes but delivers all events of that chunk, so a coarser cut can deliver more
  (`SseCutting.CutShows`). Among the cuts that fit the buffer, all deliver the same if and only
  if no event comes after a place where such a cut shows the stream to be malformed
  (`SseCutting.DeliveredSameIff`); where the cut right after the first such byte fits, that one
  cut decides (`SseCutting.FirstCutDecides`).
- **A rejected key is reported in tier `Small` although it is in no queue**, exactly when an
  owner at its budget asks for a key that is neither live nor a ghost (`S3Fifo.TierReport`, reached
  in two accesses by `S3Fifo.WrongTierReached`). The live-capacity loop never evicts anything
  (`S3Fifo.LiveCheckIsRedundant`).
- **The parallel executor can return another failure than the sequential one**
  (`CaseFailures.SecondFailureReturned`). It can return exactly the failures of the first `jobs`
  failing cases (`CaseFailures.ReturnableIff`), so the two agree on every schedule if and only
  if those fail alike (`CaseFailures.AgreesWithSequentialIff`).
- **One provider mode can be listed twice** with different spacing, because report modes are
  lower-cased but not trimmed and event modes are both (`ProviderCompat.ModeListedTwice`). No log
  can cause it for a report if and only if the report's own modes are well spaced
  (`ProviderCompat.NeverDoubledIff`).
- **The sample counts of the interference matrix wrap** where those of the summary saturate: two
  records can count as no samples (`Attribution.SampleCountWraps`). A count is right if and only
  if the sum fits 64 bits (`Attribution.SampleCountExactIff`), and the two counts agree if and
  only if it fits or happens to wrap to the largest count (`Evidence.SampleCountsAgreeIff`). A
  build with overflow checks stops instead.
- **A fetch report can depend on the schedule.** Rows that tie on rank and id stay in the order
  received, so the report is the same for every schedule if and only if tied candidates give the
  same row or there is a single worker (`FetchReports.ReportFixedIff`).

## Model

| member | source | states |
|---|---|---|
| `Sse.FeedKeepsWaiting` | src/sse.rs:313-363 | after any feed the buffer holds no complete line, and only a parser that has seen text holds anything |
| `Sse.DrainSplits` | src/sse.rs:254-310 | reading a text in two parts, carrying the unfinished line over, reads the whole: same events, same state, same remainder, also when CR and LF are separated |
| `Sse.FeedSplits` | src/sse.rs:313-363 | two feeds equal one feed of the joined text, byte order mark and buffer limit included, unless the first feed overflows the buffer |
| `Sse.JoinsIffNoOverflow` | src/sse.rs:313-363 | whatever text follows, two feeds are one if and only if the first does not overflow the buffer |
| `Sse.FeedAllIsFeed` | src/sse.rs:313-372 | any list of chunks is the same as one feed of their concatenation, if no chunk before a cut overflows the buffer |
| `Sse.ChunkingInvariant` | src/sse.rs:1575-1647 | two ways of cutting the same stream give the same events and the same final state, also when the whole overflows |
| `Sse.ShortStreamsFit` | src/sse.rs:317-363 | a stream no longer than the buffer limit fits however it is cut |
| `Sse.LimitDependsOnChunks` | src/sse.rs:317-363 | beyond the limit the law fails: one line, two chunkings, no event or an error event |
| `Sse.FlushIsTwoNewlines` | src/sse.rs:380-407 | flushing at the end of a stream emits exactly what two more newlines would have |
| `Sse.FlushedIsDone` | src/sse.rs:380-407 | a flushed parser holds nothing and flushes to nothing more; after an event it is as new, but for the byte order mark |
| `Sse.EventsCapped` | src/sse.rs:126-147 | no event of any run, dispatched by a blank line or by the final flush, and no event being gathered carries more data than the cap; the parser's own error aside |
| `SseParser.Parsing.constructor` | src/sse.rs:51-62 | a new parser has seen nothing and satisfies the scanning invariant |
| `SseParser.Parsing.AppendDataLine` | src/sse.rs:126-147 | an oversized data line is dropped but still marks the event as having data |
| `SseParser.Parsing.ProcessOneLine` | src/sse.rs:159-189 | the field rules of one line, on the object's fields; what they mean is `SseFields.FieldGathered` |
| `SseParser.Parsing.EndOfEvent` | src/sse.rs:286-301 | a blank line dispatches the gathered event and keeps only id and retry |
| `SseParser.Parsing.ProcessLines` | src/sse.rs:254-310 | the loop that skips what was already scanned consumes exactly the complete lines |
| `SseParser.Parsing.ProcessSource` | src/sse.rs:226-310 | the same from the start of a source, byte order mark included |
| `SseParser.Parsing.FeedText` | src/sse.rs:313-363 | the incremental feed with its remembered scan position equals the feed from scratch, on both the direct and the buffered path |
| `SseParser.Parsing.ResetAfterBufferLimit` | src/sse.rs:207-221 | an overflow empties the parser and emits the limit error |
| `SseParser.Parsing.FlushPending` | src/sse.rs:380-407 | the final event and the state it leaves |
| `SseParser.ScannedHasNoLine` | src/sse.rs:341-342 | a waiting buffer has no line end before its last byte, which is why scanning resumes one byte before its end |
| `SseFields.DigitsRead` | src/sse.rs:150-156 | written retry hints parse back to their value |
| `SseFields.RetryReadIff` | src/sse.rs:150-156 | a retry hint is read as a number exactly if it writes that number of 64 bits, with or without leading zeros |
| `SseFields.FieldGathered` | src/sse.rs:159-189 | reading one more field, of any kind and spaced, tight or bare, gathers its meaning: the last type, the data lines that fit in order, the last id without NUL, the last retry hint; comments and unknown names change nothing |
| `SseFields.EveryLineIsWritten` | src/sse.rs:159-189 | every line that is not blank is some field as it may be written, so the field rules are covered whole |
| `SseFields.KeptWhole` | src/sse.rs:126-147 | data lines within the cap are all kept |
| `SseRoundTrip.MessageRead` | src/sse.rs:159-189 | one written message, with any fields in any order and any line ending, is read as the event it means, or none without a data field; an absent or empty type is `message`; only id and retry hint outlive it |
| `SseRoundTrip.MessagesRead` | src/sse.rs:254-310 | a list of written messages is read back in order, ids and retry hints carried forward and types not |
| `SseRoundTrip.RoundTrip` | src/sse.rs:313-407 | messages with any fields, behind a byte order mark or not, in any mix of LF, CR and CRLF and for every chunking that fits, are read back exactly, the last at the latest on flush |
| `SseStream.Stream.ProcessWithoutTail` | src/sse.rs:458-490 | decoding a chunk directly: well-formed pieces are fed, bad bytes skipped and reported, an unfinished character kept |
| `SseStream.Stream.ProcessWithTail` | src/sse.rs:492-531 | the second, separately written loop does the same on kept bytes plus chunk |
| `SseStream.Stream.ProcessChunk` | src/sse.rs:533-539 | whichever loop runs, a chunk acts as the kept bytes followed by it |
| `Utf8.EncodedIsComplete` | src/sse.rs:462-463 | the encoding of every scalar value, in base-64 digits, is read as one character, whatever follows it |
| `Utf8.CompleteIsEncoded` | src/sse.rs:462-463 | every character read is the encoding of a scalar value |
| `Utf8.PartialIff` | src/sse.rs:483-486 | bytes wait for more exactly if some character begins with them and is longer |
| `Utf8.BadMeans` | src/sse.rs:478-482 | what is skipped as bad is the longest beginning of a character, and at least one byte |
| `Utf8.ValidIsText` | src/sse.rs:469-476 | the well-formed beginning of any bytes is an encoded text |
| `Utf8.MalformedIff` | src/sse.rs:458-531 | a chunk is reported malformed if and only if no text begins with it |
| `Utf8.TextIsFed` | src/sse.rs:458-531 | whole characters are fed, the beginning of one more is kept, and nothing is reported |
| `SseStream.Stream.PollStreamEnd` | src/sse.rs:541-562 | at the end an unfinished character is an error and closes the stream, else the last event is flushed |
| `SseStream.Stream.PollLoop` | src/sse.rs:586-617 | the loop over the transport's answers stops at the first that brings an event, an error, a wait or the end |
| `SseStream.Stream.PollNextEvent` | src/sse.rs:565-618 | one poll hands out a pending event, a pending error, the end, or what the transport brings, and leaves the queue and flags accordingly |
| `SseCutting.ValidSplits` | src/sse.rs:461-489 | the well-formed length of a byte string splits at any point where what precedes is sound |
| `SseCutting.ChunksJoin` | src/sse.rs:458-539 | for all bytes, two chunks are processed as one: characters cut in two, bad bytes skipped and reported alike |
| `SseCutting.ChunksJoinIff` | src/sse.rs:458-539 | whatever bytes follow, two chunks are one if and only if the text after the last bad bytes does not overflow the buffer |
| `SseCutting.StreamChunking` | src/sse.rs:458-539 | any byte stream, well-formed or not, is processed as the uncut stream wherever it is cut, if no chunk before a cut overflows: events, state, kept bytes and the failure flag |
| `SseCutting.DeliveredBounds` | src/sse.rs:586-602 | a stream that ends with its first malformed chunk delivers a beginning of the uncut stream's events that reaches at least to the first bad byte, and all of them if there is none |
| `SseCutting.DeliveredSameIff` | src/sse.rs:586-602 | all fitting cuts of a malformed stream of any length deliver the same events if and only if none comes after a place where a fitting cut shows it to be malformed |
| `SseCutting.FirstCutDecides` | src/sse.rs:586-602 | every malformed stream has a first byte that shows it, and if the cut after it fits, that cut decides |
| `SseCutting.CutShows` | src/sse.rs:586-602 | one bad byte and one event, delivered in one chunk and lost in two |
| `SsePolling.PollHandsOut` | src/sse.rs:565-618 | in every state one poll hands out exactly the first thing still to come |
| `SsePolling.PollsInOrder` | src/sse.rs:565-618 | however long one polls, what was handed out followed by what is to come is the same list |
| `SsePolling.PollsFinish` | src/sse.rs:565-618 | polled often enough a stream has handed out everything, and every further poll reports the end |
| `SsePolling.StreamHandsOut` | src/sse.rs:565-618 | a transport that brings chunks gives the consumer the delivered events, then one error or the end of the text, and no more |
| `S3Fifo.Normalize` | src/hostcall_s3_fifo.rs:132-153 | any requested configuration becomes one with room in every queue and thresholds within the window |
| `S3FifoRuns.NormalizedIsNearest` | src/hostcall_s3_fifo.rs:132-153 | a configuration is changed only where it must be, to the nearest value that works |
| `S3Fifo.MoveKeepsInv` | src/hostcall_s3_fifo.rs:200-240 | moving keys keeps the invariant and leaves the accessed key where the decision kind says |
| `S3FifoRuns.MoveExact` | src/hostcall_s3_fifo.rs:200-364 | the queues after an access, without its loops: where the key goes, in which order, and that at most the oldest key of the queue that grew leaves, loses its owner and becomes the newest ghost |
| `S3FifoRuns.WithoutKeepsOrder` | src/hostcall_s3_fifo.rs:477-481 | taking a key out of a queue leaves the others in their order |
| `S3Fifo.AccessKeepsInv` | src/hostcall_s3_fifo.rs:200-247 | every access keeps queues disjoint and duplicate-free, owners exact, capacities and owner budgets respected |
| `S3Fifo.EveryRunKeepsInv` | src/hostcall_s3_fifo.rs:132-247 | so does every sequence of accesses and clears from a new policy with any configuration |
| `S3Fifo.TierReport` | src/hostcall_s3_fifo.rs:249-283 | the reported tier is wrong if and only if no fallback is in force and an owner at its budget asks for a key neither live nor ghost, and then the key is in no queue; reported depths are within capacity |
| `S3FifoRuns.DepthsReported` | src/hostcall_s3_fifo.rs:266-283 | the depths a decision reports are the queue sizes after the access, within their capacities, and the live depth is the number of keys with an owner |
| `S3Fifo.WrongTierReached` | src/hostcall_s3_fifo.rs:249-264 | two accesses from a new policy reach that report |
| `S3Fifo.LiveCheckIsRedundant` | src/hostcall_s3_fifo.rs:340-348 | in every reachable state the live-capacity loop changes nothing |
| `S3Fifo.QuietUntilWindowFull` | src/hostcall_s3_fifo.rs:446-474 | no fallback is raised before a full window of signals |
| `S3FifoRuns.FallbackRaisedIff` | src/hostcall_s3_fifo.rs:446-474 | in terms of the decisions handed out: an access raises `SignalQualityInsufficient` if and only if the window is full and its last decisions hold fewer ghost hits than the minimum, `FairnessInstability` if and only if otherwise they hold more rejections than the maximum, and nothing else |
| `S3FifoRuns.FallbackInForceIff` | src/hostcall_s3_fifo.rs:200-247 | over a whole run since a start: the fallback in force is that of the first access whose window tripped |
| `S3FifoRuns.FallbackSinceClear` | src/hostcall_s3_fifo.rs:195-198 | a clear starts the window over and leaves queues, owners and totals alone |
| `S3FifoRuns.TotalsCountDecisions` | src/hostcall_s3_fifo.rs:210-234 | over every run the totals are the numbers of decisions of their kind, up to the largest 64-bit number |
| `S3Fifo.FallbackIsSticky` | src/hostcall_s3_fifo.rs:195-208 | once raised, accesses change nothing until it is cleared |
| `S3FifoPolicy.Controller.constructor` | src/hostcall_s3_fifo.rs:132-168 | a new controller stands for the new policy under the normalised configuration |
| `S3FifoPolicy.Controller.RemoveGhost` | src/hostcall_s3_fifo.rs:417-421 | takes the key out of the ghost queue and keeps both ghost indexes inverse |
| `S3FifoPolicy.Controller.PushGhostKey` | src/hostcall_s3_fifo.rs:387-415 | the key goes to the back of the ghost queue under a new generation and the oldest ghosts leave, overflow of the generation included |
| `S3FifoPolicy.Controller.RemoveOwnerForKey` | src/hostcall_s3_fifo.rs:381-385 | the owner counters stay the exact number of live keys per owner |
| `S3FifoPolicy.Controller.EvictSmallFrontToGhost` | src/hostcall_s3_fifo.rs:350-356 | refines eviction from the small queue |
| `S3FifoPolicy.Controller.EvictMainFrontToGhost` | src/hostcall_s3_fifo.rs:358-364 | refines eviction from the main queue |
| `S3FifoPolicy.Controller.EnforceSmallCapacity` | src/hostcall_s3_fifo.rs:328-332 | the eviction loop refines trimming the small queue |
| `S3FifoPolicy.Controller.EnforceMainCapacity` | src/hostcall_s3_fifo.rs:334-338 | the eviction loop refines trimming the main queue |
| `S3FifoPolicy.Controller.EnforceLiveCapacity` | src/hostcall_s3_fifo.rs:340-348 | the eviction loop refines trimming the live set |
| `S3FifoPolicy.Controller.PromoteToMain` | src/hostcall_s3_fifo.rs:315-321 | a small key ends up at the back of main, with main trimmed |
| `S3FifoPolicy.Controller.TouchMain` | src/hostcall_s3_fifo.rs:323-326 | a main key moves to the back, nothing else changes |
| `S3FifoPolicy.Controller.AdmitGhost` | src/hostcall_s3_fifo.rs:305-313 | a ghost is readmitted to main under its new owner |
| `S3FifoPolicy.Controller.AdmitNew` | src/hostcall_s3_fifo.rs:295-303 | a new key enters the small queue under its owner |
| `S3FifoPolicy.Controller.RemoveLiveKey` | src/hostcall_s3_fifo.rs:371-379 | a key leaves every live structure, and nothing else does |
| `S3FifoPolicy.Controller.RecordSignal` | src/hostcall_s3_fifo.rs:446-451 | the window keeps the most recent signals |
| `S3FifoPolicy.Controller.EvaluateFallback` | src/hostcall_s3_fifo.rs:453-474 | the counting loop raises the reason the counts of a full window call for |
| `S3FifoPolicy.Controller.Classify` | src/hostcall_s3_fifo.rs:210-238 | the branch taken from the indexes is the one the queues call for |
| `S3FifoPolicy.Controller.AccessKey` | src/hostcall_s3_fifo.rs:200-247 | the indexed controller acts and answers as the index-free policy on every access |
| `S3FifoPolicy.Controller.ClearFallbackState` | src/hostcall_s3_fifo.rs:195-198 | clearing refines clearing |
| `S3FifoPolicy.ByGenerationRemove` | src/hostcall_s3_fifo.rs:417-421 | removing a generation removes its key from the ghost queue and keeps the order of the rest |
| `CaseExecutor.RunSequentially` | examples/ext_release_binary_e2e.rs:329-346 | the single-job loop returns all results in order or the first failure |
| `CaseExecutor.SequentialMeaning` | examples/ext_release_binary_e2e.rs:329-346 | it succeeds exactly when every case does, with each result at its index |
| `CaseExecutor.SequentialInOrder` | examples/ext_release_binary_e2e.rs:329-346 | in terms of the cases: all their results in order, or the first failure with the entry it belongs to |
| `CaseExecutor.EffectiveJobs` | examples/ext_release_binary_e2e.rs:328-328 | as many jobs as asked for, at least one if there is a case and at most one per case |
| `CaseExecutor.StepKeepsInv` | examples/ext_release_binary_e2e.rs:350-412 | every atomic step keeps: each claimed index is held by one worker or sent once, and the collector has filed exactly what it received |
| `CaseExecutor.EveryScheduleKeepsInv` | examples/ext_release_binary_e2e.rs:350-412 | the same in every state of every interleaving of any number of workers |
| `CaseExecutor.ClaimedExactlyOnce` | examples/ext_release_binary_e2e.rs:354-385 | the counter never exceeds total plus jobs; each claimed index belongs to one worker or was sent exactly once |
| `CaseExecutor.ParallelRefinesSequential` | examples/ext_release_binary_e2e.rs:327-412 | a completed parallel run succeeds exactly when the sequential one does, with the same list; no slot is ever missing; a failure is the one that was sent first |
| `CaseExecutor.SchedulesAreBounded` | examples/ext_release_binary_e2e.rs:355-412 | no schedule is infinite |
| `CaseExecutor.NeverDeadlocks` | examples/ext_release_binary_e2e.rs:355-412 | until the channel closes some step is enabled |
| `CaseFailures.EveryScheduleNearOrder` | examples/ext_release_binary_e2e.rs:355-385 | in every schedule a result overtakes fewer than `jobs` earlier indexes |
| `CaseFailures.ReturnableIff` | examples/ext_release_binary_e2e.rs:386-406 | the failures a parallel run can return are exactly those of the first `jobs` failing cases |
| `CaseFailures.AgreesWithSequentialIff` | examples/ext_release_binary_e2e.rs:327-412 | every completed schedule returns what the sequential loop returns if and only if the first `jobs` failing cases fail alike |
| `CaseFailures.SecondFailureReturned` | examples/ext_release_binary_e2e.rs:386-406 | two workers, two cases that fail differently: some run returns the second failure |
| `FetchQueue.ProcessCandidate` | examples/ext_unvendored_fetch_run.rs:478-556 | the record built field by field: state, entrypoint and probe outcome for every way fetching, detecting and probing can turn out |
| `FetchQueue.ProbeVerdict` | examples/ext_unvendored_fetch_run.rs:520-545 | an attempted probe is never recorded as not attempted |
| `FetchOutcomes.FetchOutcome` | examples/ext_unvendored_fetch_run.rs:478-556 | which fetch state, error, rank, entrypoint and file count each way of fetching and detecting leaves, and conversely |
| `FetchOutcomes.ProbeOutcome` | examples/ext_unvendored_fetch_run.rs:478-556 | a probe passes if and only if it replies pass, is a timeout if and only if its error mentions one, and is not attempted if and only if there is nothing to probe or probing is off |
| `FetchQueue.EveryScheduleKeepsInv` | examples/ext_unvendored_fetch_run.rs:344-421 | in every interleaving each candidate is queued, held by one worker, or sent once |
| `FetchQueue.EveryCandidateProcessedOnce` | examples/ext_unvendored_fetch_run.rs:400-421 | no receive fails, and a finished run has exactly one result per candidate |
| `FetchQueue.ReportIgnoresSchedule` | examples/ext_unvendored_fetch_run.rs:423-428 | the sorted report is the same for every worker count and schedule |
| `FetchQueue.DistinctIdsAgree` | examples/ext_unvendored_fetch_run.rs:423-428 | distinct ids are enough for that |
| `FetchOutcomes.ReportInOrder` | examples/ext_unvendored_fetch_run.rs:423-428 | the report holds the results by rank ascending, those without a rank last, and by id between equals |
| `FetchReports.ReportFixedIff` | examples/ext_unvendored_fetch_run.rs:423-428 | the sorted report is the same for every schedule if and only if candidates that tie give the same row or there is one worker |
| `FetchReports.TieShows` | examples/ext_unvendored_fetch_run.rs:358-428 | two different rows that tie, and two workers: two schedules with different reports |
| `FetchQueue.CountRows` | examples/ext_unvendored_fetch_run.rs:430-450 | the counting loop counts rows by state |
| `FetchOutcomes.CountersMean` | examples/ext_unvendored_fetch_run.rs:430-451 | each counter is the number of rows in its state |
| `FetchQueue.CountsPartition` | examples/ext_unvendored_fetch_run.rs:430-450 | fetch counters and probe counters each sum to the total; with probing on, not attempted is no entrypoint |
| `FetchQueue.FinishedCounts` | examples/ext_unvendored_fetch_run.rs:400-450 | the same for the report of any finished run |
| `FetchQueue.SchedulesAreBounded` | examples/ext_unvendored_fetch_run.rs:358-421 | no schedule is infinite |
| `FetchQueue.NeverDeadlocks` | examples/ext_unvendored_fetch_run.rs:358-421 | no schedule is stuck before all results are in |
| `VoiScheduler.ProbeCost` | examples/ext_workloads.rs:2196-2208 | a probe costs between its base and twice its base, at least 18 ms |
| `VoiScheduler.SelectProbes` | examples/ext_workloads.rs:2474-2520 | the selection loop computes the plan the decision rule describes, row by row |
| `VoiScheduler.PlanWithinBudgets` | examples/ext_workloads.rs:2474-2520 | used plus remaining is the maximum, used is the cost of what was selected, both budgets hold, every row is selected or has a reason |
| `VoiScheduler.NothingUsefulFits` | examples/ext_workloads.rs:2484-2520 | a candidate left out of an active plan is not useful, does not fit, or met the experiment cap |
| `VoiScheduler.GreedyWinsDifference` | examples/ext_workloads.rs:2484-2520 | where a feasible plan first differs from the greedy one, the greedy one takes the candidate |
| `VoiScheduler.ActivePlanIsGreatest` | examples/ext_workloads.rs:2366-2520 | the active plan from any hotspot entries is feasible and lexicographically greatest by rank |
| `VoiScheduler.RankComparator` | examples/ext_workloads.rs:2320-2327 | the ranking is a total order whose ties are equal stages |
| `VoiRanking.RowsOrdered` | examples/ext_workloads.rs:2320-2327 | the rows of every plan are its candidates by score descending, then utility descending, then stage ascending, with ranks from 1 |
| `VoiRanking.CandidatesAreEntries` | examples/ext_workloads.rs:2409-2460 | every hotspot entry with a stage is a candidate, and nothing else is |
| `VoiRanking.ReadAs` | examples/ext_workloads.rs:2415-2435 | a missing number reads as its default, one out of range as the nearest in range, and a PMU multiplier below 1 as none |
| `VoiRanking.ScoreLaws` | examples/ext_workloads.rs:2437-2444 | score times cost is utility, which is nothing for a certain, harmless hotspot without pressure and rises by 4 per millisecond of latency, 12 per unit of pressure, and the expected value and one more per unit of uncertainty |
| `VoiRanking.ScoreRises` | examples/ext_workloads.rs:2320-2327 | at equal cost the higher utility has the higher score and ranks first |
| `VoiRanking.CostLaws` | examples/ext_workloads.rs:2196-2208 | a probe costs its base without pressure, half as much again per unit of pressure, and at most twice the base |
| `VoiRanking.CostOrder` | examples/ext_workloads.rs:2196-2208 | which probes are dearer than which, and by how much at least |
| `VoiRanking.GainLaws` | examples/ext_workloads.rs:2443-2443 | expected gain times a millisecond more than the cost is utility, up to a gain of 5 |
| `VoiRanking.ReasonsMean` | examples/ext_workloads.rs:2480-2505 | what each outcome of an active plan says about the selections before it and what they left of both budgets, if and only if |
| `VoiRanking.SafeReasonsMean` | examples/ext_workloads.rs:2484-2496 | in safe mode exactly the cheapest candidate, the first by name, escapes the guardrail, and only its cost can keep it out |
| `VoiScheduler.PlanIgnoresEntryOrder` | examples/ext_workloads.rs:2415-2520 | with distinct stages the whole plan is independent of the order of the entries |
| `VoiScheduler.SafeModeProbe` | examples/ext_workloads.rs:2461-2505 | in safe mode at most one probe, of minimum cost and first by name among equals, and one exactly when some candidate fits |
| `VoiScheduler.SafePlanFromHotspots` | examples/ext_workloads.rs:2415-2505 | the same for the whole planner |
| `Percentile.WeightedPercentile` | examples/ext_workloads.rs:1163-1187 | the two saturating loops find where the cumulative weight of the sorted list first reaches the target |
| `Percentile.PercentileIsQuantile` | examples/ext_workloads.rs:1163-1187 | the answer is the least value with at least the target weight at or below it, or the greatest value; absent exactly when there is no weight |
| `Percentile.PercentileIgnoresOrder` | examples/ext_workloads.rs:1167-1168 | the order of the samples does not matter, even among equal values |
| `Percentile.PercentilesOrdered` | examples/ext_workloads.rs:1227-1229 | a higher percentile is never smaller and each is one of the values, saturation or not |
| `Percentile.PercentileIndex` | examples/ext_workloads.rs:1454-1464 | the index of a non-empty list is in range |
| `Percentile.WeightedIsPlainPercentile` | examples/ext_workloads.rs:1163-1187 | equals the element picked by `percentile_index` from the sorted list with each value repeated by its weight |
| `Percentile.ExactIffProductFits` | examples/ext_workloads.rs:1175-1178 | for any total weight, also one beyond 64 bits, the answer is the nearest rank of every sample list if and only if weight times numerator is at most the largest multiple of the denominator below 2^64 |
| `Percentile.RankIsCapped` | examples/ext_workloads.rs:1170-1178 | the 64-bit rank is the exact nearest rank capped at the largest 64-bit quotient |
| `Percentile.SaturationMovesThe95th` | examples/ext_workloads.rs:1175-1178 | a concrete list whose 95th percentile reads 0.0 and is not the nearest rank |
| `Attribution.WeightsFor` | examples/ext_workloads.rs:1819-1866 | for every scenario the weights are positive and sum to one |
| `Attribution.StagesByScenario` | examples/ext_workloads.rs:1819-1866 | which stage takes most of each kind of scenario and how the others follow; the first marker in the name decides |
| `Attribution.DominantStage` | examples/ext_workloads.rs:1819-1866 | of a single record's time loading spends most on marshalling and anything else most on execution |
| `Attribution.RecordOrder` | examples/ext_workloads.rs:1819-1866 | the totals of a single record order the stages as its weights do |
| `Attribution.AccumulateTotals` | examples/ext_workloads.rs:2814-2816 | the loop accumulates each record's scaled weights |
| `Attribution.StageTotalIsSum` | examples/ext_workloads.rs:2815-2817 | each stage's total is the sum of its shares of the records' times |
| `Attribution.TotalsConserveTime` | examples/ext_workloads.rs:391-406 | stage totals sum to the time of the records |
| `Attribution.BuildInterference` | examples/ext_workloads.rs:2230-2253 | one entry per unordered pair of stages, charged once by every record: interaction, samples and interaction by scenario |
| `Attribution.RankIsAlphabetical` | src/extension_scoring.rs:1929-1952 | the two stages of a pair are in the order of their names |
| `Attribution.EntryTotals` | examples/ext_workloads.rs:2233-2253 | an entry's interaction is the sum over the records and its sample count their sum, wrapped |
| `Attribution.SampleCountExactIff` | examples/ext_workloads.rs:2247-2247 | a pair's sample count is the sum of the samples if and only if that fits 64 bits |
| `Attribution.SampleCountWraps` | examples/ext_workloads.rs:2247-2247 | two records whose samples count as none |
| `Attribution.EntryScenarios` | examples/ext_workloads.rs:2248-2249 | its scenarios are those that occur, each with the interaction of its own records |
| `Attribution.TotalInteraction` | examples/ext_workloads.rs:2230-2275 | total interaction is the sum of each record's time times half of one minus its squared weights |
| `Attribution.SharesSumToHundred` | examples/ext_workloads.rs:2970-2982 | shares sum to 100 exactly when the divisor's guard is inactive |
| `Attribution.ShareOfPart` | examples/ext_workloads.rs:2970-2982 | each share is its own part in per cent of the divisor |
| `Attribution.HotspotShares` | examples/ext_workloads.rs:2898-2982 | the same for the hotspot column of any records |
| `Provenance.EligibleIffContract` | examples/ext_workloads.rs:2057-2121 | a record is marked eligible exactly when its row meets the validator's contract, it has samples, and its provenance is duplicated faithfully |
| `EvidenceReading.EligibleIff` | examples/ext_workloads.rs:2057-2121 | a record is eligible exactly if it says so, has samples, measures the production path, on a clean, verified, optimised build whose hash it carries, and states its provenance twice: every condition spelled out |
| `EvidenceReading.HashIff` | examples/ext_workloads.rs:1883-1897 | a hash is a number other than zero in that many lower-case hexadecimal digits |
| `EvidenceReading.FeaturesAscendIff` | examples/ext_workloads.rs:2099-2100 | features ascend exactly if sorting and deduplicating them changes nothing |
| `EvidenceReading.ReadIff` | examples/ext_workloads.rs:1916-1945 | a record is read exactly if it has the schema, names its scenario and took time |
| `EvidenceReading.TimesRead` | examples/ext_workloads.rs:1928-1942 | the units of each way to state time, and what stands in for a number of iterations |
| `EvidenceReading.DirectFirst` | examples/ext_workloads.rs:1899-1942 | which of two statements is believed |
| `EvidenceReading.PerCallTimesSamples` | examples/ext_workloads.rs:1928-1942 | time per call times the calls is the time |
| `Evidence.BuildSummary` | examples/ext_workloads.rs:2790-2922 | the counting loop leaves what the validator's filters and folds recount, and the smaller of sample confidence and cap |
| `Evidence.CountComplement` | examples/ext_workloads.rs:2922-2922 | subtracting the eligible rows counts the ineligible ones |
| `Evidence.CheckRowsFinds` | examples/ext_workloads.rs:3327-3621 | the row loop objects to the first row that is unsorted or eligible without the contract |
| `EvidenceReading.ObjectionsMean` | examples/ext_workloads.rs:3274-3743 | what each objection of the validator means, in the order it looks, and exactly which documents it accepts |
| `Evidence.ParsedTimeConserved` | examples/ext_workloads.rs:1916-2156 | for any JSON records, the stage totals of the parsed ones sum to their time |
| `Evidence.SampleCountsAgreeIff` | examples/ext_workloads.rs:2817-2817 | the summary's sample count and a pair's agree if and only if the sum fits 64 bits or wraps to the largest count |
| `Evidence.TopCapMeansClean` | examples/ext_workloads.rs:3274-3319 | the cap is 0.80 exactly when there are rows and all are eligible, and then none is dirty, debug, unverified or uncontrolled |
| `EvidenceReading.CapLevels` | examples/ext_workloads.rs:3274-3319 | the cap is 0.80, 0.50 or 0.35 exactly if all rows are eligible, some are, or none is |
| `Evidence.BuiltPassesIffFeaturesAscend` | examples/ext_workloads.rs:3274-3743 | a built summary passes the validator if and only if every row's features ascend; otherwise the first such row is refused |
| `Evidence.AcceptedHighCapIsClean` | examples/ext_workloads.rs:3274-3743 | any accepted document, built or forged, with a cap above 0.50 by more than the tolerance has only rows that meet the exact contract |
| `Evidence.BuilderOutputRefused` | examples/ext_workloads.rs:3454-3458 | a record whose matrix the builder emits and the validator refuses |
| `ShardFold.LoadSharded` | examples/ext_full_validation.rs:1378-1443 | the map is the fold of all results in reading order; the manifest count is the largest; pass, fail and skip count ids and sum to the number of ids |
| `ShardFold.FoldShards` | examples/ext_full_validation.rs:1397-1409 | the nested loop folds every result and keeps the largest manifest count |
| `ShardFold.TallyAll` | examples/ext_full_validation.rs:1411-1421 | the counting loop over the map partitions its ids |
| `ShardFold.FoldKeepsPreferred` | examples/ext_full_validation.rs:1842-1867 | per id the lowest status rank, then the longest duration, then the latest occurrence is kept, for every id that occurs |
| `ShardFold.KeptKeyIgnoresOrder` | examples/ext_full_validation.rs:1842-1867 | kept rank and duration do not depend on the order of the results |
| `ShardFold.ShardOrderIrrelevant` | examples/ext_full_validation.rs:1397-1409 | nor on the order of the shards |
| `ShardFold.RankAgainstTally` | examples/ext_full_validation.rs:1842-1850 | ranking and tally read a status alike exactly when it has no surrounding white space |
| `ShardFold.CountedFailedIff` | examples/ext_full_validation.rs:1414-1421 | exactly when an id counts as failed |
| `ShardFold.AnyFailureCounts` | examples/ext_full_validation.rs:1414-1421 | with trimmed statuses an id fails if and only if some shard says so |
| `ShardFold.PaddedFailureIsLost` | examples/ext_full_validation.rs:1842-1867 | a padded failure is replaced by a pass |
| `ProviderCompat.FromReport` | examples/ext_full_validation.rs:1532-1543 | the report's modes are filed lower-cased under their extension |
| `ProviderCompat.ReadEvents` | examples/ext_full_validation.rs:1553-1572 | per extension, whether a default-mode pass was seen and which other modes failed; blank and malformed lines are ignored |
| `ProviderCompat.AddEventFailures` | examples/ext_full_validation.rs:1574-1585 | failing modes are added only where the default mode passed |
| `ProviderCompat.Tidy` | examples/ext_full_validation.rs:1595-1598 | every list is sorted and deduplicated |
| `ProviderCompat.LoadProviderCompat` | examples/ext_full_validation.rs:1525-1601 | exactly the extensions with an expected mode are listed, with exactly those modes, strictly ascending |
| `ProviderCompat.ListsIgnoreOrder` | examples/ext_full_validation.rs:1547-1598 | rearranging log lines and report failures changes nothing |
| `ProviderCompat.ListedTwice` | examples/ext_full_validation.rs:1595-1598 | a list shows a mode twice exactly when the expected modes hold two spellings of it |
| `ProviderCompat.NeverDoubledIff` | examples/ext_full_validation.rs:1533-1572 | no log can make an extension show one mode twice if and only if the report's modes are trimmed, except for "default", and no two of them trim alike |
| `ProviderCompat.ModeListedTwice` | examples/ext_full_validation.rs:1533-1572 | a report and a log whose list does |
| `FullValidation.RunStage` | examples/ext_full_validation.rs:689-753 | the stage is recorded also when it aborts the run |
| `FullValidation.RunCommands` | examples/ext_full_validation.rs:446-686 | the run aborts exactly when it fails fast and a planned command fails, having recorded everything up to the first failure; otherwise it records every planned and skipped stage |
| `FullValidation.RunStages` | examples/ext_full_validation.rs:418-430 | an aggregate-only run executes nothing and never aborts; otherwise the commands run |
| `FullValidation.PlannedStagePassed` | examples/ext_full_validation.rs:1755-1760 | in a completed run a planned stage passed exactly when its command succeeded |
| `FullValidation.ConformanceGateIff` | examples/ext_full_validation.rs:776-777 | the conformance artifacts are read exactly when every shard succeeded or the run only aggregates |
| `FullValidation.AssessedFrom` | examples/ext_full_validation.rs:838-844 | the report holds the classifications of the candidates and nothing else |
| `Verdicts.ReportInOrder` | examples/ext_full_validation.rs:838-844 | one assessment per candidate, by id |
| `Verdicts.ArtifactGates` | examples/ext_full_validation.rs:776-811 | after a completed run each artifact is visible exactly if its own stage's command succeeded, or nothing was run |
| `Verdicts.PlannedIff` | examples/ext_full_validation.rs:446-686 | which commands a run means to execute |
| `Verdicts.FoundFirst` | examples/ext_full_validation.rs:1762-1781 | a lookup answers with the first key that is known, and with nothing exactly if none is |
| `Verdicts.KeysTried` | examples/ext_full_validation.rs:1762-1790 | the keys tried are the id, then the aliases, then the flattened names of the scoped ones in order |
| `Verdicts.ScopedName` | examples/ext_full_validation.rs:1792-1802 | a scoped npm id is also known by its flattened name, and no other id is |
| `Verdicts.ProjectBugIff` | examples/ext_full_validation.rs:1178-1313 | exactly when a candidate is a project bug: a passing result with a failing scenario, or a runtime that did not start and no category that comes first |
| `Verdicts.ProjectLimitationIff` | examples/ext_full_validation.rs:1178-1344 | exactly when it is a limitation: only a provider mode fails, or only a load error for want of a module |
| `Verdicts.ExtensionProblemIff` | examples/ext_full_validation.rs:1278-1359 | exactly when it is a problem of the extension: no load spec, or only a load error for want of a file |
| `Verdicts.PassWithAutoRepairIff` | examples/ext_full_validation.rs:1178-1256 | exactly when it is a pass with repairs |
| `Verdicts.NeedsReviewIff` | examples/ext_full_validation.rs:1178-1376 | exactly when it is undecided |
| `Verdicts.HarnessGapIff` | examples/ext_full_validation.rs:1130-1323 | exactly when it is a gap of the harness |
| `Verdicts.NotExtensionIff` | examples/ext_full_validation.rs:1078-1152 | exactly when it is out of scope, for every context |
| `Verdicts.NotTestedIff` | examples/ext_full_validation.rs:1078-1128 | exactly when it was not tested, for every context |
| `Verdicts.ConfidenceOf` | examples/ext_full_validation.rs:1078-1376 | the confidence of every verdict in every case |
| `Verdicts.ReviewIff` | examples/ext_full_validation.rs:1044-1048 | a review is asked for a bug, for anything undecided, and below the threshold; so never else up to 0.65 and always above 0.99 |
| `Verdicts.EventsReadAsTally` | examples/ext_full_validation.rs:1553-1572 | the provider log reads a status as the shard tally does |
| `FullValidation.ClosedGateVerdict` | examples/ext_full_validation.rs:1028-1176 | without conformance results the verdict is settled by status, manifest and notes |
| `FullValidation.FailedShardVouchesForNothing` | examples/ext_full_validation.rs:776-790 | if some shard did not succeed, every verdict is HarnessGap, NotExtension or NotTestedUnvendored |
| `FullValidation.PassIff` | examples/ext_full_validation.rs:1028-1247 | a Pass is exactly: vendored, in the manifest, kept result passing, no scenario or provider failure, no repair and no repair failure that counts |
| `FullValidation.PassReachesBackToShards` | examples/ext_full_validation.rs:776-1247 | a Pass implies every shard succeeded and rests on the kept result of a key under which no shard result is ranked as a failure |
| `FullValidation.PassHasNoProviderFailure` | examples/ext_full_validation.rs:988-1007 | nor any expected provider failure under the id or an alias |
| `FullValidation.FailFastReadsEverything` | examples/ext_full_validation.rs:446-811 | a completed fail-fast run has no failed stage and reads every artifact |
| `Onboarding.BuildRepoCounts` | examples/ext_onboarding_queue.rs:245-252 | exactly the keys that occur, each with its number of occurrences |
| `Onboarding.AssignRepoRank` | examples/ext_onboarding_queue.rs:324-345 | in place, each draft gets its position in its repository's ranking and nothing else changes |
| `Onboarding.RankedSpec` | examples/ext_onboarding_queue.rs:332-342 | a ranking lists each draft of the repository once, by raw impact descending, then id |
| `Onboarding.RanksArePermutation` | examples/ext_onboarding_queue.rs:324-345 | ranks are a permutation of 1 to k, and k is the repository's count |
| `Onboarding.RankOrdersRaw` | examples/ext_onboarding_queue.rs:332-344 | a better rank never has the lower raw impact |
| `Onboarding.RecomputeDebiasedScores` | examples/ext_onboarding_queue.rs:348-365 | in place, every draft gets its de-biased score and impact and keeps everything else |
| `Onboarding.DebiasedFallsWithRank` | examples/ext_onboarding_queue.rs:348-365 | inside a repository the de-biased score never rises with the rank |
| `OnboardingScores.DebiasedLaws` | examples/ext_onboarding_queue.rs:348-365 | with a logarithm of 0 at 1 the only draft of a repository keeps its raw impact, several are divided by one more than the logarithm of their number, and each rank costs 15 per cent |
| `OnboardingScores.RelevanceNeverHurts` | examples/ext_onboarding_queue.rs:355-360 | a relevant draft has at least the impact of an equal irrelevant one if and only if its raw impact is not negative; irrelevance costs 55 per cent of the de-biased score; a relevance point is a point |
| `OnboardingScores.CountNeverHelps` | examples/ext_onboarding_queue.rs:350-358 | for a rising logarithm and a raw impact that is not negative, neither score nor impact rises with the repository count |
| `OnboardingScores.RankTiesById` | examples/ext_onboarding_queue.rs:332-342 | between equal raw impacts the smaller id has the better rank |
| `Onboarding.RepoSumBounded` | examples/ext_onboarding_queue.rs:348-365 | a repository's de-biased scores sum to at most 20/3 of its best raw impact |
| `OnboardingQueue.RanksIgnoreOrder` | examples/ext_onboarding_queue.rs:324-345 | with distinct ids, ranks do not depend on the order of the pool |
| `OnboardingQueue.QueueIgnoresPoolOrder` | examples/ext_onboarding_queue.rs:141-152 | nor does the finished queue |
| `OnboardingScores.QueueInOrder` | examples/ext_onboarding_queue.rs:141-152 | the queue holds every rescored draft, by impact, raw impact, relevance and id |
| `TreeScan.ListingIrrelevant` | examples/ext_unvendored_fetch_run.rs:856-892 | what is visible under a directory does not depend on how it is listed |
| `TreeScan.VisibleIff` | examples/ext_unvendored_fetch_run.rs:856-892 | a file is there to find exactly if it is supported and a trail of readable directories, none of them with a skipped name, leads to it |
| `TreeScan.HintsAre` | examples/ext_unvendored_fetch_run.rs:832-841 | the hints are those of the package and of the repository, each once, in order |
| `TreeScan.ScoreHints` | examples/ext_unvendored_fetch_run.rs:843-854 | the best supported hint, with its bonus |
| `TreeScan.ScanDir` | examples/ext_unvendored_fetch_run.rs:861-887 | one directory: files scanned, directories stacked and files pending account for the whole tree |
| `TreeScan.DetectEntrypoint` | examples/ext_unvendored_fetch_run.rs:822-903 | terminates; scans the smaller of cap and supported files; answers the best of hints and scanned files; an entrypoint exactly when a score |
| `TreeScan.ScoreIgnoresListing` | examples/ext_unvendored_fetch_run.rs:853-903 | below the cap two listing orders give the same score |
| `Pacer.SleepDuration` | examples/ext_stress.rs:690-699 | sleeps exactly until the next event, and only if that is before the deadline |
| `Pacer.RunLoop` | examples/ext_stress.rs:566-603 | for every monotone clock, dispatches follow the schedule and all but the last end before the deadline |
| `Pacer.DispatchEvents` | examples/ext_stress.rs:566-603 | the loop dispatches, pass by pass, what its recursive reading does |
| `Pacer.ReadyPassDispatches` | examples/ext_stress.rs:566-603 | before the deadline one more pass dispatches one more event exactly if that is due |
| `Pacer.NeverEarly` | examples/ext_stress.rs:566-603 | event k is not dispatched before start plus k intervals |
| `Pacer.NoBurst` | examples/ext_stress.rs:599-603 | j events after any event take at least j - 1 intervals |
| `Pacer.StallShifts` | examples/ext_stress.rs:599-603 | after a stall longer than an interval the next event waits a full interval |
| `Pacer.EventsBounded` | examples/ext_stress.rs:566-603 | at most the rounded-up number of intervals plus one events |
| `Pacer.BoundIsTight` | examples/ext_stress.rs:566-603 | clock readings that make the loop dispatch that many |
| `NativeRuntime.Runtime.constructor` | examples/pijs_workload.rs:233-239 | the default state |
| `NativeRuntime.Runtime.BeginRoundtrip` | examples/pijs_workload.rs:242-248 | a fresh id, saturating, in flight and queued |
| `NativeRuntime.Runtime.DrainHostcallRequest` | examples/pijs_workload.rs:250-254 | the oldest request, or an error and no change |
| `NativeRuntime.Runtime.CompleteHostcall` | examples/pijs_workload.rs:256-282 | the call in flight is taken even when completion fails; each failure has its error |
| `NativeRuntime.CompletionMeans` | examples/pijs_workload.rs:256-282 | what each answer to a completion means, if and only if, and what it leaves |
| `NativeRuntime.Runtime.RunToolRoundtrip` | examples/pijs_workload.rs:622-627 | the four steps compose to the round trip on values |
| `NativeRuntime.RoundTripsSucceed` | examples/pijs_workload.rs:241-293 | from a state with nothing pending every round trip succeeds, ids rising by one until they saturate |
| `NativeRuntime.ReachableIssued` | examples/pijs_workload.rs:241-293 | after any sequence of begin, drain, complete and assert, pending ids were handed out earlier |
| `NativeRuntime.UndrainedPoisons` | examples/pijs_workload.rs:241-293 | from every reachable state with a request pending every later round trip fails and keeps the queue length; below saturation the error is the id mismatch |
| `NativeRuntime.WorksIffDrained` | examples/pijs_workload.rs:241-293 | a reachable runtime completes round trips if and only if nothing is left undrained |
| `NativeRuntime.BeginWithoutDrain` | examples/pijs_workload.rs:242-248 | from every reachable state one more begin leaves its request pending |
| `Sanitize.SanitizeForFs` | examples/ext_unvendored_fetch_run.rs:1135-1148 | the rewriting loop terminates with the alphanumeric runs joined by underscores |
| `Sanitize.RunsOfWord` | examples/ext_unvendored_fetch_run.rs:1135-1143 | a word of ASCII letters and digits is its own only run |
| `Sanitize.RunsSplit` | examples/ext_unvendored_fetch_run.rs:1135-1143 | any other character separates the runs before it from those after it |
| `Sanitize.HalvedShrinks` | examples/ext_unvendored_fetch_run.rs:1144-1146 | a replacement shortens the string whenever there is something to replace |
| `Sanitize.SanitizedIsNormalAndStable` | examples/ext_unvendored_fetch_run.rs:1135-1148 | no leading, trailing or doubled underscore; sanitising twice is sanitising once |
| `DigitGrouping.GroupBefore` | build.rs:40-50 | the insert-before loop groups in threes from the right |
| `DigitGrouping.GroupAfter` | examples/ext_onboarding_queue.rs:632-644 | the insert-after loop gives the same grouping |
| `DigitGrouping.GroupedRestores` | build.rs:40-50 | removing separators restores the digits |
| `DigitGrouping.GroupedLength` | build.rs:40-50 | the length is n + (n - 1) / 3 |
| `DigitGrouping.SeparatorPlaces` | build.rs:40-50 | counted from the right exactly every fourth character is a separator |
| `DigitGrouping.SameLayout` | examples/ext_onboarding_queue.rs:632-644 | the two layouts differ in the separator only |

## Left out

- Everything outside the modules named above: the agent loop, sessions, tools, providers, authentication, the terminal interface and the extension runtime.
- Process spawning, file and network access, JSON and Markdown rendering, logging and progress counters.
- Floating-point rounding and NaN, and the rounding of displayed scores in the onboarding queue.
- Waking a task that waits for the transport: a poll answers, and when it is repeated is up to the consumer.
- The interning of event type names, which only saves allocations.
- The dominant scenario, averages and completeness report of the interference matrix, and when safe mode is entered.
- Saturation of the S3-FIFO per-owner `usize` counters, which would need 2^64 live keys.
- Telemetry snapshots of the S3-FIFO policy, a copy of fields.
- Panicking workers and poisoned locks in both harnesses.
- `select_entries` and `summarize_counts`: filters and counts settled by reading them.
- The texts of a classification, the review queue, the hotlist and the verdict counts of the validation report.
- The sets of distinct strings in `evidence_provenance`, which the validator never compares with the rows, and the shape checks of the matrix (missing field, wrong type).
- PMU normalisation and comparison, outcome correlation and realised information gain: straight-line formulas.
- The scoring of a source file and the component order of paths in `detect_entrypoint`: scores are a parameter, and hints are ordered as strings, which decides only between equal scores.
- Symbolic links that make a directory tree infinite.
- Onboarding.RepoSumBounded: up to 2^31 candidates per repository, the range of the exponent.
- Pacer.RunLoop: covers any finite prefix of a run; that a run ends needs a clock that advances. Resource sampling is left out.
- The relevance heuristic and popularity logarithms behind a raw impact, which is a parameter.
