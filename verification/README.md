# Verified model of the voice-bot server's stateful algorithms

The voice-bot server answers phone and web calls with a pipeline of speech recognition, a language
model and speech synthesis. Most of its source wires services together; between the wires sit small
algorithms with state, whose promises are about whole runs. This project models those algorithms in
Dafny and proves the promises, on every input, every trace of frames and every interleaving of
coroutines.

Run `dafny verify dfyconfig.toml` to check everything.

## Form of the model

- **Coroutines.** A stretch of code between two `await`s is one atomic step. A run is a list of
  states and a list of steps with their times, in any order the step's own condition allows (a sleep
  ends no earlier than its delay). Classes hold the closure variables and fields of the source, with
  one method per stretch, proved to be the step of the state machine.
- **Observers.** A frame crosses many processor boundaries and is seen many times under one id. The
  observers are classes whose method handles one crossing; what they put out is specified over the
  whole trace.
- **Loops.** A loop of the source is a method with a loop. What it computes is stated by a function
  or a property that does not mention the loop.
- **Numbers.** Times and durations are exact reals, resampler positions exact quotients of integers.
- **Outside world.** The network, DynamoDB, the clock, randomness, JSON and hex decoding and the URL
  parser are parameters or free choices of a run.

| module | models |
|---|---|
| `Playout`, `AsyncTasks`, `IdleNudge` | the playout clock and the idle nudge with its delayed re-check |
| `BlockSplitter`, `MiniMaxStream` | the buffer loop over `data:` blocks and the audio frames it yields |
| `TextOrder`, `Calendar`, `ActivityQuery`, `ActivityWalk` | paging through the audit log with cursors |
| `Frames`, `EventBroadcaster`, `LatencyObserver`, `TimeoutFiller` | three observers of the frame stream |
| `PeakConcurrent`, `Percentiles`, `Tally`, `Metrics`, `LatencyReport` | dashboard figures and the offline report |
| `MetricsCache` | the double-checked cache in front of the history scan |
| `CallEnding` | call-control tools, the outcome row and the flush after the call |
| `Pcm16`, `Resampler` | linear resampling in Python and in TypeScript |
| `Json`, `McpConfig.dfy` (module `McpRegistry`) | the registry of MCP servers with masked headers |
| `Sanitizer` | redaction of audit-log details |

## What the code does not keep

For each of these, lemmas name a run or an input in which it happens and say, for all of them,
exactly when it does.

- An idle event that finds playout over nudges without cancelling a re-check that an earlier idle
  event left asleep, and the re-check nudges again (`IdleNudge.PendingRecheckNudgesAgain`). A second
  nudge with no idle event in between is possible exactly when the first comes from an idle event
  that leaves a re-check pending and a nudge in the budget (`IdleNudge.SecondNudgeExactlyWhen`).
- The playout clock forgets the audio of an earlier turn when a new turn is anchored over it, so a
  nudge can come while the far end is still playing (`IdleNudge.NudgesOverTheLongReply`). After any
  run with audio in the last turn, an idle event can do so exactly when the budget has a nudge left,
  the far end is still playing, and the turn has started over an earlier one or run dry
  (`IdleNudge.EarlyNudgeExactlyWhen`). The clock's estimate is never late, and it is too early
  exactly for such a turn (`Playout.EstimateExactlyWhen`).
- `write_outcome_row` calls itself idempotent, but its flag is set only after the put has returned.
  When the session ends during the grace task's put, turns that were written can be lost
  (`CallEnding.OverlapLosesTheTurns`). A write that begins can lead to lost turns exactly when a
  write is in flight that is the flush's or has yet to take effect
  (`CallEnding.TurnsAreLostExactlyWhen`), and to two successful puts exactly when any write is in
  flight (`CallEnding.RowIsPutTwiceExactlyWhen`).
- A metrics request that is cancelled during its scan leaves the cache as it was
  (`MetricsCache.AbandonedScanIsRepeated`). A caller under the lock scans exactly when every scan of
  the last 10 s has been abandoned (`MetricsCache.ScansExactlyWhen`).
- An MCP server id may end in a newline, because `$` in the id pattern matches in front of it
  (`McpRegistry.NewlineIdIsAccepted`). Validation is not idempotent, and sending back the masked
  server changes its label, exactly when such an id stands in for a missing label
  (`McpRegistry.IdempotentExactlyWhen`, `McpRegistry.ResendingTheMaskedServer`).
- An upsert or delete that raises because the file cannot be written is in force until the cache is
  dropped (`McpRegistry.FailedUpsertIsServedUntilReload`,
  `McpRegistry.FailedDeleteIsGoneUntilReload`). Cache and file part exactly when a write fails that
  would have changed something (`McpRegistry.EqualExactlyWhen`).
- Days before the year 1000 can be compared wrongly as text (`Calendar.ShortYearsSortWrongly`): the
  comparison is one of dates, on all dates from a year on, exactly if that year has four digits
  (`Calendar.OrdersAgreeExactlyFrom`). The range of days fails exactly when it has to step below the
  first day of the calendar (`Calendar.DayRangeDesc`).
- The latency observer remembers audio only while a turn is open, so a frame from before the turn
  can give its audio time (`LatencyObserver.OldAudioCanCount`), exactly when it crossed before the
  turn and again in it (`LatencyObserver.OldAudioExactlyWhen`).
- Four of the five latencies can be negative (`LatencyObserver.EachCanBeNegative`), each exactly when
  its end is crossed before its beginning (`LatencyObserver.NegativeExactlyWhen`); end-to-end time
  cannot.
- The Python resampler says that it mirrors the TypeScript one. They agree on all buffers exactly
  when the source rate is a multiple of the target rate (`Resampler.AgreeExactlyWhen`); on whole
  samples they differ only at halves (`Resampler.VersionsAgree`).
- The last `data:` block of a stream is never handed out (`BlockSplitter.BlocksPartitionTheStream`).

## Model

| member | source | states |
|---|---|---|
| Playout.ClockMeasuresTheLastTurn | bot.py:1478-1518 | after any sequence of turn starts, ends and audio, the clock runs from the last anchor, audio or turn start, and holds exactly the bytes since then |
| Playout.PcmLength | bot.py:1507-1511 | the seconds of an amount of audio are its bytes by two bytes for each sample of each channel, and 0 for a format without samples |
| Playout.NoReadingBeforeFirstTurn | bot.py:1513-1525 | the clock has no reading exactly while nothing but turn ends has been seen |
| Playout.OnlyAudioExtendsPlayout | bot.py:1486-1525 | only audio bytes make a turn that is played out audible again |
| Playout.EstimateExactlyWhen | bot.py:1459-1463 | the estimate is never later than the end of first-in-first-out playout of all audio so far, and equals it if and only if the turn is not anchored over earlier audio and no frame arrives after its turn has run dry |
| Playout.BotPlayoutTracker.OnBotTurnStart | bot.py:1478-1489 | a turn start anchors the clock unless audio already did |
| Playout.BotPlayoutTracker.OnBotTurnEnd | bot.py:1491-1494 | a turn end keeps the reading and lets the next audio start afresh |
| Playout.BotPlayoutTracker.AddAudio | bot.py:1496-1505 | audio adds its bytes, and anchors the clock when no turn is active |
| IdleNudge.AtMostOneRecheck | bot.py:2525-2569 | in every interleaving at most one re-check task can still act, and `pending_recheck` is exactly that one |
| IdleNudge.NudgesExactlyWhen | bot.py:2555-2569 | a step nudges if and only if it is an idle event or a re-check, playout is over, and fewer than two nudges have been sent since the last end of a user turn |
| IdleNudge.NudgeBudget | bot.py:2579-2611 | at most two nudges between two ends of a user turn, over any stretch of any run |
| IdleNudge.NudgeOnlyAfterPlayout | bot.py:2516-2523 | at a nudge every byte of audio sent since the turn's anchor has, by the estimate, had the time to play |
| IdleNudge.NudgeAfterTheFarEnd | bot.py:2516-2523 | a nudge comes after the far end has played everything if the turn has neither run dry nor started over an earlier one |
| IdleNudge.EarlyNudgeExactlyWhen | bot.py:2585-2611 | after any run with audio in the last turn, an idle event can nudge before the far end has played everything if and only if a nudge is left, the far end is still playing, and the turn overlapped an earlier one or ran dry |
| IdleNudge.NudgesOverTheLongReply | bot.py:1478-1505 | a nudge at 12 s while the far end plays until 21 s, because a short reply was anchored over a long one |
| IdleNudge.NudgeHasItsIdle | bot.py:2571-2623 | a nudge goes back to an idle event with no user turn start, stop or disconnect in between |
| IdleNudge.OneNudgePerIdle | bot.py:2546-2611 | over any stretch of a run, nudges sent and outstanding are covered by its idle events |
| IdleNudge.DeferralNeedsNewAudio | bot.py:2555-2562 | a re-check that wakes defers again only if bot audio was added after it was scheduled |
| IdleNudge.DeferredNudgeIsNotLost | bot.py:2591-2604 | a deferred nudge stays pending until the user acts, the call ends, a later idle event takes over, or it wakes with playout over |
| IdleNudge.PendingRecheckNudgesAgain | bot.py:2605-2611 | a run, with idle events 4 s after the bot stops as the idle controller sends them, in which one idle event leads to two nudges |
| IdleNudge.TwoNudgesWithoutIdle | bot.py:2585-2611 | of two nudges with no idle event between them the first comes from an idle event that left a re-check pending and a nudge in the budget |
| IdleNudge.SecondNudgeExactlyWhen | bot.py:2585-2611 | a nudge can be followed by another one without an idle event if and only if it comes from such an idle event |
| IdleNudge.Nudger.CancelPendingRecheck | bot.py:2529-2533 | the pending task is cancelled unless done, and the reference cleared |
| IdleNudge.Nudger.DoNudge | bot.py:2535-2544 | one nudge is counted and sent |
| IdleNudge.Nudger.OnUserTurnStarted | bot.py:2571-2577 | the handler is the step of the state machine |
| IdleNudge.Nudger.OnUserTurnStopped | bot.py:2579-2583 | the handler is the step: the budget is new and the re-check cancelled |
| IdleNudge.Nudger.OnUserTurnIdle | bot.py:2585-2611 | the handler is the step: defer while audible, else nudge within the budget |
| IdleNudge.Nudger.RecheckSleeps | bot.py:2546-2552 | the coroutine's first stretch is the step |
| IdleNudge.Nudger.RecheckAfterPlayout | bot.py:2555-2569 | the coroutine's stretch after its sleep is the step |
| IdleNudge.Nudger.OnDisconnected | bot.py:2619-2623 | the handler is the step: the re-check is cancelled |
| BlockSplitter.OccurrencesAreTheMarkers | bot.py:685-687 | the occurrences searched for are exactly the places of the marker, in order |
| BlockSplitter.MarkersDoNotOverlap | bot.py:687 | two occurrences of `data:` are at least five bytes apart, so resuming the search five bytes on misses none |
| BlockSplitter.MoreBytesMoreOccurrences | bot.py:683-692 | later bytes undo no occurrence and add new ones at the end |
| BlockSplitter.BlocksPartitionTheStream | bot.py:684-694 | the bytes before the first marker, the blocks and the withheld rest are the stream |
| BlockSplitter.Find | bot.py:686-687 | `bytearray.find`: the first occurrence from a place on, or none |
| BlockSplitter.Splitter.NextBlock | bot.py:685-694 | one turn of the loop hands out the next block of the whole stream and shortens the buffer, or trims it to the rest |
| BlockSplitter.Splitter.Drain | bot.py:685-694 | the inner loop hands out exactly the blocks not yet handed out |
| BlockSplitter.Splitter.Feed | bot.py:680-694 | for every cut into chunks, the blocks handed out so far are the blocks of all bytes fed so far |
| MiniMaxStream.SlicesConcatenateToThePcm | bot.py:726-733 | the slices of a block's audio join to the audio, and only the last may be short |
| MiniMaxStream.OutputConcatenates | bot.py:695-733 | output follows the order of the blocks up to the first error |
| MiniMaxStream.FramesOnlyGrow | bot.py:680-733 | further bytes never take back a frame |
| MiniMaxStream.SlicePcm | bot.py:726-733 | the slicing loop computes the slices |
| MiniMaxStream.BlocksPlay | bot.py:695-733 | of any list of blocks all audio before the first error is put out, in order, then exactly one error frame, and the output is stopped exactly if there is an error |
| MiniMaxStream.StreamPlays | bot.py:678-736 | the same of a stream of bytes, where a break counts as an error behind its last block |
| MiniMaxStream.ErrorsAreNamed | bot.py:699-736 | a status code is reported with the message of the service, JSON that is no object as a failed stream |
| MiniMaxStream.HandleBlock | bot.py:695-733 | a block without an error plays all its audio, in frames of at most the chunk size and in order, and the stream goes on; an error gives exactly one error frame and ends it |
| MiniMaxStream.RunTts | bot.py:678-736 | for every cut into chunks the audio frames join to the audio of all blocks before the first error, and one error frame follows exactly if there is an error block or the stream breaks |
| MiniMaxStream.StreamIsDecided | bot.py:702-704 | once an error block has come, later chunks do not matter |
| MiniMaxStream.SameBytesSameFrames | bot.py:680-733 | two ways of cutting the same bytes give the same frames |
| Calendar.TextOrderIsDateOrder | activity_store.py:297-317 | for four-digit years the order of `YYYY-MM-DD` texts is the order of dates, and equal texts are equal dates |
| TextOrder.LessExactlyWhen | activity_store.py:297-317 | a text is less if and only if it agrees with the other up to a place where it ends or has the smaller character |
| Calendar.MonthLengths | activity_store.py:377-392 | which dates exist, month by month, with the leap rule of the Gregorian calendar |
| Calendar.FormatReadsBack | activity_store.py:370-390 | the text of a date is its year, two-digit month and two-digit day, and splitting at the dashes and reading the numbers gives the date back |
| Calendar.ShortYearsSortWrongly | activity_store.py:297-298 | the year 999 sorts after the year 1000 |
| Calendar.OrdersAgreeExactlyFrom | activity_store.py:297-317 | text order is date order on all dates from a year on if and only if that year is at least 1000 |
| Calendar.DateOrder | activity_store.py:384-388 | dates are ordered as their day numbers, which are one apart for neighbouring days |
| Calendar.DayRangeDesc | activity_store.py:377-392 | the consecutive days from `d_to` back to the later of `d_from` and 365 days before, or the error when the first day of the calendar is passed |
| Calendar.DayListDescends | activity_store.py:377-392 | the list is strictly descending as text |
| Calendar.DaysAgoIsNDays | activity_store.py:370-374 | `_days_ago` is exactly n days earlier, and fails exactly when there is no such day |
| Calendar.QueryDays | activity_store.py:293-300 | defaults and the swap, by the texts that the caller sent, fix the range for all dates, and between four-digit years it is the days of the range whichever end comes first |
| Calendar.NoBarInDays | activity_store.py:304-305 | no day contains the cursor's separator |
| ActivityQuery.CursorRoundTrip | activity_store.py:302-305 | a cursor that was handed out decodes to the key it was made from, whatever the `ts_id` |
| ActivityQuery.CursorStandsFor | activity_store.py:302-310 | a cursor decodes to a key if and only if it is its day, without a bar, then a bar, then its `ts_id`; without a bar it decodes to nothing |
| ActivityQuery.SelectedExactlyWhen | activity_store.py:336-348 | a row is selected if and only if it is in a partition of the range, meets the filters that are given, and is on an earlier day than the cursor or has a smaller `ts_id` on the same |
| ActivityQuery.PageSize | activity_store.py:288-291 | no limit means 100, any other is clamped to 1..1000; a page has that many rows or all there are, and a cursor exactly if it is full |
| ActivityQuery.CursorTest | activity_store.py:341-343 | the test made only on the cursor's own day is the comparison of whole keys |
| ActivityQuery.NewerDay | activity_store.py:314-317 | a partition newer than the cursor's day has no row to return |
| ActivityQuery.FullPageIsSettled | activity_store.py:349-351 | stopping as soon as the page is full loses nothing |
| ActivityQuery.QueryDay | activity_store.py:336-351 | the inner loop extends the page by the day's wanted rows up to the limit |
| ActivityQuery.Query | activity_store.py:288-365 | the nested loops, reading each partition at its own time, return the first rows, up to the limit, of the newest-first list of wanted rows older than the cursor, and the cursor of the last one when full |
| ActivityWalk.CursorIsAPosition | activity_store.py:341-351 | what is older than a returned row is the rest of the list behind it |
| ActivityWalk.WalkReturnsTheList | activity_store.py:279-287 | following cursors from none to none returns the newest-first filtered list exactly, for every limit |
| ActivityWalk.WalkEnds | activity_store.py:349-358 | over a table that does not change the walk has exactly N / limit + 1 pages, and no walk has more |
| ActivityWalk.WalkIsBounded | activity_store.py:349-358 | however the table grows, the full pages of a walk hold no more rows than match in its last snapshot |
| ActivityWalk.WalkOverAGrowingTable | activity_store.py:270-358 | while rows are inserted between pages, keys still strictly descend and every wanted row present from the start is returned |
| ActivityWalk.WalkOverGrowingPartitions | activity_store.py:314-358 | for the pages of queries while rows are inserted between the partitions of one page as well: keys descend, every wanted row present at the first read is returned, and the walk goes on only while rows are added |
| ActivityWalk.WalkReturnsOnlyMatches | activity_store.py:344-348 | nothing is returned that the filter excludes or the table never held |
| EventBroadcaster.BroadcastsDistinctFrames | bot.py:1607-1669 | on any trace with repeated crossings, events, persisted turns, reply buffer and playout clock are those of the trace with first crossings only |
| EventBroadcaster.EventsTellTheFrames | bot.py:1537-1549 | the events can be read back: in order and with their times they give exactly the distinct frames of the eleven watched kinds |
| EventBroadcaster.TurnsAreTheDialogue | bot.py:1589-1605 | the persisted turns are, in order, the final transcripts as the user's and the replies, joined from their deltas, as the bot's |
| EventBroadcaster.SignalsAreTheFrames | bot.py:1618-1643 | the playout clock is told of exactly the distinct audio frames with their bytes, the starts of the bot, and the stops of the bot and starts of the user as ends |
| EventBroadcaster.ReplyIsTheDeltas | bot.py:1653-1661 | the reply buffer is the concatenation of the deltas since the last start or end |
| EventBroadcaster.LlmEndCarriesTheWholeReply | bot.py:1659-1661 | every `llm_end` carries the concatenation of its own reply's deltas |
| EventBroadcaster.BytesOfTheCurrentTurn | bot.py:1610-1643 | the byte count is the sum over the distinct audio frames since the turn's anchor, whichever of audio and bot start came first |
| EventBroadcaster.Broadcaster.Send | bot.py:1583-1605 | every event is emitted, and final transcripts and replies are persisted |
| EventBroadcaster.Broadcaster.OnPushFrame | bot.py:1607-1669 | the observer's method is the step on its fields and the tracker's |
| LatencyObserver.RecordsMeetTheSpecification | latency_observer.py:154-239 | the records are one for each distinct bot start whose last distinct boundary is a user start, numbered by the distinct user starts, with the first counted crossing of every stage in the window |
| LatencyObserver.LatencyValues | latency_observer.py:251-255 | each latency of a closed turn is the whole number of milliseconds nearest to the span between the first counted frames of its two kinds in the turn, to the bot start for end-to-end, and there is none exactly if one of them is missing |
| LatencyObserver.TurnNumber | latency_observer.py:222 | a turn is numbered by the distinct user starts up to it |
| LatencyObserver.ClosesExactlyWhen | latency_observer.py:213-232 | a bot start closes a turn if and only if it crosses for the first time and, before it, a user start after which nobody started |
| LatencyObserver.FirstTimeIsTheEarliest | latency_observer.py:147-150 | a stage time is that of the earliest crossing in the window that counts |
| LatencyObserver.FirstTimeInWindow | latency_observer.py:129-150 | a stage has a time exactly when a crossing in the window counts, audio with its own rule of counting |
| LatencyObserver.EndToEndIsNotNegative | latency_observer.py:251 | end-to-end latency is never negative under a monotone clock |
| LatencyObserver.NegativeExactlyWhen | latency_observer.py:252-255 | each of the other four latencies is negative if and only if, inside the turn, the crossing that ends it comes before the one that begins it by more than half a millisecond |
| LatencyObserver.EachCanBeNegative | latency_observer.py:252-255 | for each of the four, turns in which it is negative |
| LatencyObserver.OldAudioExactlyWhen | latency_observer.py:168-173 | audio that counts in a turn is not its frame's first crossing if and only if the frame had crossed before the turn |
| LatencyObserver.OldAudioCanCount | latency_observer.py:168-173 | a trace in which a frame of the greeting gives the audio time of the first turn |
| LatencyObserver.Observer.OnUserStarted | latency_observer.py:213-224 | a user start opens a new numbered turn and forgets an unclosed one |
| LatencyObserver.Observer.OnBotStarted | latency_observer.py:226-237 | a bot start closes an open turn with one record, and is ignored otherwise |
| LatencyObserver.Observer.OnPushFrame | latency_observer.py:154-201 | the observer's method is the step on its fields |
| TimeoutFiller.AtMostOneTimer | timeout_filler.py:232-240 | in every interleaving at most one timer can still fire, and it is the pending one |
| TimeoutFiller.CleanUpSparesTheNewerTimer | timeout_filler.py:257-262 | after an arm frame the reference stays on its timer until that timer ends, however late older timers clean up |
| TimeoutFiller.FillerHasItsArm | timeout_filler.py:219-251 | every filler belongs to an arm frame at least the timeout earlier with no arm or cancel frame in between |
| TimeoutFiller.FillerAnswersAStop | timeout_filler.py:140-155 | between a filler and the user stop, by turn detection or voice activity, at least the timeout before it, the user neither stops again nor starts and no reply begins, by speech synthesis or playout |
| TimeoutFiller.SilentAfterAStart | timeout_filler.py:150-155 | after the start of a reply or of the user no timer can fire and none speaks until the user stops again |
| TimeoutFiller.StopStartsATimer | timeout_filler.py:219-235 | a user stop leaves one timer that can fire, a new one with the whole timeout ahead |
| TimeoutFiller.OtherFramesDoNothing | timeout_filler.py:219-230 | any other frame, and any frame while the observer is off, changes nothing |
| TimeoutFiller.UndisturbedTimerFires | timeout_filler.py:232-251 | a timer that no arm or cancel frame follows is never cancelled: it can fire or has fired |
| TimeoutFiller.FillerExactlyWhen | timeout_filler.py:232-262 | over any run a timer gets one filler if it fires and speaks, with no arm or cancel frame since its arm frame and at least the timeout after it, and none otherwise |
| TimeoutFiller.FillerHasItsTimer | timeout_filler.py:232-251 | there is no filler but those of timers that an arm frame armed |
| TimeoutFiller.OneFillerPerArm | timeout_filler.py:232-262 | over any stretch of a run, fillers are covered by its arm frames |
| TimeoutFiller.Observer.ArmTimer | timeout_filler.py:232-235 | the prior timer is cancelled and a new one pending |
| TimeoutFiller.Observer.CancelTimer | timeout_filler.py:237-240 | the pending timer is cancelled unless done |
| TimeoutFiller.Observer.OnPushFrame | timeout_filler.py:219-230 | the observer's method is the step, and does nothing when disabled |
| TimeoutFiller.Observer.Fire | timeout_filler.py:246-262 | the coroutine's stretch after its sleep is the step |
| TimeoutFiller.Observer.FireSleeps | timeout_filler.py:242-245 | the coroutine's stretch up to its sleep is the step |
| TimeoutFiller.Observer.Finally | timeout_filler.py:257-262 | a finished timer clears the reference only if it is its own |
| PeakConcurrent.Peak | bot.py:6771-6799 | the maximum over all instants t of the finalized calls with start <= t < end, 0 if there are none |
| PeakConcurrent.ActiveAreCounted | bot.py:6779-6788 | the calls in progress at t are the rows with a positive end after t and a start, 0 if missing, not after t |
| PeakConcurrent.PeakIsTheMaximum | bot.py:6791-6799 | the maximum of the running sums of the sorted events is that maximum |
| PeakConcurrent.RunningSumIsReached | bot.py:6791-6797 | every running sum is at most zero or at most the number of calls at some instant, because ends come before starts |
| PeakConcurrent.InstantIsARunningSum | bot.py:6791-6797 | the number of calls at any instant is a running sum |
| PeakConcurrent.StartsFirstPeak | bot.py:6774-6777 | sweeping with starts first would give the maximum over t of the calls with start <= t <= end |
| PeakConcurrent.StartsFirstOvercountsExactlyWhen | bot.py:6791-6797 | that is more than the peak if and only if at some instant the calls in progress and those ending there exceed it |
| PeakConcurrent.BackToBackCallsOvercount | bot.py:6774-6777 | two calls, one starting as the other ends, would count as two at once |
| PeakConcurrent.CollectEvents | bot.py:6779-6788 | the events of the finalized rows |
| PeakConcurrent.Sweep | bot.py:6793-6799 | the sweep is the maximum of the running sums |
| Percentiles.NearestRankIsTheSmallestCover | bot.py:6753-6768 | `_percentile` is the smallest element with at least pct percent of the values at or below it |
| Percentiles.NearestRankIsMonotone | bot.py:6753-6768 | a higher percentage never gives a lower value, edges included |
| Percentiles.PercentileIsMonotone | scripts/latency_report.py:51-81 | the interpolating percentile is monotone in p |
| Percentiles.PercentileIsLinear | scripts/latency_report.py:76-81 | between two neighbouring ranks the percentile is the linear interpolation of the two values there, for the values in any order |
| Percentiles.PercentileAtRank | scripts/latency_report.py:76-81 | at a whole rank it is the value of that rank |
| Percentiles.MedianOfTwo | scripts/latency_report.py:76-81 | the median of two values is their mean |
| Percentiles.PercentileEnds | scripts/latency_report.py:51-81 | p = 0 is the minimum and p = 100 the maximum |
| Percentiles.PercentileIgnoresOrder | scripts/latency_report.py:71 | any permutation of the values gives the same percentile |
| Tally.CountsAddUp | bot.py:6888-6907 | the counts of all keys sum to the number of things counted |
| Tally.CountInto | bot.py:6888-6907 | the counting loop: the initial keys and those that occur, each with its number of occurrences |
| Metrics.Aggregate | bot.py:6864-6923 | for outcomes, demos and engines every key has the number of rows with that text, no text counting as `unknown`, and the counts add up to the rows; the transfer rate is a proportion, p50 <= p95, and the peak is the true maximum |
| Metrics.TodayFigures | bot.py:6869-6884 | number, average and ordered percentiles of the durations of the calls started since UTC midnight |
| Metrics.TodayIsCounted | bot.py:6867-6879 | each duration of today occurs once for every row that has it and started on the UTC day of now or later |
| Metrics.MidnightOfTheDay | bot.py:6802-6805 | midnight is the last multiple of a day not after now |
| Metrics.SumAdds | bot.py:6882 | the sum of a list is that of its parts |
| Metrics.SumOfSorted | bot.py:6880-6882 | sorting does not change the sum, so the average is that of the rows' durations |
| Metrics.TransferRate | bot.py:6895-6898 | the rate is the exact proportion of transfers, in [0, 1], 0 without rows |
| LatencyReport.Collect | scripts/latency_report.py:128-146 | every label that occurs has, for every stage, exactly its own records' values in order |
| LatencyReport.CollectRecord | scripts/latency_report.py:139-146 | one record's values are appended to its bucket and nothing else changes |
| LatencyReport.SameLabelExactlyWhen | scripts/latency_report.py:131-136 | two records share a label if and only if their groups are the same, a missing one counting as `unknown`; ungrouped all are under `all` |
| LatencyReport.ValuesOfTheRecords | scripts/latency_report.py:138-146 | under a label each value of a stage occurs once for every record of that group that has it |
| LatencyReport.UngroupedIsEverything | scripts/latency_report.py:132-133 | without grouping the one label holds all values |
| LatencyReport.GroupCountsAddUp | scripts/latency_report.py:103-151 | over the groups, the counts of a stage sum to the ungrouped count |
| LatencyReport.GroupExtremesCombine | scripts/latency_report.py:98-99 | the overall minimum and maximum are group ones, and no group has a value outside them |
| MetricsCache.AtMostOneScan | bot.py:6940-6956 | with any number of callers the lock is held exactly by the one caller whose scan is in flight |
| MetricsCache.ScansAreATtlApart | bot.py:6940-6956 | two scans start at least 10 s apart unless the earlier one was abandoned |
| MetricsCache.ScansPerWindow | bot.py:6935-6956 | in every run a window has at most window / TTL + 1 scans and one more for each of its scans that is abandoned in it |
| MetricsCache.ScansExactlyWhen | bot.py:6941-6948 | in every run a caller that gets the lock scans if and only if every scan started less than a TTL ago has been abandoned |
| MetricsCache.CachedPayloadIsFresh | bot.py:6934-6946 | whatever is served from the cache comes from a scan started less than a TTL ago |
| MetricsCache.AbandonedScanIsRepeated | bot.py:6947-6955 | a run in which a cancelled scan is repeated within the TTL |
| MetricsCache.Collector.Arrive | bot.py:6934-6939 | the check before the lock is the step |
| MetricsCache.Collector.Acquire | bot.py:6940-6948 | the check under the lock is the step |
| MetricsCache.Collector.FinishScan | bot.py:6947-6956 | a scan that ends, well or not, fills the cache with its starting time |
| MetricsCache.Collector.Abandon | bot.py:6940-6956 | a caller that is cancelled leaves the cache alone and gives the lock back if it held it |
| CallEnding.OneEndAfterTheWrite | call_control_tools.py:121-193 | for any interleaving of the two tools all invocations but the first are declined, at most one EndTaskFrame is queued, and every outcome write of the grace task has returned by then |
| CallEnding.OneWinnerAlways | call_control_tools.py:121-193 | the winner makes exactly one grace task once its emit returns, and the frame is queued exactly when that task ends |
| CallEnding.GraceEndsTheCall | call_control_tools.py:121-135 | once the grace period is over the frame is queued, or the grace task's own write is still in flight |
| CallEnding.FlushUpdatesTheTurns | bot.py:1349-1388 | after the end of a session with meta data the flush awaits its own put or the update of the turns until that update has returned |
| CallEnding.OutcomeRowNamesTheWinner | bot.py:1290-1337 | the row put by the grace task asks for a callback exactly when the call is ended by a transfer |
| CallEnding.RowNamesTheWinnerExactlyWhen | bot.py:1290-1337 | the row in the table, whoever put it, names the winner if and only if no transfer has won since its write began |
| CallEnding.EndWaitsForTheRow | call_control_tools.py:123-135 | on a call with a row the frame is queued when the grace task's own put has returned, or after another put succeeded or the caller hung up |
| CallEnding.SuccessfulWritesOverlap | bot.py:1300-1347 | of two successful puts the second began while the first was in flight |
| CallEnding.RowIsPutAtMostOnce | bot.py:1300-1347 | without overlapping writes at most one put succeeds |
| CallEnding.TurnsAreNotOverwritten | bot.py:1349-1388 | without overlapping writes no put wipes out turns that were written |
| CallEnding.OverlapLosesTheTurns | bot.py:1349-1388 | a run that loses the turns after a successful put |
| CallEnding.EveryOverlapCanLoseTheTurns | bot.py:1349-1388 | from every state of a session not yet over with an unwritten outcome and a put still to take effect, its end has a continuation that loses the turns |
| CallEnding.TurnsAreLostExactlyWhen | bot.py:1300-1388 | when a write begins, the run can go on without another write to lose written turns if and only if a write is in flight that is the flush's or has yet to take effect |
| CallEnding.RowIsPutTwiceExactlyWhen | bot.py:1300-1347 | when a write begins, the run can go on without another write to two successful puts if and only if any write is in flight |
| CallEnding.TwoWritersAlways | bot.py:7095-7108 | the grace task and the flush, which is scheduled once, write at most once each |
| CallEnding.Session.HandleEndCall | call_control_tools.py:145-153 | the handler up to its emit is the step |
| CallEnding.Session.HandleTransfer | call_control_tools.py:164-183 | the handler up to its emit is the step |
| CallEnding.Session.CreateGraceTask | call_control_tools.py:154-162 | the rest of a handler is the step |
| CallEnding.Session.GraceThenEnd | call_control_tools.py:123-135 | the grace task from its sleep to its next await is the step |
| CallEnding.Session.WriteOutcomeRow | bot.py:1300-1336 | a write begins only with meta data and no successful write before |
| CallEnding.Session.FlushTurns | bot.py:1349-1362 | the flush up to its first await is the step |
| CallEnding.Session.FinishWrite | bot.py:1335-1347 | a write that returns sets the flag only on success, and its awaiter goes on |
| Resampler.UpsamplePcm16Linear | bot.py:1699-1728 | the filled array is the linear interpolation, rounded half to even; an odd last byte is dropped; equal rates return the input |
| Resampler.Resample | voice-server/src/audio-utils.ts:7-25 | the same rounded half up, in a new buffer; equal rates return the caller's own buffer; fails exactly on a single byte that would have to be read |
| Resampler.PositionIsInside | voice-server/src/audio-utils.ts:11-20 | every output position lies inside the input, so only the right neighbour ever needs its bound |
| Resampler.OutputIsBetween | bot.py:1721-1727 | every output lies between its two neighbours in the input, so the clamp never acts |
| Resampler.RampIsKept | bot.py:1721-1726 | on samples that lie on a straight line the output is the rounded value of the line at the output's position |
| Resampler.VersionsAgree | bot.py:1702-1726 | the TypeScript output exceeds the Python one by one exactly at halves above an even integer, and equals it elsewhere |
| Resampler.AgreeExactlyWhen | bot.py:1702-1728 | the two programs give the same bytes for every buffer, odd lengths included, if and only if the source rate is a multiple of the target rate |
| Resampler.RoundIsNearest | bot.py:1726 | rounding is to a nearest integer, the only one unless the value is a half |
| Resampler.UpThenDown | voice-server/src/audio-utils.ts:7-39 | up by an integer factor and down again is the identity, whichever way each rounds |
| Resampler.DownTakesEveryKth | voice-server/src/audio-utils.ts:36-39 | down by k keeps every k-th sample and floor(n / k) of them |
| Resampler.DownDistributes | voice-server/src/audio-utils.ts:36-39 | down by k goes packet by packet when packets are multiples of k samples |
| Resampler.PacketsDifferAtSeams | bot.py:1699-1728 | up by k packet by packet gives the same outputs as at once except the k - 1 between a packet's last sample and the next packet |
| Resampler.WholeSamples | voice-server/src/audio-utils.ts:10-20 | on buffers of even length the byte offsets read are those of the samples |
| Resampler.OddByteIsDropped | voice-server/src/audio-utils.ts:10-20 | going down by an integer factor an odd last byte does not count |
| Resampler.Upsample8To16 | voice-server/src/audio-utils.ts:32-34 | as many outputs as bytes: the samples in the even places, an odd last byte read with the one before it, and between each two a value between the two; fails exactly on a single byte |
| Resampler.Downsample24To8 | voice-server/src/audio-utils.ts:36-39 | every third sample, for buffers of any length |
| Pcm16.SamplesOfBytes | bot.py:1715-1728 | writing samples as bytes and reading them back is the identity |
| Pcm16.BytesOfSamples | bot.py:1716 | reading bytes and writing them back loses only an odd last byte |
| Pcm16.SampleValue | bot.py:1715-1716 | a sample is the two's complement number of its two bytes, the low one first |
| McpRegistry.ValidationMakesCanonical | mcp_config.py:121-180 | a server that passes validation is in canonical shape |
| McpRegistry.ValidateAgain | mcp_config.py:121-180 | validating a canonical server again only strips its label |
| McpRegistry.IdempotentExactlyWhen | mcp_config.py:121-180 | validation is idempotent if and only if a label was given or the id does not end in a newline |
| McpRegistry.NewlineIdIsAccepted | mcp_config.py:54 | such an id is accepted |
| McpRegistry.OtherFieldsDoNotMatter | mcp_config.py:121-180 | fields other than the seven named ones have no influence |
| McpRegistry.StdioIsRefused | mcp_config.py:134-136 | a server with transport `stdio` is refused whatever else it holds |
| McpRegistry.SigV4Defaults | mcp_config.py:93-104 | service and region have their defaults exactly when they are missing, and empty ones are refused |
| McpRegistry.StripDropsSpaces | mcp_config.py:151 | stripping a label takes away spaces at its ends and nothing else |
| McpRegistry.MaskedCopiesAgreeExactlyWhen | mcp_config.py:111-118 | two servers have the same masked copy if and only if they differ at most in the values of the same headers, so no value goes out |
| McpRegistry.MaskedOnTheWire | mcp_config.py:111-118 | in a masked copy every header reads `***`, and all else is that of the server |
| McpRegistry.HeaderAfterUpsert | mcp_config.py:225-238 | after an upsert a header has its new value, or for the mask the value stored before, and is absent for a mask without one |
| McpRegistry.PlaceAfterPut | mcp_config.py:239-243 | a known id keeps its place in the list and a new one comes last |
| McpRegistry.ReachedRegistries | mcp_config.py:212-258 | in every registry reached by upserts, deletes and reloads, failed writes included, ids are unique, servers canonical and no stored header is the mask |
| McpRegistry.ResendingTheMaskedServer | mcp_config.py:111-247 | sending back the masked copy of a stored server leaves the registry as it was if and only if its label has no space at the ends |
| McpRegistry.UnstrippedLabel | mcp_config.py:151 | such labels are exactly the ids that end in a newline |
| McpRegistry.McpConfig.ResolveHeaders | mcp_config.py:225-238 | the loop keeps new values, restores stored ones for the mask, and drops a mask without a stored value |
| McpRegistry.GetAfterPut | mcp_config.py:204-247 | an upsert is seen under its id and changes no other |
| McpRegistry.GetAfterWithout | mcp_config.py:249-258 | a delete removes its id and changes no other |
| McpRegistry.DeleteUndoesInsert | mcp_config.py:239-258 | deleting what an upsert added gives the old list back |
| McpRegistry.CacheIsTheFile | mcp_config.py:267-294 | while no write fails the cache holds what the file holds |
| McpRegistry.EqualExactlyWhen | mcp_config.py:239-297 | a step lets cache and file part if and only if its write fails and would have changed something |
| McpRegistry.FailedUpsertIsServedUntilReload | mcp_config.py:239-265 | an upsert whose write fails is served until the cache is dropped, and then gone |
| McpRegistry.FailedDeleteIsGoneUntilReload | mcp_config.py:249-265 | a delete whose write fails is in force until the cache is dropped |
| McpRegistry.McpConfig.Upsert | mcp_config.py:212-247 | validation errors change nothing; else the list has the resolved server in its old place or at the end, and the file too if the write succeeds |
| McpRegistry.McpConfig.Delete | mcp_config.py:249-258 | true exactly when the id existed and the write succeeded |
| McpRegistry.McpConfig.Get | mcp_config.py:204-210 | the first server with the id, or none |
| Sanitizer.SanitizeTwice | activity_store.py:134-158 | sanitizing is idempotent, for every allowlist and every detail |
| Sanitizer.SecretExactlyWhen | activity_store.py:111-114 | a field name is secret if and only if one of seven words stands in it, whatever the case; the three forms of api key are covered by `key` |
| Sanitizer.AllowedIsStored | activity_store.py:150-158 | an allowed field without a secret name keeps its value, scrubbed inside |
| Sanitizer.NoObjectIsStored | activity_store.py:143-147 | a detail that is no object leaves an empty object if Python takes it for false, and one mask otherwise |
| Sanitizer.StoredDependsOn | activity_store.py:134-158 | two details are stored alike if and only if they have the same field names and agree, secrets aside, on the allowed fields |
| Sanitizer.StoredSecretsAreMasked | activity_store.py:117-158 | at every depth of nested objects and lists, a value stored under a secret name is the mask |
| Sanitizer.SecretsAreMasked | activity_store.py:117-131 | the same of the scrub on any value |
| Sanitizer.OthersAreKept | activity_store.py:117-131 | along a path without secret names everything stays where it was |
| Sanitizer.ScrubForgetsSecrets | activity_store.py:117-131 | two values scrub alike if and only if they differ at most under secret names |
| Sanitizer.CredentialsAreNeverStored | activity_store.py:81-105 | for every activity type, known or not, passwords, tokens, URLs, headers and auth are stored by name only |

## Left out

- BlockSplitter: the request, the HTTP status check and the decoding of JSON and hex are a function from blocks to messages.
- MiniMaxStream: usage and time-to-first-byte metrics are not part of the output.
- IdleNudge.NudgeAfterTheFarEnd: network delay to the far end and its own buffering are not modelled.
- IdleNudge: the prompt text, the message put into the context and cancellation of the whole pipeline task are not modelled.
- ActivityQuery.Query: one partition is read at one moment; expiry of rows, the paging inside a partition and the degradation to an empty page on errors are left out.
- Calendar.QueryDays: the parsing of `day_from` and `day_to` is left out: each comes as its text and the date that it reads as, and a text that is no date is not modelled.
- EventBroadcaster: relative timestamps are not rounded, and an emit or a persist never fails.
- LatencyObserver.RecordsMeetTheSpecification: the service-reported fields of a record (time to first byte, tokens, characters) and its constant context are left out.
- Observers handle one crossing at a time, as the pipeline's single event loop does; awaits inside a handler are not interleaved with other crossings.
- TimeoutFiller: the random draw and the choice of phrase are one free choice of the run.
- PeakConcurrent.Peak: timestamps are whole seconds.
- Percentiles: ranks and interpolation are exact, where the source computes in floating point.
- Metrics.Aggregate: the rounding of the average and of the transfer rate is left out.
- LatencyReport.Collect: rounding of the figures, the average and the JSONL parsing are left out.
- MetricsCache: the paged scan itself and its cap of 20 pages are left out; a failed scan counts as one with no rows.
- CallEnding: reasons, topics, history events, the length of the grace period and the background summary are left out; tool results and emits do not fail. A put that raises has either taken effect before or never does. A call is attached once and its session ends once.
- Resampler.UpsamplePcm16Linear: positions are exact, as they are for the rates used (8 to 16 kHz, 24 to 8 kHz); the floating-point error of other rates is not modelled. Samples are little-endian.
- McpRegistry: files that were edited by hand, concurrent processes and the lock are left out; copies handed out are values, so aliasing of the cached dictionaries cannot be expressed.
- McpRegistry.McpConfig.Upsert: the URL check is a parameter, and an object's keys are strings as in JSON.
- Sanitizer: case is ignored as Python's regular expressions do for the letters of the pattern.
- The voice store, the voice tables and the resolution of voices, the SIP leg, the FastAPI routes, guest links, tool definitions and prompts are left out: tables, formatting or calls into services.
- Paging of `/api/history` and first-run setup are left out; the source does not promise what their callers might expect of them.
