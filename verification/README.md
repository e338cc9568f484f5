# Verification of the concurrent core of Antfly's libraries

This project models six components of the repository and proves what they are for. Each
component is a state machine or an algorithm whose correctness no single function shows.

| component | source | files |
|---|---|---|
| dedupe queue, workers, call groups | `lib/inflight/dedupequeue.go`, `lib/inflight/types.go` | `DedupeQueue`, `CallGroups`, `InflightSystem`, `InflightTheorems`, `QueueAdmission`, `GroupTheorems`, `GroupCompletion`, `GroupResults` |
| write-ahead-log buffer | `lib/inflight/walbuffer.go` | `ByteStrings`, `WalBuffer`, `WalSystem`, `WalTheorems`, `WalWindows` |
| streaming section parsers | `lib/ai/generation.go`, `lib/ai/genkit.go` | `Strings`, `Utf8`, `Whitespace`, `CodePoints`, `TextSearch`, `Sections`, `SectionParser`, `SectionStreaming`, `SectionBatch`, `BatchReading`, `SectionAgreement`, `SectionCuts`, `SectionCondition`, `SectionShapes`, `SectionVariants`, `SectionValidity`, `SectionExamples`, `ClassificationParser`, `ClassificationStreaming` |
| filter language | `lib/evaluator/filter.go` | `Wildcard`, `FilterTree`, `QueryStrings`, `FilterParser`, `QueryRoundTrip`, `FilterRoundTrip`, `FilterMeaning` |
| mock clock | `lib/clock/clock.go` | `MockClock`, `ClockTheorems`, `TimerTheorems` |
| key encodings | `lib/encoding/encoding.go` | `ByteStrings`, `Encodings`, `FloatEncoding` |

## How the models are built

An object of the source whose methods update its fields is a class with those fields. Every
method of such a class is proved to move the object's abstract value exactly as a transition
function does, and the theorems are about those functions: what each transition keeps, and
what therefore holds in every state of every run.

Concurrency is interleaving. In `InflightSystem` and `WalSystem` a step is what one goroutine
does while it holds a mutex, or a callback that returns; the steps of all goroutines interleave
in any order, and producers may run between any two steps of a consumer. Histories are part of
the state, so that conservation can be stated: what was accepted, delivered and answered, what
finished with which outcome, what was removed and what Merge said of it, what each timer was armed
with and which times the clock has shown.

Go strings are byte strings; they are Dafny strings with one character per byte, and UTF-8 is
modelled on the bytes (section 4 of RFC 3629). Integers are unbounded where the source could
only overflow after 2^63 steps; the 32-bit counts of the log headers and the 32- and 64-bit keys
have their width.

Times are integers (nanoseconds on one time line); a capacity-1 channel is an optional value.

The foreign log (`wal.Log`) is a first index and a sequence of byte strings, with an atomic
batch write and prefix truncation. It behaves as the code that uses it assumes: an empty log
that once had entries has a first index one above its last one.

## Findings

Properties one would expect of the code and that do not hold of it as they stand. Each has the
exact condition under which it holds, and an input on which it fails.

* A response whose Confidence section is empty produces no confidence event when it arrives in
  one chunk, although an empty section in the complete response gives default scores. "Exactly
  one confidence event, however the response is cut" holds of a response in which no cut shows a
  false header exactly when the section's body is not empty (`SectionAgreement.OneConfidenceEventExactly`,
  `SectionAgreement.EmptyConfidenceInOneChunk`).
* "However a response is cut, what is streamed is what the batch parser reports" holds of a
  response with the three headers in order exactly under the conditions below
  (`SectionCondition.AlwaysAgreesExactly`), each with an input that fails it:
  * the Confidence section is not empty (the previous item), the text of the Follow-up header is
    nowhere in it (cut around that text, no event ever comes: `SectionExamples.ConfidenceExample`),
    and what the batch parser takes of it, which ends at a heading of its own, has the same scores
    (`SectionExamples.ScoresExample`);
  * the Generation section has no heading of its own, at which the batch parser would end it
    (`SectionExamples.HeadingExample`);
  * it does not end in a model end token, which the batch parser removes and the streaming parser
    does not, having the Follow-up header behind it (`SectionExamples.EndTokenIsStreamed`);
  * the text of the Follow-up header stands nowhere inside a line of it more than 50 bytes from
    the front and more than 28 bytes from the end, with valid UTF-8 in front: there a cut brings
    it to the front of the buffer, and the rest of the section is lost
    (`SectionExamples.ExposedExample`; elsewhere it does no harm, `SectionExamples.FrontIsSafe`,
    `SectionExamples.EndIsSafe`);
  * the Follow-up section has no heading of its own (`SectionExamples.FollowupHeadingExample`), and
    no line feed behind the first occurrence
    of that text: cut in front of it, the rest of the line is lost
    (`SectionExamples.HeaderTextInsideLine`; in the last line it does no harm,
    `SectionExamples.LastLineIsSafe`).
* A response that ends in its Confidence section streams no scores, however it is cut, where the
  batch parser reports them: the section is accumulated elsewhere, and the end of the stream only
  looks at the buffer (`SectionShapes.EndsInConfidence`, `SectionVariants.BatchScores`). One that
  ends in an unfinished header line has that line as the content of its section
  (`SectionShapes.UnfinishedHeaderLine`).
* The batch parser takes "## Follow-up" for the header of the questions, the streaming parser does
  not: that line and the questions are streamed as the end of the generation
  (`SectionVariants.FollowupAliasIsStreamed`). With follow-up questions switched off the same
  happens to a whole Follow-up section (`SectionVariants.GenerationAlone`).
* Of a classification response all of the reasoning is streamed, or nothing. With the Reasoning
  header behind the Result header it depends on the cut: nothing is streamed exactly if some part
  ends where the Result header has arrived and the Reasoning header has not
  (`ClassificationStreaming.StreamsAllOrNothing`, `ClassificationStreaming.LateReasoningDependsOnCut`).
* While the header line of the Generation section is unfinished all of it is held back: the
  bound of 100 bytes holds exactly while at most 87 bytes without a line feed follow the header
  (`SectionValidity.UnfinishedLineIsHeldBack`, `SectionValidity.HeldBackExample`).
* `stripItemCount` undoes `prependItemCount` exactly on non-empty payloads
  (`WalBuffers.PayloadRoundTripExactly`): an empty payload is merged as its own header.
* A call whose Merge, Execute and truncation all work removes its window exactly if some entry
  of the window is no tombstone; otherwise it removes nothing
  (`WalTheorems.CallMakesProgressExactly`, `WalTheorems.TombstoneExample`). So calls in which
  everything works empty the log exactly if none of its windows holds tombstones alone, and then
  they need as many calls as there are windows (`WalWindows.DrainsExactly`).
* "A window that keeps failing is discarded in the end" holds of a fixed window exactly if its
  entries that are no tombstones share a counter. Otherwise the entries are discarded in different
  calls, each starts counting again, and the window stays for ever
  (`WalWindows.FixedWindowIsRemovedExactly`, `WalWindows.OutOfStepExample`,
  `WalWindows.OutOfStepIsReachable`).
* A discarded entry is removed by the call that discards it exactly if no later Merge of the
  same scan fails, Execute succeeds when it is run, and the truncation works; otherwise it is
  still in the log with its counter cleared (`WalTheorems.DiscardedIsRemovedExactly`). Of an
  entry that is due, "discarded means removed, whatever Merge and Execute do" holds exactly if
  all entries of its window are tombstones or due themselves
  (`WalTheorems.DiscardIsFinalExactly`, `WalTheorems.MergeErrorExample`,
  `WalTheorems.ExecuteErrorExample`).
* A call group keeps its books by ID. "Once the group has completed, every operation added to it
  has finished" holds exactly if its operations have different IDs
  (`GroupCompletion.CompletionCoversAllExactly`, `GroupCompletion.UnfinishedRun`).
* The name of `EncodeFloat32Ascending` promises ascending order. For any two numbers that differ,
  the encoding of the smaller one sorts first exactly when its sign bit is clear
  (`FloatEncoding.FloatOrderExactly`, `FloatEncoding.MinusOneSortsBehindOne`).
* A ticker made with an interval that is not positive makes the next `Advance` loop for ever,
  once it is due; the condition is exact (`ClockTheorems.LoopEndsExactly`,
  `ClockTheorems.ZeroIntervalNeverEnds`).
* A `field:value` term splits where it was joined exactly when the field has no unescaped colon
  and no dangling backslash (`QueryStrings.SplitExactly`, `QueryStrings.StrayColonExample`).
* What the filter parser made of a JSON value, printed and parsed again, is the same tree exactly
  if no printed term starts or ends with white space and " OR " occurs neither in one nor across
  a joint. Backslashes in front of the O let the parser make a value that breaks this
  (`FilterRoundTrip.PrintingNormalises`, `QueryRoundTrip.EscapedOrExample`).

## Model

| member | source | states |
|---|---|---|
| `DedupeQueues.DedupeQueue.Enqueue` | lib/inflight/dedupequeue.go:82-132 | answers closed, saturated width, saturated depth or accepted (with or without a signal) by the branch that applies, and changes the queue only when it accepts |
| `DedupeQueues.DedupeQueue.Dequeue` | lib/inflight/dedupequeue.go:179-197 | takes the set at the front of the list, if there is one and the queue is open, and opens an empty backup set for its ID |
| `DedupeQueues.DedupeQueue.CallbackReturned` | lib/inflight/dedupequeue.go:148-163 | after a callback the backup set, if not empty, goes to the back of the list as the entry of its ID; false if the queue was closed meanwhile |
| `DedupeQueues.DedupeQueue.Close` | lib/inflight/dedupequeue.go:56-64 | the queue is closed and everything queued is dropped |
| `DedupeQueues.DedupeQueue.Len` | lib/inflight/dedupequeue.go:67-74 | the number of IDs in the list, 0 once closed |
| `DedupeQueues.EnqueueKeeps` | lib/inflight/dedupequeue.go:82-132 | an enqueue keeps the list free of duplicates and equal to the keys of `entries`, `entries` and `backup` disjoint, and every set within max(1, width) and for its own ID |
| `DedupeQueues.TakeKeeps` | lib/inflight/dedupequeue.go:179-197 | so does taking a set; the taken ID was not in flight before and is not in the list afterwards |
| `DedupeQueues.CallbackKeeps` | lib/inflight/dedupequeue.go:148-163 | so does the return of a callback, which re-queues without looking at the depth |
| `CallGroups.CallGroup.Add` | lib/inflight/types.go:148-163 | makes an operation of this group and records it as outstanding under its ID |
| `CallGroups.CallGroup.Done` | lib/inflight/types.go:165-174 | runs the completion with the final state if nothing is outstanding and it has not run before |
| `CallGroups.CallGroup.Finish` | lib/inflight/types.go:42-57 | records the response or the error, removes the ID from the outstanding ones and tries to complete |
| `CallGroups.FinishAll` | lib/inflight/types.go:65-69 | finishes the operations of a set one by one, each with its own group, whichever groups the set mixes |
| `InflightSystem.StepKeepsInv` | lib/inflight/dedupequeue.go:56-197 | every step of every goroutine (add, enqueue, lock taken, operation finished, callback returned, close, broadcast) keeps the invariant of the whole system |
| `InflightSystem.RunKeepsInv` | lib/inflight/dedupequeue.go:56-197 | hence every interleaving of any length does |
| `InflightTheorems.EveryRunConserves` | lib/inflight/dedupequeue.go:82-197 | in every reachable open state and for every ID, the operations delivered followed by those held back are exactly the operations accepted, in order: none lost, duplicated or reordered |
| `QueueAdmission.AdmissionExactly` | lib/inflight/dedupequeue.go:82-132 | in every reachable state, told from the list, the callbacks in flight and what was accepted and delivered: closed if and only if the queue is closed; an operation for an ID that is queued or in flight is accepted if and only if fewer than `width` operations are held for it, and refused for width otherwise; one for any other ID is accepted and listed if and only if fewer than `depth` IDs are listed, and refused for depth otherwise; a refusal changes nothing |
| `QueueAdmission.InFlightTakesWidth` | lib/inflight/dedupequeue.go:90-97 | an ID in flight for which nothing is held takes exactly `width` operations, and every one after that is refused for width |
| `QueueAdmission.EmptyListTakesDepth` | lib/inflight/dedupequeue.go:110-131 | an open queue with an empty list takes exactly `depth` operations with new, different IDs, and every one after that is refused for depth |
| `InflightTheorems.EveryRunKeepsStructure` | lib/inflight/dedupequeue.go:90-197 | in every reachable open state the list and the maps agree, at most one callback runs per ID, the panic in `dequeue` cannot happen, and a returning callback finds its backup set |
| `InflightTheorems.EveryRunIsBounded` | lib/inflight/dedupequeue.go:82-196 | list length plus callbacks in flight is at most the depth plus the number of workers; no set exceeds max(1, width) |
| `InflightTheorems.NoLostWakeup` | lib/inflight/dedupequeue.go:99-171 | in no reachable open state with at least one worker is there a set to take while all workers sleep |
| `InflightTheorems.FirstInFirstOut` | lib/inflight/dedupequeue.go:158-196 | over any run without a close the list at its start is a prefix of what is taken followed by the list at its end |
| `InflightTheorems.TakenAfterItsPosition` | lib/inflight/dedupequeue.go:158-196 | an ID at position p is taken by exactly the dequeue number p, counted from 0, whatever is enqueued or re-queued meanwhile |
| `InflightTheorems.ClosedForGood` | lib/inflight/dedupequeue.go:56-64 | after `Close` nothing is taken any more; after its broadcast nobody sleeps; a worker that gets the lock returns false |
| `InflightTheorems.WorkReduces` | lib/inflight/dedupequeue.go:140-171 | every step of a worker reduces a measure of the work left |
| `InflightTheorems.WorkersDrain` | lib/inflight/dedupequeue.go:140-171 | without further enqueues workers stop after boundedly many steps, and when none can go on the queue is drained and everything accepted has been delivered |
| `GroupTheorems.CompletionExactly` | lib/inflight/types.go:122-174 | a group whose Adds precede its first Finish has completed at most once, and has completed if and only if it has operations and all its IDs are finished; the map it got has exactly the added IDs |
| `GroupTheorems.DrainedGroupsCompleted` | lib/inflight/types.go:122-174 | whenever the queue is drained, every such group whose operations were all accepted has completed exactly once, with exactly its own IDs |
| `GroupResults.CompletionHasLastOutcomes` | lib/inflight/types.go:42-57 | in every reachable state, for a completed group: there is a number n of Finishes after which its completion ran, with a map of exactly the IDs finished by then, each with the operation and the outcome of the last of those Finishes with that ID |
| `GroupResults.OwnOutcomes` | lib/inflight/types.go:42-174 | with different IDs the completion has every operation of the group under its ID with its own outcome |
| `GroupResults.DrainedGroupsGotOutcomes` | lib/inflight/types.go:112-174 | whenever the queue is drained, the completion of every such group got exactly its own IDs, each with the operation and outcome of the last Finish with that ID |
| `GroupResults.FinishAllFinishesOwn` | lib/inflight/types.go:65-69 | finishing a set removes from a group's outstanding IDs, and records with the outcome, exactly the operations of the set that the group made |
| `GroupCompletion.CompletionCoversAllExactly` | lib/inflight/types.go:112-174 | over all runs in which the group's Adds precede its first Finish, completion implies that every operation added to the group has finished, if and only if the operations have different IDs |
| `GroupCompletion.CompletedMeansFinished` | lib/inflight/types.go:112-174 | with different IDs, in every reachable state a completed group has only finished operations |
| `GroupCompletion.UnfinishedRun` | lib/inflight/types.go:151-174 | for any list of operations two of which share an ID there is a run in which the group completes with one of the two unfinished |
| `WalBuffers.HeaderRoundTrip` | lib/inflight/walbuffer.go:39-60 | reading a header gives back the 32-bit count, from the entry or from its first four bytes |
| `WalBuffers.PayloadRoundTripExactly` | lib/inflight/walbuffer.go:39-52 | stripping a header gives back the payload if and only if the payload is not empty |
| `WalBuffers.ShortEntry` | lib/inflight/walbuffer.go:39-60 | an entry of less than four bytes is its own payload and counts nothing |
| `WalBuffers.WALBuffer.EnqueueBatch` | lib/inflight/walbuffer.go:248-277 | appends one entry per payload with its count (0 where counts are missing) and adds the counts; a closed buffer or a failed write changes nothing |
| `WalBuffers.WALBuffer.RecoverItemCount` | lib/inflight/walbuffer.go:213-244 | the counter becomes the sum of the header counts of the live entries |
| `WalBuffers.WALBuffer.Len` | lib/inflight/walbuffer.go:122-128 | the counter, or 0 if it is negative |
| `WalBuffers.WALBuffer.EntryCount` | lib/inflight/walbuffer.go:131-152 | the number of live entries for every log, also one emptied or never used; an error once closed |
| `WalBuffers.WALBuffer.Close` | lib/inflight/walbuffer.go:155-163 | closes once, an error the second time |
| `WalBuffers.WALBuffer.ScanItems` | lib/inflight/walbuffer.go:331-374 | the loop over the window computes the scan: tombstones skipped, entries without retries left discarded with their counters cleared, the others merged, stopping at the first merge error |
| `WalBuffers.ScanFates` | lib/inflight/walbuffer.go:337-374 | what the scan does with an entry depends on that entry and its counter alone; exactly the counters of discarded entries go; a complete scan deducts exactly the window's header counts |
| `WalBuffers.ScanStopsExactly` | lib/inflight/walbuffer.go:337-374 | a scan fails if and only if some entry of the window is neither a tombstone nor due for discarding and its Merge fails; it stops in front of the first such entry, whose position is the number of fates; without one it goes through the window |
| `WalBuffers.WALBuffer.StartDequeue` | lib/inflight/walbuffer.go:291-403 | Dequeue up to Execute: early returns, scan, increments of the merged entries' counters, and which of Execute, truncation or nothing comes next |
| `WalBuffers.WALBuffer.FinishExecute` | lib/inflight/walbuffer.go:405-414 | a failed Execute ends the call with the counters as they are, a successful one clears those of the merged entries |
| `WalBuffers.WALBuffer.Truncate` | lib/inflight/walbuffer.go:383-427 | drops the window and deducts its items, unless the log is closed or fails |
| `WalSystem.StepKeepsInv` | lib/inflight/walbuffer.go:213-430 | every step of the consumer, of a producer, a close or a reopening keeps the invariant of log, counter, removals and retry counters |
| `WalSystem.RunKeepsInv` | lib/inflight/walbuffer.go:213-430 | hence every run with one consumer does |
| `WalTheorems.RemovalsAreAccountedFor` | lib/inflight/walbuffer.go:248-430 | in every reachable state the live log is the enqueue history minus a prefix; every removed entry was a one-byte zero tombstone, discarded with its retries used up, or merged with its own Merge succeeding, in a call whose Execute succeeded; the merged payloads are in enqueue order and byte for byte the enqueued ones where those are not empty |
| `WalTheorems.TruncationIsInRange` | lib/inflight/walbuffer.go:383-427 | in every reachable state the point a call is about to truncate at is within the log, whatever producers wrote since the window was read |
| `WalTheorems.CountSurvivesReopening` | lib/inflight/walbuffer.go:213-275 | in every reachable state the counter is the sum of the header counts, and of the enqueued counts, of the live entries, so closing and reopening gives the same log and count, in an open buffer without retry counters |
| `WalTheorems.RetriesAreCounted` | lib/inflight/walbuffer.go:337-461 | between calls a counter belongs to a live entry and is the number of failed Executes since it was cleared; with a limit R > 0 it is at most R and an entry is due for discarding exactly at R; with R = 0 never |
| `WalTheorems.FailingCallCounts` | lib/inflight/walbuffer.go:337-409 | a failing call on a window below the limit raises the shared counter by one and removes nothing |
| `WalTheorems.FailingCallDiscards` | lib/inflight/walbuffer.go:349-395 | at the limit a call discards the whole window and truncates it away |
| `WalTheorems.FailingWindowIsRemoved` | lib/inflight/walbuffer.go:337-461 | a fixed window whose non-tombstone entries share count a is still there after R - a failing calls and gone after one more |
| `WalWindows.FixedWindowIsRemovedExactly` | lib/inflight/walbuffer.go:337-461 | a fixed window whose counters are within the limit is ever removed by failing calls if and only if its non-tombstone entries share a counter; otherwise it stays, however many calls follow |
| `WalWindows.ReachableIsCounted` | lib/inflight/walbuffer.go:337-461 | in every reachable state between calls the counters of the window are within the limit |
| `WalWindows.CounterGoesRound` | lib/inflight/walbuffer.go:349-409 | a failing call that merges something takes every counter of its window one further, and from the limit back to 0 |
| `WalWindows.OutOfStepExample` | lib/inflight/walbuffer.go:349-409 | two entries with counters 1 and 0 and a limit of 1: two failing calls lead back to the same buffer |
| `WalWindows.OutOfStepIsReachable` | lib/inflight/walbuffer.go:248-409 | a run with one failed call between two enqueues leads to that buffer |
| `WalTheorems.TombstonesStay` | lib/inflight/walbuffer.go:344-347 | a call on a window of tombstones changes nothing, whatever Merge would do; the other direction is the next row |
| `WalTheorems.CallMakesProgressExactly` | lib/inflight/walbuffer.go:291-430 | with Merge, Execute and truncation working and a window of at least one entry, a call removes the whole window if and only if some entry of it is no tombstone, and otherwise removes nothing |
| `WalWindows.DrainsExactly` | lib/inflight/walbuffer.go:291-430 | while everything works and nothing is added, n calls empty the log if and only if none of its windows holds tombstones alone and n is at least their number |
| `WalWindows.WindowCount` | lib/inflight/walbuffer.go:291-331 | the number of windows is the length of the log divided by the batch size, rounded up |
| `WalTheorems.TombstoneExample` | lib/inflight/walbuffer.go:344-347 | a log of one tombstone: a call in which everything works leaves the buffer as it is |
| `WalTheorems.CallRemovesWindow` | lib/inflight/walbuffer.go:383-427 | a call removes its whole window or nothing; it removes it if and only if the scan is complete, Execute succeeds where something was merged, something was discarded where nothing was, and the truncation works |
| `WalTheorems.DiscardedIsRemovedExactly` | lib/inflight/walbuffer.go:350-409 | an entry discarded by a call is removed by it if and only if no later Merge fails, Execute succeeds when it is run, and the truncation works; otherwise the log is unchanged but for what producers added, and the entry's counter is cleared |
| `WalTheorems.DiscardIsFinalExactly` | lib/inflight/walbuffer.go:337-409 | of an entry due for discarding: whatever Merge and Execute do, the call that discards it removes it, if and only if every entry of the window is a tombstone or due as well |
| `WalTheorems.MergeErrorExample` | lib/inflight/walbuffer.go:350-369 | two entries, the first at its limit, the Merge of the second fails: the first is discarded and both are still in the log with no counter |
| `WalTheorems.ExecuteErrorExample` | lib/inflight/walbuffer.go:350-409 | the same two entries, Execute fails: the first is discarded and both are still in the log |
| `WalTheorems.FailedExecuteKeepsDiscarded` | lib/inflight/walbuffer.go:350-409 | the step of a failed Execute alone: a discarded entry of its window stays in the log, with its counter cleared |
| `Utf8.SplitValidUTF8` | lib/ai/genkit.go:73-102 | the longest well-formed prefix and the exact rest |
| `Utf8.SplitPointIsRight` | lib/ai/genkit.go:83-98 | no longer prefix is well-formed |
| `Utf8.CutLeavesAtMostThree` | lib/ai/genkit.go:83-98 | of valid text cut anywhere at most three bytes are left behind |
| `CodePoints.ValidExactly` | lib/ai/genkit.go:73-102 | a byte string is valid if and only if it is the encodings of Unicode scalar values, one after the other (section 3 of RFC 3629) |
| `CodePoints.TrimSpaceExactly` | lib/ai/generation.go:1196-1204 | trimming takes exactly the characters with the Unicode White_Space property off both ends of a valid text |
| `CodePoints.SpaceExactly` | lib/ai/generation.go:1197 | a byte string is one white-space character if and only if it encodes a character with the White_Space property |
| `TextSearch.FindMarkdownHeader` | lib/ai/generation.go:976-995 | the first occurrence of the header at the start of a line or of the text, or -1 |
| `TextSearch.FindNextNewline` | lib/ai/generation.go:998-1005 | the first line feed, or -1 |
| `Sections.JoinUndoesSplit` | lib/ai/generation.go:1152-1192 | joining the lines of a text gives back the text |
| `Sections.SplitIntoSections` | lib/ai/generation.go:1106-1149 | the loop over the lines computes the map of sections, a later section of the same name replacing an earlier one |
| `Sections.ParseConfidenceMarkdown` | lib/ai/generation.go:1048-1085 | the loop over the lines computes the two scores, the last valid line of each kind deciding |
| `Sections.ConfidenceIgnoresTrim` | lib/ai/generation.go:1048-1085 | white space around the text does not change the scores |
| `BatchReading.SectionIsLastNamed` | lib/ai/generation.go:1106-1149 | of any text, a section is what stands between the last header line that names it and the next header line of any name, or the end |
| `BatchReading.SectionIsNamed` | lib/ai/generation.go:1106-1149 | a section that no header line names is not found |
| `BatchReading.TitlesOpen` | lib/ai/generation.go:1120-1133 | the titles that both parsers know |
| `BatchReading.OtherTitlesOpen` | lib/ai/generation.go:1120-1133 | the titles that only the batch parser knows, "Follow-up" among them |
| `BatchReading.SpacedTitle` | lib/ai/generation.go:1119 | white space around a title does not count |
| `BatchReading.ScoreIsLastGiven` | lib/ai/generation.go:1048-1085 | of any text, the last line that has the prefix and a number from 0 to 1 behind it decides the score |
| `BatchReading.DefaultScores` | lib/ai/generation.go:1048-1085 | without such a line the score is one half |
| `Sections.StripChangesOnlyTokens` | lib/ai/generation.go:1196-1204 | modulo white space the text changes exactly if it ends in an end token |
| `SectionParser.StreamWithLookahead` | lib/ai/generation.go:599-614 | nothing is lost between what is streamed and what is kept; what is streamed is valid UTF-8; at least the lookahead is kept |
| `SectionParser.StepProgress` | lib/ai/generation.go:670-845 | a turn that goes round again enters a later section or shortens the buffer, so the loop ends |
| `SectionParser.MarkdownSectionParser.Parse` | lib/ai/generation.go:656-848 | one chunk moves the parser through turns until one waits for more text |
| `SectionParser.MarkdownSectionParser.TakeTurn` | lib/ai/generation.go:670-845 | one turn of the loop: pending header, then the Confidence, Generation and Follow-up headers in this order, then accumulation |
| `SectionParser.MarkdownSectionParser.DetectGeneration` | lib/ai/generation.go:746-763 | finds the Generation header across the accumulated confidence text and the buffer |
| `SectionParser.MarkdownSectionParser.LeaveHeader` | lib/ai/generation.go:565-571 | skips the header line, or notes that it is incomplete |
| `SectionParser.MarkdownSectionParser.FlushConfidenceBuffer` | lib/ai/generation.go:853-868 | emits the confidence scores once, if there is text |
| `SectionParser.MarkdownSectionParser.TransitionToAnswer` | lib/ai/generation.go:885-906 | flushes the confidence section and enters Generation |
| `SectionParser.MarkdownSectionParser.TransitionToFollowup` | lib/ai/generation.go:910-923 | emits what is left of the generation, trimmed, and enters Follow-up |
| `SectionParser.MarkdownSectionParser.AccumulateContent` | lib/ai/generation.go:811-841 | streams the generation with lookahead and accumulates the other sections |
| `SectionParser.MarkdownSectionParser.Finish` | lib/ai/generation.go:926-973 | emits what is left at the end of the stream |
| `SectionStreaming.StepKeeps` | lib/ai/generation.go:670-845 | each turn keeps the relation between the part seen so far of a response in which no cut shows a false header and the parser's section, buffers and events |
| `SectionStreaming.ChunksKeep` | lib/ai/generation.go:656-848 | so does every sequence of chunks, wherever the response is cut |
| `SectionBatch.BatchSections` | lib/ai/generation.go:1106-1149 | of every response with the three headers in order and no header line in its generation and follow-up, the batch parser recovers these two bodies, and the confidence body if that has none either |
| `SectionBatch.SectionsHaveNoHeaderLine` | lib/ai/generation.go:1106-1149 | of any text at all, no section the batch parser finds has a header line in it |
| `SectionBatch.HeaderLineLosesText` | lib/ai/generation.go:1008-1149 | of a generation body with a header line, whatever the heading, the batch parser loses text |
| `SectionAgreement.StreamingYieldsBodies` | lib/ai/generation.go:656-973 | for every response in which no cut shows a false header, and every way of cutting it: the follow-up text is the follow-up body, one confidence event has the scores of the confidence body if that is not empty, the generation events make up the generation body modulo white space and are valid UTF-8 if it is |
| `SectionAgreement.StreamingAgreesWithBatch` | lib/ai/generation.go:656-1204 | if generation and follow-up have no header line either: the same follow-up text as the batch parser's; the batch scores if and only if those of the confidence body are those of the part the batch parser takes; the batch generation modulo white space if and only if the body does not end in an end token |
| `SectionCondition.AlwaysAgreesExactly` | lib/ai/generation.go:656-1204 | of every response with the three headers in order, whatever its bodies: for every way of cutting it the streaming parser agrees with the batch parser on follow-up text, scores and generation, if and only if the bodies meet the conditions listed under Findings |
| `SectionCuts.FaithfulCutStreamsBodies` | lib/ai/generation.go:656-973 | of every such response whose confidence section does not hold the Follow-up header's text there is a cut that streams the three bodies |
| `SectionCuts.ConfidenceIsLost` | lib/ai/generation.go:783-801 | the Follow-up header's text anywhere in the confidence section: cut around it, no event ever comes |
| `SectionCuts.GenerationIsLost` | lib/ai/generation.go:599-614 | the text exposed in the generation: a cut after which exactly what precedes it is streamed |
| `SectionCuts.FollowupIsLost` | lib/ai/generation.go:783-801 | the text in a complete line of the follow-up: cut in front of it, exactly the rest of the line is lost |
| `SectionShapes.HeaderlessIsGeneration` | lib/ai/generation.go:964-969 | for every setting, a response with no header that the parser looks for is the generation: one event with all of it, trimmed and without an end token, however it is cut |
| `SectionShapes.EntersSection` | lib/ai/generation.go:670-801 | for every setting, text in front of the first header, and the rest of its line, are dropped: however the response is cut, the parser goes on behind the header line with some cutting of the rest |
| `SectionShapes.UnfinishedHeaderLine` | lib/ai/generation.go:926-973 | a response that ends in its first header line has that line as the content of the section |
| `SectionShapes.EndsInConfidence` | lib/ai/generation.go:811-814 | a response that ends in its Confidence section: no event, however it is cut |
| `SectionVariants.BatchScores` | lib/ai/generation.go:1008-1018 | of the same response the batch parser reports the scores |
| `SectionVariants.GenerationAlone` | lib/ai/generation.go:656-973 | with no Confidence section in the response and the Follow-up section switched off or not in it: everything behind the header line is streamed, a part of it as it is and the last 50 bytes or more trimmed and without an end token, and nothing else is emitted |
| `SectionVariants.ConfidenceAndGeneration` | lib/ai/generation.go:656-973 | with a Confidence section: its scores, once, and then the same |
| `SectionVariants.ShortGenerationIsSame` | lib/ai/generation.go:1008-1036 | for a generation of at most 100 bytes without a header line that is exactly the batch parser's text |
| `SectionVariants.PreambleIsDropped` | lib/ai/generation.go:656-973 | a response that yields its three bodies, however it is cut, does so with text in front of its first header |
| `SectionVariants.GenerationAndFollowup` | lib/ai/generation.go:656-973 | a response that starts with its Generation section, looked for scores or not, yields its two bodies and no scores, however it is cut |
| `SectionVariants.EveryStreamIsOrderly` | lib/ai/generation.go:656-973 | of every stream with every setting: the accumulated generation is the text streamed; at most one confidence event, in front of all others; none with scores switched off, and no follow-up text with questions switched off; no complete header line is left for the end of the stream |
| `SectionVariants.FollowupAliasIsStreamed` | lib/ai/generation.go:1106-1133 | "## Follow-up": the batch parser reports the questions, the streaming parser streams that line and the questions as generation |
| `SectionAgreement.HeldBackIsBounded` | lib/ai/generation.go:826-836 | for responses with the three headers in order in which no cut shows a false header, and whose header lines end behind the header, the bound of 100 bytes holds in the generation section even while the header line is unfinished and whatever surrounds the generation body; `SectionValidity.EventsAreValid` has every other stream |
| `SectionAgreement.EmptyConfidenceInOneChunk` | lib/ai/generation.go:853-868 | an empty confidence section that arrives in one chunk emits nothing |
| `SectionAgreement.OneConfidenceEventExactly` | lib/ai/generation.go:853-868 | of a response in which no cut shows a false header: one confidence event for every way of cutting it, if and only if the confidence body is not empty |
| `SectionValidity.EventsAreValid` | lib/ai/generation.go:599-848 | for every stream of valid UTF-8, seen in part, cut anywhere, with any sections and flags: all generation events so far are valid UTF-8, and in the generation section at most 100 bytes are held back, unless the header line is unfinished, and then the buffer is that line without a line feed |
| `SectionValidity.AllEventsAreValid` | lib/ai/generation.go:656-973 | at the end of every stream of valid UTF-8, cut anywhere, all generation events are valid UTF-8 |
| `SectionValidity.StepIsSound` | lib/ai/generation.go:670-845 | every turn of the loop keeps the undecided text at a character boundary of what was seen |
| `SectionValidity.UnfinishedLineIsHeldBack` | lib/ai/generation.go:673-687 | a Generation header line without a line feed, however it is cut, is held back whole, so the bound holds if and only if at most 87 bytes follow the header |
| `SectionValidity.HeldBackExample` | lib/ai/generation.go:673-687 | two hundred bytes behind the header: 213 bytes are held back |
| `SectionExamples.EndTokenIsStreamed` | lib/ai/generation.go:910-923 | a Generation body that ends in an end token: for every cutting the streamed text differs from the batch text |
| `SectionExamples.HeaderTextInsideLine` | lib/ai/generation.go:783-801 | a complete follow-up line with the header's text inside, cut in front of that text: the batch parser keeps the line, the streaming parser drops its end |
| `SectionExamples.LastLineIsSafe` | lib/ai/generation.go:926-962 | a last follow-up line that ends in the header's text, without a line feed: agreement for every cutting |
| `SectionExamples.ConfidenceExample` | lib/ai/generation.go:783-801 | a confidence line with the header's text inside: some cut gives no event |
| `SectionExamples.ExposedExample` | lib/ai/generation.go:599-614 | the header's text 60 bytes into the generation and 32 bytes from its end: some cut streams the 60 bytes alone |
| `SectionExamples.FrontIsSafe` | lib/ai/generation.go:599-614 | the text 4 bytes into the generation: agreement for every cutting |
| `SectionExamples.EndIsSafe` | lib/ai/generation.go:599-614 | the text 27 bytes from the end of the generation: agreement for every cutting |
| `SectionExamples.HeadingExample` | lib/ai/generation.go:1106-1149 | a heading of its own in the generation: for every cutting the stream has all of the text, the batch parser only what precedes the heading |
| `SectionExamples.FollowupHeadingExample` | lib/ai/generation.go:1106-1149 | a heading of its own in the follow-up section: some cut disagrees |
| `SectionExamples.ScoresExample` | lib/ai/generation.go:1106-1149 | a score behind a heading in the confidence section: the scores of the body are not those of what the batch parser takes |
| `ClassificationParser.ClassificationStreamingParser.ParseChunk` | lib/ai/generation.go:1223-1294 | the parts of a chunk move the parser through detection and streaming of the reasoning |
| `ClassificationParser.ClassificationStreamingParser.Finish` | lib/ai/generation.go:1297-1325 | emits what is left of the reasoning |
| `ClassificationStreaming.StreamsEachByteOnce` | lib/ai/generation.go:1223-1294 | for every cutting, as long as the reasoning goes on the events concatenate to exactly its first `streamedReasoningLen` bytes: none twice, none beyond |
| `ClassificationStreaming.StreamsAllReasoning` | lib/ai/generation.go:1223-1325 | for a response with the Reasoning header first, at the end the events make up the reasoning modulo white space, valid UTF-8 if it is |
| `ClassificationStreaming.StreamsAllOrNothing` | lib/ai/generation.go:1223-1325 | for every response and every cutting: all of the reasoning modulo white space if there is a Reasoning header and no part ends where the Result header has arrived and that one has not; no event otherwise |
| `ClassificationStreaming.LateReasoningDependsOnCut` | lib/ai/generation.go:1235-1243 | with the Result header first: in one part the reasoning is streamed, in two parts cut between the headers it is not |
| `Wildcard.MatchWildcard` | lib/evaluator/filter.go:480-507 | the two-row table, cleared and swapped, returns true if and only if the string can be cut into one part for each pattern character, any string for `*`, one byte for `?`, the character itself otherwise |
| `Wildcard.StarStep` | lib/evaluator/filter.go:491-495 | a final `*` matches nothing more, or the last byte and whatever it matched before |
| `Wildcard.CharStep` | lib/evaluator/filter.go:496-502 | any other final character matches exactly the last byte |
| `FilterTree.Evaluate` | lib/evaluator/filter.go:93-290 | for every tree, document and value comparison: no error, and the truth of the formula "all conjuncts, some disjunct if there are any, not must_not" with the leaves' meanings |
| `FilterTree.EvaluateBool` | lib/evaluator/filter.go:222-261 | early exits compute the formula |
| `FilterTree.EvaluateRange` | lib/evaluator/filter.go:179-212 | the value is above the lower and below the upper bound, inclusive where the flag says so; a missing bound does not restrict |
| `FilterTree.EvaluateQueryString` | lib/evaluator/filter.go:274-290 | some term equals the document's value for its field, or there are no terms |
| `QueryStrings.SplitFieldValue` | lib/evaluator/filter.go:510-521 | the scan finds the split at the first unescaped colon |
| `QueryStrings.SplitIsAtColon` | lib/evaluator/filter.go:510-521 | field, colon and value make up the string, and the field has no unescaped colon |
| `QueryStrings.NoSplitNoField` | lib/evaluator/filter.go:510-521 | without a split every colon of the string is escaped |
| `QueryStrings.SplitExactly` | lib/evaluator/filter.go:510-521 | a joined field and value split where they were joined if and only if the field has no unescaped colon and no dangling backslash |
| `QueryStrings.StrayColonExample` | lib/evaluator/filter.go:510-521 | the field `a:b` does not come back: the split is behind `a` |
| `QueryStrings.UnescapeQueryString` | lib/evaluator/filter.go:524-536 | the loop drops each escaping backslash and keeps a final one |
| `QueryStrings.UnescapeUndoesEscape` | lib/evaluator/filter.go:523-536 | whichever characters a writer escapes, unescaping undoes it on all strings if and only if the backslash is among them |
| `QueryStrings.SplitUndoesJoin` | lib/evaluator/filter.go:453 | pieces joined by " OR " come back if and only if " OR " occurs in none of them nor across a joint |
| `FilterParser.ParseFilter` | lib/evaluator/filter.go:33-44 | no filter matches all documents; a value that is no object is an error; null is an unsupported filter |
| `FilterParser.ParseRaw` | lib/evaluator/filter.go:46-86 | the first key present, in the source's order, decides the kind of node |
| `FilterParser.ParseBool` | lib/evaluator/filter.go:397-441 | children of both lists in order, then must_not, stopping at the first error; null lists are empty |
| `FilterParser.ParseItems` | lib/evaluator/filter.go:405-411 | the children of a list in order, or the first error |
| `FilterParser.ParseQueryString` | lib/evaluator/filter.go:443-473 | the terms of a query string, blank pieces skipped, an error for the first piece without a colon |
| `FilterMeaning.ParsingKeepsMeaning` | lib/evaluator/filter.go:33-473 | of every JSON value, read key by key without the parser: it parses if and only if it is acceptable, and the tree then holds of a document if and only if the value means so: bounds are included unless their flag is false, missing bounds and missing or null lists do not restrict, null strings are empty, blank pieces of a query say nothing |
| `FilterMeaning.ErrorsAreFaults` | lib/evaluator/filter.go:46-473 | every parse error names a fault the value has: no known key, no field, a value of the wrong kind, a piece without a colon |
| `FilterMeaning.BoundIsIncluded` | lib/evaluator/filter.go:360-364 | a lower bound without a flag matches a document on the bound |
| `QueryRoundTrip.TermsReadBack` | lib/evaluator/filter.go:453-466 | printed terms, joined, split, trimmed and read, are the terms if and only if every field has no unescaped colon and no dangling backslash, every printed term is its own trim, and " OR " occurs in none of them nor across a joint |
| `QueryRoundTrip.QueryReadsBack` | lib/evaluator/filter.go:443-473 | a printed query string parses to its node if and only if there are terms and they meet these conditions |
| `QueryRoundTrip.PartUnescapesShort` | lib/evaluator/filter.go:524-536 | a proper part of an escaped value that does not stop in front of a backslash unescapes to something else |
| `QueryRoundTrip.InnerBlankExample` | lib/evaluator/filter.go:443-473 | a value with a blank inside reads back |
| `QueryRoundTrip.EscapedOrExample` | lib/evaluator/filter.go:443-473 | the parser makes the value `x OR y` from a query with a backslash in front of the O; printed with only backslashes escaped it does not read back |
| `FilterRoundTrip.ParseUndoesPrint` | lib/evaluator/filter.go:46-473 | on trees of any depth and for every choice of characters to escape besides the backslash, parsing undoes printing if and only if every query string in the tree meets these conditions |
| `FilterRoundTrip.SpacelessTreeIsSeparable` | lib/evaluator/filter.go:443-473 | terms without white space meet the conditions on the printed terms |
| `FilterRoundTrip.ParsedIsPlain` | lib/evaluator/filter.go:46-473 | every tree the parser makes of any JSON value has query strings with at least one term and fields without unescaped colons |
| `FilterRoundTrip.PrintingNormalises` | lib/evaluator/filter.go:46-473 | what the parser made of a JSON value, printed and parsed again, is the same tree if and only if its printed query terms are their own trims and " OR " occurs in none of them nor across a joint |
| `FilterRoundTrip.FirstKeyDecides` | lib/evaluator/filter.go:46-86 | the first of the twelve keys present, in the source's order, decides the kind of node; with none of them the filter is unsupported |
| `MockClocks.MockClock.FireDue` | lib/clock/clock.go:155-180 | in whatever order timers and tickers are visited, the clock ends in the one state in which everything due has fired |
| `MockClocks.MockClock.Advance` | lib/clock/clock.go:141-146 | moves the clock and fires everything due |
| `MockClocks.MockClock.Set` | lib/clock/clock.go:148-153 | likewise for an absolute time, forwards or backwards |
| `MockClocks.MockClock.NewTimer` | lib/clock/clock.go:108-120 | adds an active timer; it does not fire before the clock is touched, even if due |
| `MockClocks.MockClock.NewTicker` | lib/clock/clock.go:122-135 | adds an active ticker whose first tick is one interval from now |
| `MockClocks.MockTimer.Reset` | lib/clock/clock.go:201-209 | arms the timer again and fires everything due on the whole clock |
| `MockClocks.MockTimer.Stop` | lib/clock/clock.go:193-199 | deactivates the timer and tells whether it was active |
| `MockClocks.MockTicker.CatchUp` | lib/clock/clock.go:171-178 | the inner loop computes the caught-up ticker |
| `TimerTheorems.TimerAfterRun` | lib/clock/clock.go:141-169 | over every run that does not stop, reset or receive from a timer: active and with its deadline reached, it is no longer active and its channel holds the deadline, or the older value it was full with; otherwise nothing about it changes |
| `TimerTheorems.TimerTouched` | lib/clock/clock.go:193-209 | reset counts from now and fires at once if the new deadline is not after now; stopping and receiving change the activity and the channel alone |
| `TimerTheorems.MadeWaiting` | lib/clock/clock.go:108-135 | a new timer or ticker is active, with an empty channel, its full duration ahead |
| `TimerTheorems.ClockShows` | lib/clock/clock.go:141-153 | the clock shows where it was last set plus all advances since |
| `TimerTheorems.ChannelsHoldPassedDeadlines` | lib/clock/clock.go:108-227 | in every run from a new clock, what a timer's channel holds is a deadline it was armed with, at or before a time the clock has shown; its deadline is the last one it was armed with |
| `TimerTheorems.TickerAfterRun` | lib/clock/clock.go:155-180 | over every run that does not stop or receive from a ticker with a positive interval: it misses every tick that the run reaches while it is active, and no other, and its channel keeps the first of them unless it was full |
| `TimerTheorems.TickerTouched` | lib/clock/clock.go:219-227 | stopping and receiving change the activity and the channel of a ticker alone |
| `ClockTheorems.CatchUpInOneStep` | lib/clock/clock.go:171-178 | a ticker that missed n ticks keeps the earliest of them, unless its channel was full, and its next tick is n intervals on, the first after now |
| `ClockTheorems.LoopEndsExactly` | lib/clock/clock.go:171-178 | the catch-up loop ends if and only if the ticker is not due or its interval is positive |
| `ClockTheorems.ZeroIntervalNeverEnds` | lib/clock/clock.go:171-178 | a ticker made with interval 0 is due at the next advance, even by nothing, and no number of rounds changes that |
| `ClockTheorems.AdvanceAdds` | lib/clock/clock.go:141-180 | Advance(a) then Advance(b), b not negative, gives the same time, timers, tickers and channel contents as Advance(a + b) |
| `ClockTheorems.NothingDueAfterFiring` | lib/clock/clock.go:155-180 | afterwards no active timer or ticker is due |
| `ClockTheorems.TickersKeepToTheirGrid` | lib/clock/clock.go:108-227 | every run keeps: next tick and channel content are creation time plus a positive whole number of intervals, the content before the next tick, and the next tick of an active ticker after now |
| `ClockTheorems.EveryRun` | lib/clock/clock.go:90-227 | the same from a new clock, and nothing is due after a step that fires |
| `Encodings.ByteOrderIsNumeric` | lib/encoding/encoding.go:27-29 | on byte strings of one length the byte order is the order of the big-endian numbers, both ways |
| `Encodings.EncodingsKeepOrder` | lib/encoding/encoding.go:27-82 | ascending encodings of one width sort as the numbers, descending ones the other way round |
| `Encodings.DecodeAscendingExactly` | lib/encoding/encoding.go:46-93 | decoding yields value and untouched remainder if and only if the input is the encoding followed by the remainder; it fails exactly on too few bytes |
| `Encodings.DecodeDescendingExactly` | lib/encoding/encoding.go:56-100 | the same for descending encodings; on too few bytes the value is all ones |
| `Encodings.KeysCompareAsTuples` | lib/encoding/encoding.go:27-82 | keys made of columns of any widths and directions sort as the tuples they stand for |
| `Encodings.DecodeKeyUndoesEncode` | lib/encoding/encoding.go:27-100 | decoding a composite key column by column gives back the values and the untouched remainder |
| `FloatEncoding.FloatRoundTrip` | lib/encoding/encoding.go:39-69 | decoding gives back the bits and the remainder if and only if the input is their encoding; on too few bytes the input comes back |
| `FloatEncoding.FloatOrderExactly` | lib/encoding/encoding.go:37-41 | for two numbers that differ (infinities included, NaN not) the smaller one sorts first if and only if its sign bit is clear (section 3.4 of IEEE 754-2019) |
| `FloatEncoding.MinusOneSortsBehindOne` | lib/encoding/encoding.go:37-41 | the encodings of -1 and 1 sort the wrong way round |
| `FloatEncoding.NonNegativeFloatsKeepOrder` | lib/encoding/encoding.go:37-41 | among numbers without a sign the byte order is the numeric order, both ways |

## Left out

- InflightSystem.StepKeepsInv: does not model spurious wakeups or a callback that panics; a callback finishes every operation of its set before it returns, as `FinishAll` does; a worker loops on `Dequeue` as long as it returns true, as its callers do.
- CallGroups.CallGroup.Done: passes the completion a snapshot of the final state; the source passes the map itself, which a late Finish would still change.
- WalSystem.StepKeepsInv: has one consumer; two consumers that call Dequeue at once would truncate each other's windows, which the source does not prevent.
- WalBuffers.WALBuffer.EnqueueBatch: takes the outcome of the write as a parameter; partial writes, durability and `Sync` belong to the foreign log.
- WalBuffers.WALBuffer.StartDequeue: takes the outcome of each Merge as a function of the position; read errors of the log end the call as a closed buffer does and are not separate cases.
- SectionParser.MarkdownSectionParser.Parse: models callbacks as a log of events that never fails and is always there; an error of a callback, which ends the chunk, and a missing callback are not modelled.
- SectionParser.MarkdownSectionParser.TakeTurn: leaves out the Reasoning section, which is switched off wherever the parser is made.
- SectionParser.MarkdownSectionParser.FlushConfidenceBuffer: a missing callback, with which the source leaves the section unflushed, is not modelled.
- SectionParser.MarkdownSectionParser.TransitionToAnswer: leaves out the flush of a Reasoning section.
- SectionParser.MarkdownSectionParser.TransitionToFollowup: a missing or failing callback is not modelled.
- SectionParser.MarkdownSectionParser.AccumulateContent: leaves out the Reasoning section and failing callbacks.
- SectionParser.MarkdownSectionParser.Finish: leaves out the Reasoning section and a missing callback.
- ClassificationParser.ClassificationStreamingParser.ParseChunk: an error of a callback, which ends the chunk, is not modelled.
- SectionAgreement.StreamingAgreesWithBatch: is about responses in which no cut shows a false header; `SectionCondition.AlwaysAgreesExactly` says of all others that some cut disagrees.
- SectionCondition.AlwaysAgreesExactly: is about responses with the lines of the three headers in order, each body ending in front of the first line its next header starts, and both flags on; the follow-up text is compared as it is, before its lines are cleaned up.
- Sections.ParseConfidenceMarkdown: takes the scanning of a number as a parameter, the same for both parsers.
- FilterTree.Evaluate: takes value equality and order as parameters, so their numeric coercions are not modelled; the source's equality panics on two arrays or two objects.
- FilterParser.ParseFilter: starts from a decoded JSON value; JSON text, duplicate keys and number formats are left to the decoder.
- MockClocks.MockClock.Advance: asks that every active ticker that is due has a positive interval, because the source's loop does not end otherwise.
- MockClocks.MockClock.NewTimer: the mutex of the clock is not modelled; every method is one critical section.
- Encodings.EncodingsKeepOrder: encodes widths other than the 4 and 8 bytes of the source as well.
- FloatEncoding.FloatOrderExactly: NaN, and the two zeros, which compare equal but encode differently, are outside the statement.
- `WindowQueue`, metrics, logging, the discard handler and batch pooling: no further state that the properties depend on.
- Follow-up question parsing and the field parsing of classification results: line-by-line clean-up without a property of its own.
- `RealClock`: delegates to the standard library.
- Prompting, model calls and HTTP: plumbing over libraries that are not part of this model.
- Overflow of 64-bit counters and times: out of reach in practice; integers are unbounded.
