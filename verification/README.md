# Verified model of the data platform

This project models the parts of the repository whose correctness rests on several pieces working
together, and proves what they promise:

* **Bronze Consumer.** A round-robin loop polls one topic per entity into a bounded buffer and hands full
  or old buffers to worker threads, which append to an append-only table and then commit offsets.
  `BronzeProtocol` is the life of one entity as a labelled transition system: loop steps, worker steps
  (write, commit, recover, clear, each with its failures) and environment steps (new messages, a position
  rewound to the committed offset, an abandoned commit that lands late, a crash). `KafkaProvider` and
  `BronzeConsumer` are the source's own classes and loops; each of their calls is proved to be a step or a
  run of that system. `BronzeSafety`, `BronzeDrain` and `Silver` prove what follows for every run.
* **Pipeline executors.** `StageRun`, `Executors` and `GroupRun` hold the retry loop, the flat and the
  grouped executor, and a group of tasks interleaved at every await. `PipelineOutcome` says what an execution
  comes to, stage by stage; `ExecutorEquivalence` relates the two executors on every pipeline; `Tracing` shows
  what the tracing hook records for any run.
* **Marketplace simulator.** `Orders` and `OrderLife` follow the order status progression over all ticks;
  `BatchWriter` and `Marketplace` model immediate and buffered writes side by side; `StockLedger` says what
  the stock rows must be, in memory and in the tables of every commit.
* **Small cores.** `Silver` (trim, exact and keyed de-duplication), `DeltaLog` (schema read by a backward
  scan of the commit files) and `StorageLocation` (validation, key normalisation, URI round trip).

How to read it: a function named like a result (`RunStage`, `Sequential`, `Parallel`, `Scan`, `Kept`, ...)
is the specification; the method beside it has the source's loops and is proved to compute it; the lemmas
say what the specification means. Random choices, clocks, generated ids, broker and database answers are
parameters or arbitrary choices, so every statement is about all of them.

Where the code and its comments disagree, the model follows the code:

* `_flush` is said never to raise (bronze_consumer.py:436-443), but it reads the consumer lag after its
  `try` block (639-646). A failure there leaves the buffer uncleared and is raised again by the loop:
  `BronzeSafety.TasksRaiseExactlyAtLag` shows that a task raises if and only if that happened, and
  `BronzeSafety.LoopCanRaise` has a run in which it does.
* When the loop's function returns, callers are promised a fully flushed, quiescent state
  (bronze_consumer.py:365-369). Quiescent it is (`BronzeSafety.DrainsToQuiescence`); the buffer is
  empty exactly if it was when the loop ended or a flush still running cleared it
  (`BronzeSafety.ReturnsFlushedIff`), and one that was not due stays (`BronzeSafety.QuiescentNotFlushed`).
* A trace carries a status, but no result is passed on pipeline events, so it is always COMPLETED
  (tracing_hook.py:197-201), and its spans tell of first attempts only; it is the run's own status exactly when the run completes
  (`Tracing.SequentialRunIsTraced`, `Tracing.ParallelRunIsTraced`).
* The executors end in the same status, but not always with the same error fields;
  `ExecutorEquivalence.SameErrorFieldsIff` has the exact condition.
* A flush commits wherever in a cycle the threshold is reached, also between an order's stock and its
  movement. A crash after such a commit leaves stock that no movement accounts for. It happens exactly when
  the order's item and history row reach the threshold (`Marketplace.Market.CreateOrder`); whether any cycle
  of a batch does is decided by the settings alone (`Marketplace.RunBatch`), and with the defaults one does
  (`Marketplace.DefaultsTear`). A threshold that is a multiple of the rows a cycle buffers never does
  (`Marketplace.AlignedNeverTears`).
* An empty group is accepted by `Pipeline`, and the slice of the last zero results is all of them
  (parallel_executor.py:160); `Executors.LastResults` keeps that, and the equivalence holds all the same.
* `StorageLocation.from_uri` loses everything from a `;` in the last path segment for the schemes the
  standard parser splits parameters for; `StorageLocation.RoundTrip` has the exact condition.

## Model

| member | source | states |
|---|---|---|
| BronzeLog.FetchKeepsCover | src/streaming/consumers/bronze_consumer.py:484-508 | buffering the decodable messages of a poll keeps the landed sequence gap-free and everything below the new position landed or buffered, even when partitions were rewound to the committed offset during the poll |
| BronzeLog.GapFreeRepeat | src/streaming/consumers/bronze_consumer.py:569-582 | appending a batch that was already appended only repeats: a gap-free table stays gap-free |
| BronzeLog.ArrivalKeepsPrefix | src/streaming/consumers/bronze_consumer.py:500-508 | an arrival whose predecessors have arrived is a repeat or extends the once-delivered prefix by exactly itself |
| BronzeLog.GapFreeIsPrefix | src/streaming/consumers/bronze_consumer.py:500-508 | without its repeats a gap-free sequence is, per partition, exactly a prefix of the decodable messages in order |
| BronzeLog.FirstOccurrencesMembers | src/data_platform/processing/silver/transformations.py:99-112 | dropping duplicates loses no element and leaves none twice |
| EntityTurn.CapsFor | src/streaming/consumers/bronze_consumer.py:162-165 | every entity flushes at a hundred rows; products and inventories may poll all of them in one turn, the others a quarter |
| EntityTurn.WhenItPolls | src/streaming/consumers/bronze_consumer.py:457-498 | a turn asks for messages exactly if the buffer has room and the entity has come back empty fewer than three times in a row or has skipped four turns since its last poll |
| EntityTurn.QuietSchedule | src/streaming/consumers/bronze_consumer.py:457-508 | an entity with nothing waiting polls three turns in a row and then every fifth turn only, and keeps what it has buffered |
| EntityTurn.MessagesEndIdleness | src/streaming/consumers/bronze_consumer.py:500-508 | a poll that brings messages ends the idleness, and the buffer opens when its first record comes |
| EntityTurn.WhenItFlushes | src/streaming/consumers/bronze_consumer.py:307-317 | a buffer is due at a hundred rows or once its first row is 300 seconds old, and no earlier |
| BronzeSafety.StepKeepsInv | src/streaming/consumers/bronze_consumer.py:389-520 | every loop, worker and environment step keeps the invariant: gap-free landing, committed and late offsets covered by the table, position covered by table and buffer, one flush at most, a flush's snapshot equal to the buffer |
| BronzeSafety.MergeCovered | src/integrations/kafka/messaging/kafka_messaging_provider.py:171-188 | a commit of unknown outcome may have taken effect on any subset of the partitions: whichever it is, the table covers the committed offsets |
| BronzeSafety.RunKeepsInv | src/streaming/consumers/bronze_consumer.py:389-646 | so does every run, crashes, failed and late commits and recoveries included |
| BronzeSafety.AtLeastOnce | src/streaming/consumers/bronze_consumer.py:552-646 | in every reachable state each decodable message below the committed offset is in the table, each one below the position is in the table or the buffer (unless a poll raised, after which no flush runs), and nothing else was ever written |
| BronzeSafety.TableIsPrefix | src/streaming/consumers/bronze_consumer.py:560-617 | in every reachable state the table without its repeats holds, per partition, exactly a prefix of the decodable messages in order, reaching at least the committed offset |
| BronzeSafety.EnvironmentIsFree | src/streaming/consumers/bronze_consumer.py:586-612 | in every reachable state a crash, new messages, a rewind of any partition and an abandoned commit landing on any partitions are possible |
| BronzeSafety.FlightSeesItsBuffer | src/streaming/consumers/bronze_consumer.py:399-445 | until its commit is over a submitted flush finds the buffer it was submitted with, and its position in every partition that was not rewound meanwhile |
| BronzeSafety.FlyingStep | src/streaming/consumers/bronze_consumer.py:406-433 | while a flush runs no loop step changes the entity beyond ending the loop, and nothing but a rewind moves the position |
| BronzeSafety.CommitCoversWhatWasRead | src/streaming/consumers/bronze_consumer.py:560-582 | the offset a flush commits is the position at its submission, in every partition not rewound meanwhile; everything buffered then and everything below the offset is in the table |
| BronzeSafety.PollBeforeCommitWouldLose | src/streaming/consumers/bronze_consumer.py:406-433 | were one more decodable message read between write and commit, the commit would cover a message that is nowhere in the table |
| BronzeSafety.CommitFindsConsumer | src/integrations/kafka/messaging/kafka_messaging_provider.py:145-153 | in a reachable state a commit after a write never meets the unresolved-consumer error |
| BronzeSafety.TasksRaiseExactlyAtLag | src/streaming/consumers/bronze_consumer.py:435-445 | in a run without a crash a flush task raises if and only if reading the lag after its commit failed; then, and only then, the loop, while it runs, raises where it waits for the task |
| BronzeSafety.LagFailureRaises | src/streaming/consumers/bronze_consumer.py:639-646 | any submitted flush may be written and committed and still raise |
| BronzeSafety.LoopCanRaise | src/streaming/consumers/bronze_consumer.py:435-445 | a reachable state in which the loop raises a task's error |
| BronzeSafety.FlightNeverStuck | src/streaming/consumers/bronze_consumer.py:560-646 | a running flush always has a next step |
| BronzeSafety.DrainsToQuiescence | src/streaming/consumers/bronze_consumer.py:365-369 | once the loop has ended the workers take at most five more steps, and none is left exactly when no flush is running |
| BronzeSafety.ReturnsFlushedIff | src/streaming/consumers/bronze_consumer.py:365-369 | an entity's buffer is empty on return exactly if it was empty when the loop ended, or the flush then running cleared it; without one running it stays as it was |
| BronzeSafety.QuiescentNotFlushed | src/streaming/consumers/bronze_consumer.py:365-369 | a reachable state in which the loop has ended and no flush runs, with a row in the buffer and none in the table |
| BronzeSafety.EmptyBufferIsFlushed | src/streaming/consumers/bronze_consumer.py:365-369 | with an empty buffer everything read is in the table |
| BronzeSafety.BufferRules | src/streaming/consumers/bronze_consumer.py:301-321 | every reachable buffer is bounded, open exactly while non-empty, never idle when full, and at most four rounds from its last poll |
| BronzeSafety.FullBufferIsFlushed | src/streaming/consumers/bronze_consumer.py:470-518 | a turn that ends with a full buffer ends with a flush in flight |
| BronzeSafety.OldRowsAreFlushed | src/streaming/consumers/bronze_consumer.py:307-317 | however a run goes on without clearing, a turn submits a flush exactly if its buffer is full or its oldest row came 300 seconds before |
| BronzeSafety.AtMostFourIdleTurns | src/streaming/consumers/bronze_consumer.py:447-468 | however the run is interleaved, at most four taken turns in a row skip their poll |
| BronzeSafety.FullBufferNeverPolls | src/streaming/consumers/bronze_consumer.py:586-612 | the livelock recovery is for: as long as nothing clears it, a full buffer stays full and its entity never polls |
| BronzeSafety.RecoveryReopensPolling | src/streaming/consumers/bronze_consumer.py:602-617 | after discarding the consumer and clearing the buffer the next turn polls, from the committed offsets, and the cleared records are in the table |
| BronzeDrain.FlushSucceeds | src/streaming/consumers/bronze_consumer.py:560-646 | a submitted flush that meets no failure lands and commits exactly what was buffered and read |
| BronzeDrain.RoundIsRun | src/streaming/consumers/bronze_consumer.py:399-518 | a turn with its successful flush is a run of the protocol and ends ready for the next turn |
| BronzeDrain.PollReducesBacklog | src/streaming/consumers/bronze_consumer.py:491-498 | a poll in sequence reduces the backlog by exactly the messages returned |
| BronzeDrain.RoundProgress | src/streaming/consumers/bronze_consumer.py:447-518 | while something is unread every round reads some of it or uses up idle or full-buffer delay |
| BronzeDrain.Drains | src/streaming/consumers/bronze_consumer.py:447-518 | the backlog is empty after as many rounds as it has messages plus the delay left |
| BronzeDrain.BacklogIsReadInTime | src/streaming/consumers/bronze_consumer.py:447-518 | from any reachable state, an idle one too, a backlog of n messages is read within n + 4 rounds |
| BronzeDrain.EagerTurnExists | src/streaming/consumers/bronze_consumer.py:447-508 | a turn as assumed exists in every state ready for one: with a message waiting it can be read |
| BronzeDrain.LagIsBacklog | src/integrations/kafka/messaging/kafka_messaging_provider.py:250-283 | with every partition assigned, the lag the provider reports is the number of unread messages |
| KafkaProvider.KafkaMessagingProvider.ResolveConsumer | src/integrations/kafka/messaging/kafka_messaging_provider.py:285-315 | one cached consumer per topic and group; a new one joins at the committed offsets |
| KafkaProvider.KafkaMessagingProvider.ConsumeBatch | src/integrations/kafka/messaging/kafka_messaging_provider.py:116-138 | returns the first records in order and moves the position past them, or raises on an error event, having moved the position too |
| KafkaProvider.KafkaMessagingProvider.Commit | src/integrations/kafka/messaging/kafka_messaging_provider.py:140-188 | success commits the position; a failure may have landed in part; past the deadline the call may still land; without a consumer nothing happens |
| KafkaProvider.KafkaMessagingProvider.RecoverFromLostAssignment | src/integrations/kafka/messaging/kafka_messaging_provider.py:190-233 | discards the consumer exactly for a lost assignment or a timed-out commit |
| KafkaProvider.KafkaMessagingProvider.ConsumerLag | src/integrations/kafka/messaging/kafka_messaging_provider.py:235-283 | the sum of the per-partition lags, none before a consumer was resolved |
| KafkaProvider.ZeroLagMeansCaughtUp | src/integrations/kafka/messaging/kafka_messaging_provider.py:250-283 | the lag is never negative, and zero exactly when no partition has anything unread |
| KafkaProvider.FetchPrefix | src/integrations/kafka/messaging/kafka_messaging_provider.py:125-138 | what can be fetched can be fetched in part, so capping a batch keeps it a legal poll |
| BronzeConsumer.EntityBuffer.Add | src/streaming/consumers/bronze_consumer.py:301-305 | appends the record and opens an empty buffer at this moment |
| BronzeConsumer.EntityBuffer.IsDue | src/streaming/consumers/bronze_consumer.py:307-317 | due exactly when non-empty and full or old enough |
| BronzeConsumer.EntityBuffer.Clear | src/streaming/consumers/bronze_consumer.py:319-321 | empties and closes the buffer, keeping the poll counters |
| BronzeConsumer.EntityConsumer.constructor | src/streaming/consumers/bronze_consumer.py:377-391 | a process starts in the state a crash leaves, over whatever broker and table hold; over untouched ones it is an initial state of the protocol |
| BronzeConsumer.EntityConsumer.BufferMessage | src/streaming/consumers/bronze_consumer.py:523-549 | buffers exactly the decodable messages that carry a row |
| BronzeConsumer.EntityConsumer.BufferMessages | src/streaming/consumers/bronze_consumer.py:503-506 | the buffering loop adds exactly the decodable messages of the batch, in order |
| BronzeConsumer.EntityConsumer.Poll | src/streaming/consumers/bronze_consumer.py:457-508 | takes the front of the queue, skips by the idle rule or for a full buffer, counts empty polls, and raises exactly on an error event; how much it takes is TurnTakesWhatFits |
| BronzeConsumer.EntityConsumer.TakeTurn | src/streaming/consumers/bronze_consumer.py:404-518 | one turn of the loop is exactly one protocol step of its entity, for exactly the messages its queue hands out, and touches no other entity's consumer |
| BronzeConsumer.TurnTakesWhatFits | src/streaming/consumers/bronze_consumer.py:484-498 | a polling turn leaves something in the queue only if it took the whole poll cap or filled the buffer to its limit; never more than either, in queue order, and all of what it took that is no error |
| BronzeConsumer.EntityConsumer.BuildTable | src/streaming/consumers/bronze_consumer.py:560-564 | building the table is the snapshot step, or the failed build |
| BronzeConsumer.EntityConsumer.WriteTable | src/streaming/consumers/bronze_consumer.py:566-567 | the append is a write step; a failed one may have landed |
| BronzeConsumer.EntityConsumer.Commit | src/streaming/consumers/bronze_consumer.py:582-583 | the commit is one of the four commit steps, a failed one without a resolved consumer, and its error is unrecoverable exactly when the consumer is lost |
| BronzeConsumer.EntityConsumer.DiscardConsumer | src/streaming/consumers/bronze_consumer.py:612-614 | recovery is the discard step exactly for unrecoverable errors |
| BronzeConsumer.EntityConsumer.ClearBuffer | src/streaming/consumers/bronze_consumer.py:615-617 | clearing finishes the flush |
| BronzeConsumer.EntityConsumer.BuildAndWrite | src/streaming/consumers/bronze_consumer.py:560-567 | the first half of a flush is a run of the protocol, successful exactly when table and append succeed |
| BronzeConsumer.EntityConsumer.FinishFailed | src/streaming/consumers/bronze_consumer.py:583-637 | after a failure, only an unrecoverable error discards the consumer and clears the buffer |
| BronzeConsumer.EntityConsumer.FinishCommitted | src/streaming/consumers/bronze_consumer.py:639-646 | after a commit the buffer is cleared, unless reading the lag raises |
| BronzeConsumer.EntityConsumer.Flush | src/streaming/consumers/bronze_consumer.py:552-652 | the whole flush, whatever it meets, is a run of the protocol |
| BronzeConsumer.FlushOutcome | src/streaming/consumers/bronze_consumer.py:560-646 | what every outcome of a flush leaves: the buffer is emptied exactly after a commit whose lag was read or one that lost the consumer, its rows then appended; the consumer is gone exactly in the latter case; after any other failure the buffer is kept |
| BronzeConsumer.Round | src/streaming/consumers/bronze_consumer.py:399-520 | a round takes one protocol step of every entity, independent of the others, up to the first turn that raises |
| Silver.LatestByKeyIsLatest | src/data_platform/processing/silver/transformations.py:115-135 | replacing on a strictly greater order value keeps one of each key's greatest rows |
| Silver.LatestIsFirst | src/data_platform/processing/silver/transformations.py:115-135 | this resolution, one of those the ranking leaves open, breaks ties for the first row to arrive |
| Silver.TrimOnlySpaces | src/data_platform/processing/silver/transformations.py:88-96 | trimming takes away all surrounding spaces and nothing else |
| Silver.SilverInputIs | src/data_platform/processing/silver/transformations.py:50-52 | trimming and dropping repeats leave, once each, exactly the given rows with the spaces around their columns removed |
| Silver.SilverRowsAreMessages | src/data_platform/processing/silver/transformations.py:50-52 | the rows Silver gets are those the landed messages carry, trimmed |
| Silver.LatestOfMessages | src/data_platform/processing/silver/transformations.py:115-135 | whatever the ranking returns has one row for every key of a message, and no message of that key is later |
| Silver.LatestExists | src/data_platform/processing/silver/transformations.py:129-135 | ranking and keeping rank one has a result: exactly one row per key, with the greatest order value |
| Silver.SwapChoice | src/data_platform/processing/silver/transformations.py:129-135 | any of a key's tied greatest rows may be the one kept |
| Silver.DeterminedIffNoTie | src/data_platform/processing/silver/transformations.py:115-135 | the keyed de-duplication has one possible result exactly when no two different rows tie as the latest of a key |
| Silver.TableIsOneDelivery | src/streaming/consumers/bronze_consumer.py:573-582 | in every reachable state the table has exactly the messages of a single delivery up to where it reaches |
| Silver.SameMessagesSameSilver | src/data_platform/processing/silver/transformations.py:50-57 | the same messages, however often and in whatever order appended, give Silver the same rows, each once, and as many |
| Silver.SilverAbsorbsRedelivery | src/data_platform/processing/silver/transformations.py:50-57 | whatever retries, recoveries and crashes left in Bronze, Silver's rows are those of one delivery, in number too, and its result is determined exactly when that delivery has no tie |
| Pipelines.Validate | src/data_platform/processing/core/pipeline.py:55-79 | accepts exactly the pipelines with an id, a name, at least one element and distinct stage ids, and says which check failed first |
| Pipelines.ElementsInOrder | src/data_platform/processing/core/pipeline.py:81-142 | a pipeline holds a lone stage as itself and as a group of one, a group as its members and as it is, one element after the other |
| Pipelines.FlattenIsConcatOfGroups | src/data_platform/processing/core/pipeline.py:81-142 | iterating a pipeline and concatenating its groups give the same stages in the same order |
| Policies.Merge | src/data_platform/processing/policies/policy_manager.py:40-100 | a cancellation wins at once; otherwise all must continue and any may retry; the merge is rejected exactly when a retry meets a decision not to continue |
| Policies.MergedDecision | src/data_platform/processing/policies/retry_policy.py:30-57 | retry and failure policies in any number and order: only an exception with attempts left retries, only a failed result under fail-fast cancels and only then not all continue, never both, never an invalid merge, each with its own reason |
| ExecutionRuntime.TaskContext.StageStarted | src/data_platform/processing/runtime/execution_runtime.py:219-229 | resets the attempt, the result and the exception, whatever the task inherited |
| ExecutionRuntime.TaskContext.StageFinished | src/data_platform/processing/runtime/execution_runtime.py:231-234 | unsets stage and attempt only |
| ExecutionRuntime.TaskContext.RetryStarted | src/data_platform/processing/runtime/execution_runtime.py:236-244 | counts the attempt and forgets the last result and exception |
| ExecutionRuntime.TaskContext.MaxAttempts | src/data_platform/processing/runtime/execution_runtime.py:246-250 | records the stage's limit only |
| ExecutionRuntime.TaskContext.Record | src/data_platform/processing/runtime/execution_runtime.py:256-279 | records an attempt's exception or result only |
| ExecutionRuntime.TaskContext.EvaluatePolicies | src/data_platform/processing/executor/base_executor.py:154-175 | a retry exactly for an exception with fewer attempts made than allowed under a retry policy, a cancellation exactly for a result that is not completed under fail-fast; unset or zero counts read as one; the merge always exists |
| ExecutionRuntime.PipelineContext.ExecutionStarted | src/data_platform/processing/runtime/execution_runtime.py:121-153 | running, not cancelled, no result, and no exception or result left from before |
| ExecutionRuntime.PipelineContext.ExecutionCompleted | src/data_platform/processing/runtime/execution_runtime.py:155-178 | completed, with no exception left |
| ExecutionRuntime.PipelineContext.ExecutionFailed | src/data_platform/processing/runtime/execution_runtime.py:180-207 | failed, recording the exception if there is one |
| StageRun.DecidingIsFirstReturn | src/data_platform/processing/executor/sequential_executor.py:65-118 | the deciding attempt is the first that returns, or the last allowed |
| StageRun.AttemptBound | src/data_platform/processing/policies/retry_policy.py:38-57 | a stage is executed at most max(1, max_attempts) times, exactly that often if it always raises, and gives up exactly when every allowed attempt raises |
| StageRun.StageEvents | src/data_platform/processing/executor/sequential_executor.py:49-182 | BEFORE_STAGE once, then one event an attempt: AFTER_STAGE for a completed result, STAGE_FAILED for an exception and for any other result; only the last attempt may return |
| StageRun.StageEndsAs | src/data_platform/processing/executor/sequential_executor.py:65-182 | a stage ends as its last attempt did, and cancels exactly for a result that is not completed under fail-fast |
| StageRun.Execute | src/data_platform/processing/executor/sequential_executor.py:49-182 | the retry loop, reading its decisions from the task's variables, ends with the outcome, attempts and events of a specification that has no variables |
| Executors.RunSequentially | src/data_platform/processing/executor/sequential_executor.py:33-198 | the stage loop computes the sequential run; its events open with BEFORE_PIPELINE and close with exactly one of AFTER_PIPELINE and PIPELINE_FAILED |
| Executors.Gather | src/data_platform/processing/executor/parallel_executor.py:83-94 | the members of a group, each with its own copy of the variables, resumed in any order until all have ended: every member's outcome, attempts and events are those of running it by itself, and the events occur in an interleaving of the members' own |
| Executors.Aggregate | src/data_platform/processing/executor/parallel_executor.py:96-120 | results of the members that finished, in order; the first exception; whether any member cancels |
| Executors.RunInGroups | src/data_platform/processing/executor/parallel_executor.py:64-177 | under every order in which the event loop resumes the tasks of each group, the end, the results and the status are those of the parallel run, and the events are its lifecycle with each group's interleaved |
| Executors.Publish | src/data_platform/processing/executor/base_executor.py:298-336 | the stored pipeline result is the returned one, with the raised error or the last result's error fields |
| Executors.ExecuteSequentially | src/data_platform/processing/executor/base_executor.py:279-336 | start to published result, sequentially; the status in the context is the returned status |
| Executors.ExecuteInGroups | src/data_platform/processing/executor/base_executor.py:279-336 | the same for the parallel executor, under every order of its tasks |
| PipelineOutcome.SequentialOutcome | src/data_platform/processing/executor/sequential_executor.py:49-198 | the published result stage by stage: the results in order up to the first stage that raises for good or cancels; completed only if all ran and completed, else the exception or the last result's error fields; and the closing event that belongs to it |
| PipelineOutcome.ParallelOutcome | src/data_platform/processing/executor/parallel_executor.py:81-177 | the first group with a stage that raises for good or cancels decides, after all its members have ended: what they all returned is in the result, with the first exception in group order or else the cancellation; without such a group it is the sequential execution |
| PipelineOutcome.ResultsConcat | src/data_platform/processing/executor/parallel_executor.py:96-117 | what several outcomes report is what each reports, in order |
| PipelineOutcome.ResultOfOne | src/data_platform/processing/executor/parallel_executor.py:100-117 | an outcome that returned reports its result, one that raised reports none |
| PipelineOutcome.CompletedIff | src/data_platform/processing/executor/parallel_executor.py:163-177 | an execution by either executor is completed exactly if every stage of the pipeline completes, and then carries every stage's result in pipeline order |
| ExecutorEquivalence.GroupReport | src/data_platform/processing/executor/parallel_executor.py:96-161 | what a group reports is what running its members one by one reports, plus the members that would not have been reached |
| ExecutorEquivalence.ParallelExtendsSequential | src/data_platform/processing/executor/parallel_executor.py:81-177 | on every pipeline and for all retry and failure policies the parallel run is the sequential run extended by the rest of the group it stopped in |
| ExecutorEquivalence.SameStatusAndPrefix | src/data_platform/processing/executor/parallel_executor.py:81-177 | both end in the same status and the sequential results are a prefix of the parallel ones |
| ExecutorEquivalence.SameResultsIff | src/data_platform/processing/executor/parallel_executor.py:100-120 | the results are equal exactly when every further member of the stopping group raises too |
| ExecutorEquivalence.SameRunWhenNothingStops | src/data_platform/processing/executor/sequential_executor.py:49-198 | equal in every respect when no stage raises for good or cancels |
| ExecutorEquivalence.SameRunWhenNothingFails | src/data_platform/processing/executor/sequential_executor.py:49-198 | equal when every stage succeeds, and when failures do not cancel and none raises for good |
| ExecutorEquivalence.SameRunWithoutGroups | src/data_platform/processing/executor/parallel_executor.py:81-177 | without groups of two or more: the same events, results, status and error fields |
| ExecutorEquivalence.UngroupedRunsInOrder | src/data_platform/processing/executor/parallel_executor.py:81-177 | without groups of two or more every order of the tasks emits exactly the sequential run's events |
| ExecutorEquivalence.SameErrorFieldsIff | src/data_platform/processing/executor/parallel_executor.py:100-142 | both executors report the same error fields exactly when the sequential run is not cancelled, or the rest of the stopping group says nothing else: its first exception, or without one its last result, carries the same fields, or there is no rest |
| ExecutorEquivalence.ErrorFieldsMayDiffer | src/data_platform/processing/executor/parallel_executor.py:100-142 | a witness: a failure that cancels, followed by a sibling's exception, is reported with different error types |
| ExecutorEquivalence.LaterResultHidesFailure | src/data_platform/processing/executor/parallel_executor.py:115-158 | a witness without any exception: a failure that cancels is followed by a sibling's success, whose fields the parallel executor reports |
| GroupRun.AdvanceStaysOnCourse | src/data_platform/processing/executor/parallel_executor.py:210-299 | every step of a task from await to await keeps it on its stage's specified course, whatever it inherited |
| GroupRun.AloneFollowsSpecification | src/data_platform/processing/executor/parallel_executor.py:210-299 | run alone, a stage follows its specification and ends within two steps per attempt and one to start |
| GroupRun.EachAsAlone | src/data_platform/processing/runtime/execution_runtime.py:33-94 | non-interference: after any schedule each task is exactly where its own steps alone lead |
| GroupRun.GroupEndsAsSpecified | src/data_platform/processing/executor/parallel_executor.py:179-299 | under every interleaving each stage's outcome, attempts and events are those of running it by itself, and whenever the policies are asked its variables hold exactly one of an exception and a failed result |
| GroupRun.TraceInterleaves | src/data_platform/processing/executor/parallel_executor.py:83-94 | seen from one stage, the group's events are that stage's own, in order |
| GroupRun.TraceIsOfStages | src/data_platform/processing/executor/parallel_executor.py:83-94 | nothing but stage events of the group's own stages occurs |
| GroupRun.ScheduledGroupTrace | src/data_platform/processing/executor/parallel_executor.py:83-94 | any schedule that runs a group to its end emits each stage's whole life and nothing else |
| GroupRun.RunToAwait | src/data_platform/processing/executor/parallel_executor.py:179-299 | the task's own code, between two awaits, does one step of the interleaved model on its own variables |
| GroupRun.ResumeProgresses | src/data_platform/processing/executor/parallel_executor.py:83-94 | resuming any task that has not ended brings the group nearer to its end, so every order of resumptions comes to it |
| GroupRun.SharedSlotInterferes | src/data_platform/processing/runtime/execution_runtime.py:33-45 | with one shared slot a sibling's exception hides a failure from the fail-fast policy; with copies it does not |
| Tracing.TracingHook.Execute | src/data_platform/processing/tracing/tracing_hook.py:73-221 | one event changes the spans as specified |
| Tracing.TracingHook.CloseSpan | src/data_platform/processing/tracing/tracing_hook.py:102-175 | a stage's first end closes its span, a later one finds none |
| Tracing.TracingHook.RecordTrace | src/data_platform/processing/tracing/tracing_hook.py:183-221 | an open trace is recorded once with the completed spans, and everything is reset |
| Tracing.SpanStep | src/data_platform/processing/tracing/tracing_hook.py:88-175 | an event changes what the hook holds for its own stage only |
| Tracing.SpanStateFollows | src/data_platform/processing/tracing/tracing_hook.py:88-175 | for each stage the hook holds an active span exactly after its start alone, and one completed span from its first end on |
| Tracing.RunIsTraced | src/data_platform/processing/tracing/tracing_hook.py:73-221 | whatever ran before, a complete run adds exactly one trace, of status COMPLETED and with the closing event's exception, with one span per started stage, closed at its first end, and no span stays active |
| Tracing.GroupsAreComplete | src/data_platform/processing/executor/parallel_executor.py:81-94 | so do the groups of a run, one after the other |
| Tracing.SpanFromFirst | src/data_platform/processing/tracing/tracing_hook.py:102-175 | a stage's span has the status its first attempt returned, or FAILED and the message of what it raised, whatever a retry came to |
| Tracing.EveryInterleavingIsTraced | src/data_platform/processing/tracing/tracing_hook.py:73-221 | however the tasks interleave, one trace with exactly one span for each stage of the groups that ran, telling how its first attempt ended |
| Tracing.SequentialRunIsTraced | src/data_platform/processing/executor/sequential_executor.py:42-198 | sequentially, too, whatever the retries, stopping early or not: one span a started stage, telling of its first attempt; the trace's status is the run's exactly when the run completes without a tolerated failure |
| Tracing.ParallelRunIsTraced | src/data_platform/processing/executor/parallel_executor.py:81-177 | in parallel, for every interleaving of a run's groups and wherever it stops: one trace, with exactly one span for each stage of the groups that ran, telling of its first attempt; its status is the run's exactly when the run completes without a tolerated failure |
| Tracing.LifecycleIsGrammatical | src/data_platform/processing/executor/parallel_executor.py:72-177 | every run of either executor, however its groups interleave, emits BEFORE_PIPELINE once and first, exactly one of AFTER_PIPELINE and PIPELINE_FAILED last, and only stage events in between |
| Orders.RuleFor | src/simulator/domain/orders/order_status_service.py:19-39 | every rule starts at its own status and has a positive minimum age |
| Orders.FindEligible | src/simulator/domain/orders/order_status_service.py:56-96 | eligible orders, oldest first, at most the limit, none passed over for a younger one, all of them when they fit |
| Orders.OrderDatabase.Transition | src/simulator/domain/orders/order_status_service.py:98-135 | the conditional update and its history row happen together, exactly when the order has the expected status |
| Orders.OrderDatabase.Consider | src/simulator/domain/orders/order_status_service.py:166-174 | one roll cancels, advances or leaves a candidate; an eligible candidate's transition never misses |
| Orders.OrderDatabase.ProgressStatus | src/simulator/domain/orders/order_status_service.py:159-174 | the candidates of one status each take the next roll; every history row is a legal move of an order that had not moved yet |
| Orders.OrderDatabase.ProgressEligibleOrders | src/simulator/domain/orders/order_status_service.py:154-176 | a tick visits the statuses in rule order, each with all the candidates its query has by then; the rows are legal moves of the orders as they were before the tick, at most one per order; the counts are the rows; at most sixty candidates |
| Orders.RuleOrderIsComplete | src/simulator/domain/orders/order_status_service.py:19-39 | the statuses a tick visits are exactly those with a rule, once each, in the direction an order takes |
| Orders.RollDecides | src/simulator/domain/orders/order_status_service.py:19-39 | for each status, how old an order must be and which rolls cancel or advance it |
| Orders.TickConsiders | src/simulator/domain/orders/order_status_service.py:56-96 | a tick considers every order with a rule to follow that is old enough, unless fifteen of its status as old or older came first; and no other |
| Orders.TickMoves | src/simulator/domain/orders/order_status_service.py:154-176 | after the tick a considered order is what its own roll decided, every other order as it was |
| Orders.SameCandidates | src/simulator/domain/orders/order_status_service.py:159-164 | the moves of earlier statuses change no candidate of a later one: each query answers as before the tick |
| Orders.ConsideredOnce | src/simulator/domain/orders/order_status_service.py:154-176 | no order is considered twice in a tick |
| Orders.AppliedAt | src/simulator/domain/orders/order_status_service.py:112-133 | a tick gives each moved order the tick's time and leaves every other order as it was |
| Orders.OneMoreMove | src/simulator/domain/orders/order_status_service.py:83-96 | a moved order is too young to be found again in the same tick |
| OrderLife.PathLength | src/simulator/domain/orders/order_status_service.py:19-39 | a status determines how many transitions lead to it, at most four |
| OrderLife.TickOfOne | src/simulator/domain/orders/order_status_service.py:154-176 | a tick does nothing to an order, or takes one legal step recorded by one row, no sooner than the rule's age |
| OrderLife.StepOnOne | src/simulator/scheduler.py:97-108 | creating, buffering, flushing and ticking keep every order's history a linked path to its status |
| OrderLife.RunKeepsOk | src/simulator/scheduler.py:97-108 | so does every run of them |
| OrderLife.EveryOrderLivesItsLife | src/simulator/domain/orders/order_status_service.py:19-49 | after any run each history is a linked path from nothing over PENDING to the current status, of at most four transitions; a delivered order was updated at least 660 s after its creation |
| OrderLife.DeliveredInTime | src/simulator/domain/orders/order_status_service.py:19-49 | a run that delivers an order exactly 660 s after its creation: the bound is met |
| OrderLife.FinalIsForever | src/simulator/domain/orders/order_status_service.py:19-39 | DELIVERED and CANCELLED are final: no later step changes the order or its history |
| OrderLife.AtMostOneMovePerTick | src/simulator/domain/orders/order_status_service.py:154-176 | within a tick an order gains at most one history row, and exactly one if its status changed |
| BatchWriter.Database.InsertRows | src/simulator/core/batch_writer.py:80-83 | one multi-row statement, sent only with every parent present |
| BatchWriter.NothingDangles | src/simulator/core/batch_writer.py:25-37 | what the rows with every parent present refer to, table by table |
| BatchWriter.Writer.constructor | src/simulator/core/batch_writer.py:53-58 | a new writer has nothing buffered |
| BatchWriter.Writer.Append | src/simulator/core/batch_writer.py:60-66 | one row more in its table's buffer, and the pending count is the number of buffered rows |
| BatchWriter.Writer.Add | src/simulator/core/batch_writer.py:60-69 | for each table, rows sent followed by rows buffered are exactly the rows added; a flush and a commit happen exactly at the threshold |
| BatchWriter.PendingIsRest | src/simulator/core/batch_writer.py:60-69 | what is pending is the rest of all rows ever added, divided by the threshold |
| BatchWriter.Writer.SendTable | src/simulator/core/batch_writer.py:76-85 | sending a table's buffer moves its rows to the database in one statement, none lost or repeated; an empty one sends nothing |
| BatchWriter.Writer.Flush | src/simulator/core/batch_writer.py:71-89 | everything added has been sent, one statement for each table that had rows, in first-added order; nothing is pending, and one commit took the tables as they then were, if there was anything |
| BatchWriter.BufferRow | src/simulator/core/batch_writer.py:60-66 | buffering a row whose parents exist keeps every buffered row's parents existing and counts it |
| BatchWriter.ZeroTotal | src/simulator/core/batch_writer.py:71-73 | nothing pending means every buffer is empty |
| BatchWriter.EachGetsItsRows | src/simulator/core/batch_writer.py:76-85 | the statements of a flush give each table exactly that table's buffered rows |
| BatchWriter.FlushOrderIrrelevant | src/simulator/core/batch_writer.py:31-35 | the statements a flush sends give each table the same rows in whatever order it takes the buffered tables |
| Marketplace.InsertWithUniqueRetry | src/simulator/core/unique_insert.py:13-67 | the first accepted attempt wins; it fails exactly when all of the allowed ones are rejected |
| StockLedger.ReservedThenRecorded | src/simulator/domain/orders/order_service.py:36-62 | the ledger explains the stock rows after a movement exactly if it explained them before, with the quantity put back |
| StockLedger.ShortIsTorn | src/simulator/domain/orders/order_service.py:36-62 | tables committed while a reservation has no movement are one to five short of the ledger |
| StockLedger.TornIsUnaccounted | src/simulator/domain/orders/order_service.py:36-62 | tables so short are explained by no moment of the ledger: every refill is too large to hide a reservation |
| StockLedger.RefillGap | src/simulator/domain/inventory/restock_service.py:29-47 | between two moments a row was not refilled, or by at least fifty |
| StockLedger.NothingOutboundYet | src/simulator/domain/inventory/inventory_repository.py:14-45 | no movement can name an inventory row that does not exist yet |
| StockLedger.NewRowExplained | src/simulator/domain/inventory/inventory_repository.py:14-45 | a new row joins the ledger with its opening stock, and what was explained stays explained |
| Marketplace.CycleTearsIff | src/simulator/scheduler.py:42-81 | with the rows of k cycles added, what is pending and whether the next cycle's order tears a commit follow from k and the settings alone |
| Marketplace.DefaultsTear | src/simulator/core/settings.py:21-50 | the default settings, a thousand cycles and a threshold of 500 with all features, tear a commit |
| Marketplace.AlignedNeverTears | src/simulator/core/settings.py:21-50 | a threshold that is a multiple of the rows a cycle buffers tears none, however many cycles |
| Marketplace.TearOneCommit | src/simulator/domain/orders/order_service.py:36-62 | a run of writer and market whose order commits between its stock and its movement |
| Marketplace.MoreSales | src/simulator/domain/orders/order_service.py:23-73 | one order more keeps item, history row and movement of every order agreeing, in quantity, product and order |
| Marketplace.WholeCycle | src/simulator/scheduler.py:42-81 | the ten steps of a cycle by name and in order, each follow-up behind its switch |
| Marketplace.CycleReasons | src/simulator/scheduler.py:42-81 | a cycle of a batch that has not raised yet raises if its inputs make it, and otherwise only for a taken stock id or for want of stock |
| Marketplace.StillInStock | src/simulator/domain/orders/order_service.py:75-130 | a row that opened with five for every order still has stock before the last one |
| Marketplace.Market.constructor | src/simulator/scheduler.py:86-95 | a batch starts balanced: its ledger opens every row as earlier batches left it, with no refill |
| Marketplace.Market.Insert | src/simulator/core/reference_pool.py:25-39 | an immediate insert keeps pooled ids and buffered rows referring to existing rows |
| Marketplace.Market.Buffer | src/simulator/core/batch_writer.py:60-69 | a buffered child row joins its own table only; a commit it causes has everything added so far in its tables |
| Marketplace.Market.BufferAside | src/simulator/core/batch_writer.py:60-69 | a row that is no part of an order keeps the ledger balanced, also at the commit it may cause |
| Marketplace.Market.BufferMidOrder | src/simulator/domain/orders/order_service.py:54-62 | a row of an order whose movement is missing: a commit it causes is torn, and it causes one exactly at the threshold |
| Marketplace.Market.BufferMovement | src/simulator/domain/orders/order_service.py:56-62 | with its movement the order balances the ledger again, also at the commit that may cause |
| Marketplace.Market.BufferOrder | src/simulator/domain/orders/order_service.py:54-62 | what an order's three rows commit is accounted for, unless the first two reach the threshold; then some commit is torn |
| Marketplace.Market.CreateCustomer | src/simulator/domain/customer/customer_service.py:18-38 | one customer in the pool and one address, or nothing when every attempt collides |
| Marketplace.Market.CreateSeller | src/simulator/domain/catalog/seller_service.py:14-25 | one seller more, or nothing when every attempt collides |
| Marketplace.Market.CreateProduct | src/simulator/domain/catalog/product_service.py:14-37 | raises exactly without a seller or a category, or when every attempt collides |
| Marketplace.Market.CreateWarehouse | src/simulator/domain/inventory/warehouse_repository.py:12-51 | a taken code is dropped silently, a taken id raises |
| Marketplace.Market.CreateInventory | src/simulator/domain/inventory/inventory_service.py:14-38 | raises exactly without a warehouse, without a product, or when the id is taken for a pair not stocked yet; a warehouse and product stocked already stay as they are; a new row joins the ledger with its opening stock |
| Marketplace.Market.InsertStock | src/simulator/domain/inventory/inventory_repository.py:14-45 | a new row joins stock and ledger with its opening stock, and the ledger stays legal |
| Marketplace.Market.DecreaseAvailableQuantity | src/simulator/domain/inventory/inventory_repository.py:47-69 | takes the quantity exactly when that much is available, so stock never goes negative |
| Marketplace.Market.ReserveInventory | src/simulator/domain/orders/order_service.py:75-130 | the quantity wanted, one to five, of a row with stock, or all it has; nothing is taken when it raises |
| Marketplace.NothingInStock | src/simulator/domain/orders/order_service.py:75-95 | there is nothing to sell exactly when every row is down to zero |
| Marketplace.Market.InsertOrderDetails | src/simulator/domain/orders/order_repository.py:52-81 | exactly one item and one history row for the order, whenever the flushes come; a commit falls between reservation and movement exactly when these two reach the threshold, and is torn |
| Marketplace.Market.RecordOrder | src/simulator/domain/orders/order_service.py:41-73 | one item, one history row and one movement, each once, in spite of flushes in the middle; its commits are accounted for unless item and history row reach the threshold |
| Marketplace.Market.SellTo | src/simulator/domain/orders/order_service.py:36-73 | the order of a reservation: its quantity, one item, one history row and one movement, the ledger balanced, and a commit torn exactly if item and history row reach the threshold |
| Marketplace.Market.CreateOrder | src/simulator/domain/orders/order_service.py:23-73 | raises exactly without customers, without stock, or when every attempt collides; otherwise one order more whose quantity left one row and is recorded by one movement, ledger balanced; every commit it makes is accounted for if and only if item and history row do not reach the threshold |
| Marketplace.Market.CreatePayment | src/simulator/domain/payments/payment_service.py:14-34 | a payment of an order in the pool, or an error without orders or methods |
| Marketplace.Market.CreateShipment | src/simulator/domain/logistics/shipment_service.py:12-31 | a shipment of an order in the pool, or an error without orders or carriers |
| Marketplace.Market.CreateReview | src/simulator/domain/reviews/review_service.py:12-28 | a review by the customer and of the product of an order in the pool, or an error without orders |
| Marketplace.Market.MaybeRestock | src/simulator/domain/inventory/restock_service.py:29-47 | refills one row by the quantity rolled, 50 to 200, a low one if there is any, and enters exactly that refill in the ledger |
| Marketplace.Market.RestockCandidate | src/simulator/domain/inventory/inventory_repository.py:109-136 | a low-stock row if there is one, otherwise any |
| Marketplace.LowRowsFirst | src/simulator/domain/inventory/inventory_repository.py:109-136 | as long as some row has fewer than twenty, one of those is refilled |
| Marketplace.Market.CreatePeople | src/simulator/scheduler.py:48-55 | customer, seller and product in order; raises exactly when attempts at one of them all collide or there is no category |
| Marketplace.Market.CreateStock | src/simulator/scheduler.py:57-61 | warehouse and stock row in order; raises exactly for a taken warehouse id, no warehouse, or a taken stock id for a pair not stocked yet; at most the cycle's own ids are added |
| Marketplace.Market.CreateCatalog | src/simulator/scheduler.py:48-61 | the first five steps of a cycle, in order; raises exactly for their reasons; no order, no movement, a row opened exactly for a pair not stocked yet, no refill, and the ledger balanced, also at every commit |
| Marketplace.Market.CreateToOrder | src/simulator/scheduler.py:48-64 | then the order, with its one item, history row and movement; raises exactly for the reasons so far, for want of stock, or when every attempt at the order collides |
| Marketplace.Market.CreateFollowUps | src/simulator/scheduler.py:66-76 | payment, shipment and review, in order, each behind its switch, leave the order's books and the ledger alone, also at every commit |
| Marketplace.Market.RunCycle | src/simulator/scheduler.py:42-81 | a cycle raises if and only if one of its steps has its reason: colliding attempts, no category, a taken warehouse id, no warehouse, a taken stock id for a pair not stocked yet, no stock, no payment method or carrier where they are switched on; the steps run in their fixed order up to that one. Otherwise it adds one customer, seller, product and order, opens exactly the row its pair needs, refills one row by the rolled quantity unless it skips that, and every stock row is its opening plus its refills minus its movements; its commits are accounted for exactly when its order does not tear one |
| Marketplace.Market.FinalFlush | src/simulator/scheduler.py:102-102 | afterwards the tables alone hold everything added, the ledger explains them, and every row in them has its parents |
| Marketplace.RunBatch | src/simulator/scheduler.py:83-102 | a batch raises if one of its cycles must, and else only if a stock id is taken or the stock runs out, which it cannot when one row has five for every order. A batch that does not raise ends with every stock row at its opening plus the refills rolled minus what the movements in the tables took, with item, history row and movement of every order agreeing, and nothing buffered; its commits are all accounted for if and only if no cycle tears one, which the settings decide; raised or not, stock is non-negative and every row refers to existing rows |
| DeltaLog.PaddedOrder | src/data_platform/processing/catalog/silver_catalog_registration_stage.py:177-185 | zero-padded decimal numbers compare as strings as they do as numbers |
| DeltaLog.NameOrderIsVersionOrder | src/data_platform/processing/catalog/silver_catalog_registration_stage.py:177-185 | for commit names padded to one width, twenty digits in the protocol, name order is version order |
| DeltaLog.UnpaddedNamesMislead | src/data_platform/processing/catalog/silver_catalog_registration_stage.py:177-185 | without padding version 10 would sort before version 9 |
| DeltaLog.NewestFirstSorts | src/data_platform/processing/catalog/silver_catalog_registration_stage.py:177-185 | the sort is a permutation with the greatest name first |
| DeltaLog.JsonObjectsOf | src/data_platform/processing/catalog/silver_catalog_registration_stage.py:178-182 | the filter keeps exactly the objects named *.json, each as often as it is listed |
| DeltaLog.CommitFilesAre | src/data_platform/processing/catalog/silver_catalog_registration_stage.py:178-182 | the commit files are the objects whose name is something followed by .json |
| DeltaLog.ListedLog | src/data_platform/processing/catalog/silver_catalog_registration_stage.py:177-185 | a listing of the commit files in any order among objects that are not named *.json is a listing of the log |
| DeltaLog.OneSortedOrder | src/data_platform/processing/catalog/silver_catalog_registration_stage.py:177-185 | distinct names leave the sort no choice |
| DeltaLog.ReadDeltaSchema | src/data_platform/processing/catalog/silver_catalog_registration_stage.py:160-216 | the two loops with their early return find the first decisive line of the commit files, newest first; no commits and no metaData are told apart |
| DeltaLog.ScanReadsTheLog | src/data_platform/processing/catalog/silver_catalog_registration_stage.py:177-198 | whatever order the listing comes in and whatever else it holds, the commits are read newest version first |
| DeltaLog.ScanFindsNewest | src/data_platform/processing/catalog/silver_catalog_registration_stage.py:192-211 | the scan ends in the newest commit that has a metaData; replaying all actions oldest first ends with the last metaData of that same commit |
| DeltaLog.ScanIsReplay | src/data_platform/processing/catalog/silver_catalog_registration_stage.py:160-216 | the backward scan gives the replayed schema exactly when the newest commit with a metaData starts and ends on the same one |
| DeltaLog.ScanIsReplayForProtocolLogs | src/data_platform/processing/catalog/silver_catalog_registration_stage.py:160-216 | in particular with at most one metaData per commit |
| DeltaLog.VerdictIs | src/data_platform/processing/catalog/silver_catalog_registration_stage.py:192-216 | lines are answered by the first that is a metaData, with its schema, or no JSON, as malformed; without one there is no metadata |
| DeltaLog.ScanStopsAt | src/data_platform/processing/catalog/silver_catalog_registration_stage.py:177-216 | a log with damaged lines is answered by its newest commit that has a metaData or a damaged line; no older commit matters |
| DeltaLog.TwoMetaDataDisagree | src/data_platform/processing/catalog/silver_catalog_registration_stage.py:198-211 | with two different metaData in one commit the scan answers with the first, the table has the second |
| StorageLocation.ComponentsOfJoin | src/data_platform/storage/models/storage_location.py:54-58 | a joined path has the components it was joined from, with or without a slash at its end |
| StorageLocation.NormalKeyKeepsPath | src/data_platform/storage/models/storage_location.py:41-58 | normalising keeps the sequence of real components and whether there is a trailing slash |
| StorageLocation.NormalKeyIsNormal | src/data_platform/storage/models/storage_location.py:41-58 | without stripping, normalising again changes nothing |
| StorageLocation.NormalKeyIsTidy | src/data_platform/storage/models/storage_location.py:41-58 | a normalised key is its components with one slash between them, a dot if there is none, and one slash at the end if the key had one |
| StorageLocation.OnlyDotsAreDropped | src/data_platform/storage/models/storage_location.py:54-58 | of the pieces between slashes only the empty ones and "." are dropped |
| StorageLocation.NormalKeyIsShort | src/data_platform/storage/models/storage_location.py:41-58 | normalising never lengthens a key |
| StorageLocation.LocatedParts | src/data_platform/storage/models/storage_location.py:28-62 | scheme, bucket and key come out non-empty, scheme and bucket stable under another pass |
| StorageLocation.LocateAccepts | src/data_platform/storage/models/storage_location.py:28-40 | a location is accepted exactly if no part is blank, and otherwise the first blank one is named |
| StorageLocation.LocateKeeps | src/data_platform/storage/models/storage_location.py:28-62 | its scheme is the one given in lower case and its bucket the one given, without the white space around them, and its key has the path of the key given |
| StorageLocation.SpacesAre | src/data_platform/storage/models/storage_location.py:28-30 | which characters are white space |
| StorageLocation.LocateIsIdempotent | src/data_platform/storage/models/storage_location.py:28-62 | normalising a location again gives it back exactly when neither end of its key is white space |
| StorageLocation.CleanEndsOfComponents | src/data_platform/storage/models/storage_location.py:28-62 | the same condition in terms of the key given: its first component does not begin with white space, and its last does not end with it unless a slash follows |
| StorageLocation.SpaceAfterSlash | src/data_platform/storage/models/storage_location.py:28-62 | white space behind a leading slash survives the first normalisation and not the second |
| StorageLocation.ParseOfUri | src/data_platform/storage/models/storage_location.py:121-145 | a URI whose parts can stand in it is taken apart as written |
| StorageLocation.TightParse | src/data_platform/storage/models/storage_location.py:121-145 | a parse that loses no character has dropped no query, fragment, parameter or control character |
| StorageLocation.RoundTrip | src/data_platform/storage/models/storage_location.py:76-81 | reading a location back from its URI gives the same location exactly when the scheme is a valid one, bucket and key hold no delimiter or unsafe character, the last segment no parameters where the scheme has them, and the key's ends are clean |
| StorageLocation.ObjectStoreRoundTrip | src/data_platform/storage/models/storage_location.py:76-81 | for s3, s3a, gs, abfs and abfss the conditions spelled out; a ; does no harm there |
| StorageLocation.WebRoundTrip | src/data_platform/storage/models/storage_location.py:76-81 | for http, https, ftp and sftp the last segment must be free of ; besides |
| StorageLocation.UriErrors | src/data_platform/storage/models/storage_location.py:131-138 | a URI without a scheme and one without a bucket are turned down as such |
| StorageLocation.SchemesAre | src/data_platform/storage/models/storage_location.py:121-145 | which strings the parser takes for a scheme |
| StorageLocation.LeadingControlsDoNotCount | src/data_platform/storage/models/storage_location.py:121-145 | spaces and control characters before a URI change nothing of its parse |
| StorageLocation.PlainKeysRoundTrip | src/data_platform/storage/models/storage_location.py:121-145 | a key without white space, '?', '#' and ';' normalises once and for all and survives the round trip |
| StorageLocation.ParametersAreCut | src/data_platform/storage/models/storage_location.py:121-145 | a ';' in the last segment is lost on the way back for schemes with parameters |
| StorageLocation.NormalKeyAll | src/data_platform/storage/models/storage_location.py:41-58 | normalising brings in no character but '.' and '/' |

## Left out

- Kafka, Delta, Postgres and Spark internals: a log with committed offsets, an append-only table with atomic appends, tables with conditional updates, and sequences of rows stand for them.
- Log retention and topic re-creation: the log only grows.
- Prometheus metrics, logging, settings, DAG wiring, Glue, Databricks and Airflow clients, context writers: plumbing.
- coerce_record and Arrow schemas: building the table is a step that succeeds or fails.
- The thread pool's limit of eight workers, and entities waiting for a worker: a submitted flush may start at any later time.
- A write that raised and lands only later: a failed append lands at once or never.
- BronzeConsumer.Round: one clock reading of each kind is shared by the turns of a round; the entities' flush tasks run between turns through their own methods.
- BronzeDrain.BacklogIsReadInTime: assumes flushes that succeed before the entity's next turn and polls that return something whenever something waits, in sequence; it is not a claim about a failing broker.
- Times, durations and metadata in the runtime, results and spans, and the stage and trace names.
- Policies other than the retry and failure policies: Policies.Merge covers any decisions, the executors only these; the timeout policy reads the clock.
- Hooks and policies that raise, cancellation of a task from outside, and exceptions that are not ordinary errors.
- Null stages in a pipeline: the type of a stage excludes them.
- Error fields of a failed result: not claimed to be present; when the two executors agree on them is ExecutorEquivalence.SameErrorFieldsIff.
- Order values that are null in the keyed de-duplication, and the added metadata columns; column names are taken as normalised.
- Several simulator processes at once: inventory rows change only by the modelled steps.
- The rollback of a batch that raised: the model keeps the connection's own view; what a rollback falls back to is the last of the commits RunBatch speaks about. A reservation of an order that then raises is one of the changes undone.
- Marketplace.RunBatch: ends with the flush before the tick; the tick is Orders.OrderDatabase.ProgressEligibleOrders, and OrderLife interleaves ticks with orders.
- The first history row of an order is modelled twice: as a buffered row in BatchWriter and Marketplace, and as the start of a history in OrderLife.
- Executors.RunInGroups: the order of events is claimed for pipelines with distinct stage ids, the only ones Pipelines.Validate accepts.
- Unique constraints of payments, shipments and reviews: a buffered row that conflicts is dropped by the database without a trace in the model.
- Prices, amounts, fakers and generated column values; the text of the multi-row insert.
- OrderLife.EveryOrderLivesItsLife: assumes no crash between the insert of an order and the flush of its first history row, and orders that start in PENDING (none from the one-time backfill).
- The simulator's clock: a tick has one time, as a transaction has in the database.
- DeltaLog.ScanIsReplay: the commit files are the listing's only objects whose name ends in ".json"; compacted or staged commits beside them are not part of the log.
- StorageLocation.Lower: letters outside ASCII in a scheme keep their case; such a scheme is never a valid one in a URI.
- StorageLocation.FromUri: which network locations the standard parser turns down by itself (brackets, characters that normalise to delimiters) is a parameter.
- The derived name, stem, suffix and parent of a location, and storage, table and context layers around it.
