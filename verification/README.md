# Scan scheduling, reorg handling and locking of a multi-chain scanner

This project models the core of the multi-chain block scanner and proves what its protocols keep. It models four
connected parts and a layer of arithmetic and strings below them. Check it with `dafny verify dfyconfig.toml`.

**Scanning.** `ScanScheduler` is one chain's scheduler as a step system: the generation tick, the bounded task and result
channels, the workers, the result handlers, sleeping retries, dropped results and watermark resets are separate threads,
and a run is any interleaving of their atomic steps. `ScanResults` and `ScanOrder` hold the theorems over all runs,
`TaskRanges` the cutting of a range into batches, `Worker` the scan of one task, `EndToEnd` what both together say about
the requests to the node, and `ChainScanner` the object whose methods are shown to be steps (or whole runs) of the step
system. `Watermarks` and `HashCache` are the watermark manager and its block-hash cache, which cleanup threads prune
without a lock; `HashReset` is about a reset while such threads are under way, `SortedHeights` about sets of heights.

**Reorgs.** `ForkPoint` is the search for the fork between the stored blocks and the node's chain. `Storage` holds the
tables and the statements that a rollback sends to them. `Rollback` has the six-step pipeline with its retries and the
detector's own, shorter rollback, and `ReorgHandler` the consumer's handler of the same events. `StatusMachine` is the
transaction status machine, built in or given by rules.

**Locks.** `LockProtocol` is the Redis lock in time: many lock objects, lost requests, lost replies, expiry.

**Arithmetic and strings.** `Sharding`, `NodeChoice`, `RunningAverage`, `Balance`, `Numerals`, `Keys`, `BlockCache`.
`Machine` writes out Go's fixed-width integers, and division as repeated subtraction (`DivModIsDivision` shows that it is
`/` and `%`), which keeps the proofs linear.

Effects that the code cannot control are parameters: the replies of the chain client, chain heights, whether a lock was
granted, the random draw, whether the context was cancelled, and for each write to a store one of *clean*, *lost* (no
effect, an error) and *late* (the effect, and still an error).

## What the code does not do

Several properties that the design suggests are false of the code. The code is modelled as it is, and each entry names
the lemma with the exact condition, or the witness.

- "All blocks up to the scanned height were scanned" is no invariant, since a later batch can finish first. Without
  failing scans it holds in all runs exactly for at most one worker (`FailureFreeRunsScanAllIff`), with failing scans
  only of a scanner without workers (`RunsScanAllIff`). What holds always is `Conservation`.
- A reset makes the scanner rescan everything above it exactly when nothing under way can overtake the reset
  (`RescanSafeIff`).
- Success of a generated task means that its blocks were requested exactly if the batch size is positive
  (`SuccessMeansRequestedIff`). With a batch size of zero a task is one block long, the parallel path makes empty batches,
  and the task succeeds once these are answered, as the EVM client always does (`ZeroBatchSizeScansNothing`).
- The parallel scan covers a range only if it fits its width (`ParallelCoversIff`).
- Every event of positive depth that the detector reports fails the pipeline's validation on the store it was found
  with, because the new block is not stored (`ReportedEventsNeverValidate`); an event of the fork search deletes nothing
  (`ForkPointRollbackIsEmpty`), and a rollback covers the whole fork exactly when the fork is the tip
  (`RollbackCoversForkIff`).
- A failure after the block deletion makes every later retry fail (`RetrySucceedsIff`).
- The consumer's handler is poisoned in the same way (`HandlingSucceedsIff`). It deletes blocks without resetting the
  watermark, so a quiet scanner never scans them again exactly if they are at or below its watermark
  (`HandlerLeavesHoleIff`).
- Over the database the status machine never learns of its own updates, since it writes the status column and reads the
  JSON blob (`DatabaseNeverLearns`, `DatabaseTransitionsUnboundedIff`). Over a store that reflects updates, two overlapping requests can
  overwrite a revert exactly where a transition is allowed at all (`CanUndoIff`).
- The documented order finalized ≤ confirmed ≤ scanned is not enforced (`OrderSurvivesIff`), and the reorg boundary is
  max(0, height − depth) only while the difference fits into int64 (`ReorgBoundaryIff`).
- Extending a lock that is relied on is safe, whatever the network does, exactly if the TTL is a whole number of seconds
  and the lock does not get shorter (`RelyingExtendSafeIff`): the store gets truncated seconds, and a reply may be lost.
- Lock values are clock readings. Locks are safe exactly if no two objects of one key that can be granted share a value
  (`SafeIffValuesDistinct`).
- `LockWithRetry` without a single try returns no lock and no error (`LockManager.LockWithRetry`).
- After a reset a cleanup of before it can delete hashes that should stay (`ResetKeepsTopIff` has the exact condition).
- A running average is exact up to rounding only while its total fits into int64 (`StepExactIff`).
- Shards are no partition where uint64 is too narrow (`PartitionIff`), and the two ways to assign a block to a shard
  rarely agree (`AssignmentsAgreeIff`).
- A balance printed with more than a million decimals cannot be read back (`ReadsBackIff`).
- Besides an ignored cache failure, a late database failure and a rollback leave stale cached blocks
  (`StepKeepsCoherenceIff`).

## Model

| member | source | states |
|---|---|---|
| ScanResults.Conservation | internal/scheduler/chain_scanner.go:268-445 | In every reset-free run from a quiet state, under any interleaving, each block passed by the watermark lies in a task generated in the run that is in exactly one place (queued, running, in the result channel, being handled, awaiting retry, applied, abandoned, dropped); the watermark never passes the largest min(finalized, current) read |
| ScanResults.QuiescentRunScannedAll | internal/scheduler/chain_scanner.go:358-396 | When all is quiet again and no failure was abandoned or dropped, every passed block was in a successful scan |
| ScanOrder.FailureFreeRunsScanAllIff | internal/scheduler/chain_scanner.go:358-396 | Every reset-free run from a quiet state without a failing scan has scanned each block that the watermark passed, exactly when there is at most one worker |
| ScanOrder.OneWorkerScansAll | internal/scheduler/chain_scanner.go:358-396 | With one worker tasks finish in the order of their generation, so the watermark passes no unscanned block |
| ScanOrder.WatermarkCanSkipRunningBlocks | internal/scheduler/chain_scanner.go:378-383 | With two workers or more, and any batch size, a run without a failure ends with the watermark past block 1, which is still being scanned |
| ScanOrder.RunsScanAllIff | internal/scheduler/chain_scanner.go:399-445 | With failing scans this holds in all runs exactly when there is no worker |
| EndToEnd.PassedBlocksWereAnswered | internal/scheduler/worker.go:69-183 | With a positive batch size, if each Finish tells the outcome of a scan, a quiet reset-free run with nothing abandoned or dropped as failed has requested every passed block, in a scan that requested exactly its task, and the node answered |
| EndToEnd.OneWorkerWasAnswered | internal/scheduler/worker.go:69-183 | With one worker and no failing scan the same holds at every moment of every reset-free run |
| ScanResults.NothingBelowIsScannedAgain | internal/scheduler/chain_scanner.go:300-324 | Without a reset no run from a quiet state generates a task for a block at or below the watermark |
| ScanResults.NeverGeneratedIff | internal/scheduler/chain_scanner.go:300-354 | From a quiet state no reset-free run generates a task for a block exactly when it is at or below the watermark |
| ScanResults.RescanSafeIff | internal/scheduler/watermark.go:245-299 | After a reset to h, until the next one, every block in (h, watermark] belongs to a task generated after the reset, exactly when at the reset no job that can still succeed ends above h and no tick is ahead of h |
| ScanResults.QuietResetIsSafe | internal/scheduler/watermark.go:245-299 | The same for a reset of a quiet scanner after any run from the start, with earlier resets |
| ScanScheduler.RunAccounted | internal/scheduler/worker.go:117-124 | In every run, resets included, no task is lost or duplicated, only successes were applied and only failures abandoned, and channels and threads stay within their limits |
| ScanScheduler.JobsAreShaped | internal/scheduler/chain_scanner.go:300-332 | In every run each job, wherever it is, is for at least one block from 1 on and at most one batch |
| ScanScheduler.ResultIsDroppedIff | internal/scheduler/worker.go:117-124 | In every run a finished task is lost exactly if ten results per worker wait when it finishes, else its result waits behind them; no other step loses anything |
| ScanScheduler.RunKeepsRetries | internal/scheduler/chain_scanner.go:416-445 | In every run no job is retried more than MaxRetries times, and a job is abandoned exactly with its retries used up |
| ScanScheduler.WatermarkIsHighestSuccess | internal/scheduler/chain_scanner.go:369-396 | In every reset-free run with granted locks the watermark is the highest end of the handled successes |
| ScanScheduler.ChannelsAreFirstInFirstOut | internal/scheduler/chain_scanner.go:96-97 | Both channels give out jobs in the order in which they came |
| ScanScheduler.BatchForIs | internal/scheduler/chain_scanner.go:307-321 | Batches are whole up to 5 queued tasks a worker, half up to 8, a quarter above, and at least one block |
| ChainScanner.Scanner.BatchSize | internal/scheduler/chain_scanner.go:307-321 | The batch size that back pressure gives for the length of the queue |
| ScanScheduler.RunChased | internal/scheduler/chain_scanner.go:300-354 | In every reset-free run the ranges generated since a point leave no gap, and nothing under way can lift the watermark or start a tick beyond their top |
| ChainScanner.Scanner.GenerateTasks | internal/scheduler/chain_scanner.go:268-355 | One tick enqueues exactly the tasks of its loop, wrap-around included; without a wrap it is a run of the step system and these are the first batches of the due range, all of them or as many as the queue had room for; without a height from the node it does nothing |
| ChainScanner.Scanner.EnqueueRange | internal/scheduler/chain_scanner.go:324-354 | The loop of a tick makes its tasks batch by batch, with wrap-around, until the range or the room in the queue ends |
| ChainScanner.TickSpansAreChunks | internal/scheduler/chain_scanner.go:324-332 | Without a wrap these tasks are the first batches of the range |
| ChainScanner.Scanner.ProcessTask | internal/scheduler/worker.go:69-127 | A worker's scan of a task is one Finish step with the outcome of the scan; the result is sent exactly if fewer than ten a worker wait, else dropped; with a positive batch size success of a task as ticks generate it means that all its blocks were requested in order |
| ChainScanner.Scanner.HandleResult | internal/scheduler/chain_scanner.go:358-445 | Handling a result is one Handle step: a success is applied and raises the watermark to at least its end under the lock, a failure waits for a retry or is abandoned |
| ChainScanner.Scanner.HandleSuccessResult | internal/scheduler/chain_scanner.go:369-396 | A success raises the watermark to at least the task's end, if the lock is granted, and is recorded in any case |
| ChainScanner.Scanner.HandleFailureResult | internal/scheduler/chain_scanner.go:399-445 | A failure waits for a retry with its count raised, or is abandoned when the retries are used up |
| ChainScanner.Scanner.ResetWatermark | internal/scheduler/chain_scanner.go:576-578 | A reset is one Reset step; it reports success when the lock is granted and the height is not above the watermark |
| TaskRanges.ChunksConsecutive | internal/scheduler/chain_scanner.go:324-332 | A tick's tasks are numbered in order, adjoin each other, are never empty or longer than the batch, and end at the end of the due range |
| TaskRanges.ChunksHeights | internal/scheduler/worker.go:153-159 | The heights of the batches, one after the other, are exactly the heights of the range in ascending order |
| Worker.GeneratedTasksAreSequentialIff | internal/scheduler/worker.go:130-146 | Every task generated in any run, resets included, takes the sequential path exactly when the batch size is positive and its double does not overflow, else the parallel one |
| Worker.SuccessMeansRequestedIff | internal/scheduler/worker.go:130-264 | For every task generated in any run: whatever the client does, success means that all heights were requested, exactly when the batch size is positive |
| Worker.ZeroBatchSizeScansNothing | internal/scheduler/worker.go:198-208 | With a batch size of zero a scan requests no height, and succeeds if empty requests are answered in time |
| Worker.TallyAdds | internal/scheduler/worker.go:167-173 | Each returned block counts once with its transactions, a nil block not at all, and replies add up |
| Worker.TotalIsTally | internal/scheduler/worker.go:149-183 | The totals of a scan are those of all its replies together |
| Worker.PathIs | internal/scheduler/worker.go:133-145 | A range that fits into int64 is scanned in sequence exactly up to two batches |
| Worker.ScanBlocksSequential | internal/scheduler/worker.go:149-183 | Success exactly if all batches are answered in time; then each block was requested once in ascending order and the totals are those of the replies; else the scan stopped at the first batch that failed or found the context cancelled |
| Worker.ParallelBatches | internal/scheduler/worker.go:186-208 | The parallel path makes at most `width` batches, a prefix of the range; empty ones for a batch size of zero; none for a range that starts behind its end |
| Worker.ScanBlocksParallel | internal/scheduler/worker.go:186-264 | All its batches are requested; success exactly if all are answered in time, and then the totals are those of the replies |
| Worker.ParallelCoversIff | internal/scheduler/worker.go:198-208 | The prefix is the whole range exactly when the range has at most width times batch blocks |
| Worker.ScanBlocks | internal/scheduler/worker.go:130-146 | An invalid range fails without a request; else the outcome is that of the path taken, for every batch size |
| HashCache.LargestHeightsStay | internal/scheduler/watermark.go:225-232 | In any interleaving of stores with any number of overlapping unlocked cleanups the keep-count largest heights ever stored are still cached with their last hash |
| HashReset.ResetKeepsTopIff | internal/scheduler/watermark.go:245-340 | After a reset the largest heights of what remains, and of what is stored later, stay cached in every run exactly when each cleanup under way deletes only heights with keep-count larger ones and counts no height that is gone and has fewer (height 0 aside) |
| HashCache.KeepCountIff | internal/scheduler/watermark.go:303-306 | The keep count is twice the depth exactly below 2^62 |
| HashCache.CleanupKeepsTheTop | internal/scheduler/watermark.go:302-329 | An undisturbed cleanup leaves exactly the min(n, keep) largest heights |
| Watermarks.ReorgBoundaryIff | internal/scheduler/watermark.go:119-124 | The boundary is max(0, height − depth) exactly when the difference fits into int64 |
| Watermarks.BoundaryInvariant | internal/scheduler/watermark.go:82-299 | In every run with resets the boundary is that of the scanned height at the last update that computed it, hence at least max(0, scanned − depth), with equality exactly when no reset lies in between or that height is within depth |
| Watermarks.BoundaryExactAfter | internal/scheduler/watermark.go:105-127 | Right after an update that computes it, the boundary is exact |
| Watermarks.RunsAreMonotone | internal/scheduler/watermark.go:146-222 | Confirmed and finalized never decrease; scanned does only in a reset |
| Watermarks.OrderSurvivesIff | internal/scheduler/watermark.go:146-299 | finalized ≤ confirmed ≤ scanned survives an update exactly when the caller's height respects it |
| Watermarks.HeightsAreLargest | internal/scheduler/watermark.go:82-222 | In every run, resets included, confirmed is the largest height confirmed and finalized the largest finalized, whatever was scanned; without a reset scanned is the largest scanned |
| Watermarks.WatermarkManager.UpdateScannedHeight | internal/scheduler/watermark.go:82-143 | With the lock scanned becomes the larger of old and new; the boundary follows a rise; confirmed and finalized stay; a refused lock changes nothing |
| Watermarks.WatermarkManager.UpdateConfirmedHeight | internal/scheduler/watermark.go:146-186 | Confirmed becomes the larger of old and new; on a rise the boundary is computed from scanned; scanned and finalized stay |
| Watermarks.WatermarkManager.UpdateFinalizedHeight | internal/scheduler/watermark.go:189-222 | Finalized becomes the larger of old and new; all else stays |
| Watermarks.WatermarkManager.SetBlockHash | internal/scheduler/watermark.go:225-232 | Stores the hash under its height; the cleanup that it starts runs later |
| Watermarks.WatermarkManager.ResetToHeight | internal/scheduler/watermark.go:245-299 | Lowers the scanned height, keeps the boundary, and forgets exactly the hashes above; a higher height is refused |
| Watermarks.WatermarkManager.CleanupBlockHashesAfter | internal/scheduler/watermark.go:332-340 | Keeps exactly the hashes up to the height |
| Watermarks.WatermarkManager.CleanupOldBlockHashes | internal/scheduler/watermark.go:302-329 | Keeps exactly the top keep-count hashes |
| ForkPoint.ReorgDetector.FindForkPoint | internal/reorg/detector.go:341-406 | The descending loop computes the recursive search and asks for no height above the local block's plus one |
| ForkPoint.ReorgDetector.DetectReorg | internal/reorg/detector.go:254-338 | The detector's verdict for every relation of the two heights, at equal heights field by field; it never asks for a block past the chain head |
| ForkPoint.EqualHeightsIff | internal/reorg/detector.go:303-321 | At equal heights the event (tip, stored hash, tip, node's hash, depth 1) is reported exactly if the hashes differ, and nothing exactly if they are equal |
| ForkPoint.LowerNodeIsNoReorg | internal/reorg/detector.go:293-300 | A node behind the store is never taken for a reorg |
| ForkPoint.NoReorgIff | internal/reorg/detector.go:341-406 | With the node ahead nothing is reported, without an error, exactly if the greatest agreeing height is fewer than 100 and fewer than threshold heights below the tip |
| ForkPoint.ForkPointFoundIff | internal/reorg/detector.go:341-406 | On a snapshot an event is reported exactly when the greatest agreeing height is fewer than 100 and at least threshold heights below the tip; then Old is that height, New = Old + 1 and Depth = tip − Old |
| ForkPoint.ForkPointSplitsStore | internal/reorg/detector.go:341-406 | On hash-linked chains all heights up to Old agree and all above, to the tip, disagree |
| ForkPoint.DetectedBlockIsNotStored | internal/reorg/detector.go:293-388 | The new block of any reported event of positive depth is not the stored one at its height; New = Old exactly when the heights are equal, else New = Old + 1 |
| ForkPoint.RollbackCoversForkIff | internal/reorg/detector.go:530-539 | A rollback of the event removes all disagreeing stored blocks exactly when node and store are equally high and agree below the tip |
| Storage.DeleteBlocksKeeps | internal/storage/database.go:270-276 | A block row survives exactly when it is outside the chain's range |
| Storage.DeleteLogsKeeps | internal/storage/database.go:543-549 | A log row survives exactly when it is outside the chain's range |
| Storage.DeleteBlocksRowByRow | internal/storage/database.go:270-276 | Deleting goes row by row, so the other rows keep order and copies |
| Storage.SavedRows | internal/storage/database.go:177-204 | Saving puts a block in the place of the row with its chain and number; all other rows stay |
| Storage.FoundAtNumberIff | internal/storage/database.go:228-246 | Where a hash belongs to one number, the lookup finds that number exactly if some row has both |
| Storage.StatementsAreIdempotent | internal/storage/database.go:431-441 | Repeating a range delete or a range update changes nothing more |
| Storage.BlockByHashSound | internal/storage/database.go:228-246 | The lookup by hash finds a stored block of the chain with that hash, and fails only if there is none |
| Storage.SavedIsFound | internal/storage/database.go:177-225 | Saving a block changes the lookup by number at its chain and number, and nowhere else |
| Storage.DeletedIsGone | internal/storage/database.go:207-276 | Deleting a range empties the lookup inside it, and changes nothing outside |
| Rollback.PipelineRollsBack | internal/reorg/processor.go:294-350 | A successful pipeline removes exactly the chain's blocks and logs in [New, Old], reverts exactly its transactions there, sets the watermark to Old − 1, records the event as processed, and touches nothing else |
| Rollback.PipelineEffects | internal/reorg/processor.go:321-350 | Each table of a pipeline changes exactly if the event is valid, all statements before succeeded and its own is not lost |
| Rollback.PipelineEndEffects | internal/reorg/processor.go:526-565 | The same of the watermark and the events |
| Rollback.ShortcutEffects | internal/reorg/detector.go:509-559 | The tables of the detector's rollback, which resets first and marks last |
| Rollback.ShortcutEndEffects | internal/reorg/detector.go:509-559 | Its watermark and its events |
| Rollback.ValidatesIff | internal/reorg/processor.go:371-405 | Where a hash belongs to one number, an event is valid exactly if its fields are set and some row of the chain has its new hash and new number |
| Rollback.SavedReorgRollsBackIff | internal/reorg/processor.go:294-405 | Once the node's block is stored over the tip, the event reported for equal heights is rolled back exactly if nothing fails, chain and hashes have a name, the tip is not block 0 and the watermark can be reset |
| Rollback.SuccessIff | internal/reorg/processor.go:371-405 | The pipeline succeeds exactly without a fault on a valid event with a watermark that can be reset; the detector's rollback needs no valid event |
| Rollback.PipelineResetsLast | internal/reorg/processor.go:321-350 | The watermark moves only after all rows were rolled back |
| Rollback.AnyOrderIsTheSame | internal/reorg/processor.go:321-350 | The rollback statements in any two orders with any repetitions end in equal tables and watermarks, as long as the same statements occur |
| Rollback.OrderIndependence | internal/reorg/detector.go:509-559 | Both orders of the statements end in equal tables and watermarks whenever both succeed |
| Rollback.RetrySucceedsIff | internal/reorg/processor.go:259-291 | For New ≤ Old the retries succeed exactly when the event is valid, the watermark can be reset, and some try meets no fault while every earlier one failed before its block deletion took effect; the result is that of one try |
| Rollback.Poisoned | internal/reorg/processor.go:394-402 | Once no block is stored at the new number, every further try fails and changes nothing |
| Rollback.ShortcutAlwaysRepairs | internal/reorg/detector.go:509-559 | After any tries of either rollback with any faults, one undisturbed try of the detector's rollback completes it, with the rows and watermarks of a first undisturbed try |
| Rollback.ReportedEventsNeverValidate | internal/reorg/processor.go:393-402 | No reported event of positive depth passes validation on the store it was found with, so all retries fail and change nothing |
| Rollback.ForkPointRollbackIsEmpty | internal/reorg/detector.go:530-547 | Rolling back an event of the fork search keeps all rows and only moves the watermark |
| Rollback.RolledBackTransactionsStillMove | internal/storage/database.go:343-361 | A rolled-back transaction is judged by the status machine as before, since its blob keeps the old status |
| Rollback.ReorgHandling.ValidateEvent | internal/reorg/processor.go:371-405 | Where a hash belongs to one number, accepts exactly the events with all fields set whose new hash and number some row of the chain has, if the lookup works |
| Rollback.ReorgHandling.ResetScannerWatermark | internal/reorg/processor.go:526-551 | Succeeds exactly with the lock, a scanner and a watermark not below the height under the old number, and then sets it there; else no effect |
| Rollback.ReorgHandling.ProcessEvent | internal/reorg/processor.go:294-368 | The six steps, stopping at the first that fails, compute the pipeline |
| Rollback.ReorgHandling.ProcessEventWithRetry | internal/reorg/processor.go:259-291 | The loop computes the retries and makes at most MaxRetries + 1 attempts |
| Rollback.ReorgHandling.AutoProcessReorg | internal/reorg/detector.go:509-559 | The five statements of the detector, stopping at the first that fails |
| ReorgHandler.UniqueKeysForceNothing | internal/consumer/reorg_handler.go:144-193 | With one row per transaction the loop that forces each status adds nothing to the range statement before it, whatever fails in it |
| ReorgHandler.HandledLikePipeline | internal/consumer/reorg_handler.go:46-102 | Where both complete, the handler leaves the same tables as the pipeline |
| ReorgHandler.HandleEffects | internal/consumer/reorg_handler.go:46-102 | Each table changes exactly if the event is valid, all statements before succeeded and its own is not lost; success exactly without a fault |
| ReorgHandler.ValidatesIff | internal/consumer/reorg_handler.go:105-141 | Where a hash belongs to one number, valid are exactly the depths from 1 to 1000 with both hashes set and a row with the new hash and number |
| ReorgHandler.SavedReorgIsHandledIff | internal/consumer/reorg_handler.go:46-141 | Once the node's block is stored over the tip, the event reported for equal heights is handled exactly if nothing fails and both hashes are set |
| ReorgHandler.HandlerLeavesHoleIff | internal/consumer/reorg_handler.go:253-279 | The handled range holds no block any more, and a quiet scanner generates no task for a block of it up to the next reset exactly when the watermark is at or above that block |
| ReorgHandler.HandlingSucceedsIff | internal/consumer/reorg_handler.go:46-102 | For New ≤ Old, handling an event again and again succeeds exactly when it is valid and some call meets no fault while every earlier one failed before its block deletion took effect |
| ReorgHandler.Poisoned | internal/consumer/reorg_handler.go:129-138 | Once no block is stored at the new number, further handling fails and changes nothing |
| ReorgHandler.ShortcutRepairsHandling | internal/reorg/detector.go:509-559 | Whatever failed handlings left, one undisturbed rollback of the detector completes it |
| ReorgHandler.ReportedEventsAreRefused | internal/consumer/reorg_handler.go:105-141 | The handler refuses every event of the detector on the store it was found with |
| ReorgHandler.DefaultReorgHandler.ValidateReorgEvent | internal/consumer/reorg_handler.go:105-141 | Accepts exactly depths from 1 to 1000 with both hashes set and the new block stored under the new number |
| ReorgHandler.DefaultReorgHandler.MarkTransactionsAsReverted | internal/consumer/reorg_handler.go:144-193 | Reverts the range; beyond that the loop over its blocks touches only rows that share their key with one in the range |
| ReorgHandler.DefaultReorgHandler.HandleReorg | internal/consumer/reorg_handler.go:46-102 | Refuses an event in progress without effect; otherwise succeeds exactly on a valid event without a fault, and leaves the tables, success or not, as the steps up to the first failure do; the set of events in progress is as before |
| StatusMachine.RunsRaiseRank | internal/consumer/state_machine.go:43-102 | In any run each write raises the rank, so a transaction is written at most twice, and finalized, reverted or unknown statuses stay |
| StatusMachine.StatusIsLastWritten | internal/consumer/state_machine.go:43-108 | In every run a status is what the last accepted request that was not lost asked for, or the first one |
| StatusMachine.ColumnIsLastAccepted | internal/storage/database.go:418-428 | Over the database the column ends as the last request asked for that the saved status allows |
| StatusMachine.RunsTouchOnlyTheirKeys | internal/consumer/state_machine.go:43-67 | A transaction that no request names keeps its status |
| StatusMachine.FindRuleIff | internal/consumer/state_machine.go:266-274 | A rule is found exactly for the transitions that the list names |
| StatusMachine.EquivalentIff | internal/consumer/state_machine.go:238-274 | The rule-based machine accepts the same in every run exactly when its rules name the four built-in transitions |
| StatusMachine.DatabaseNeverLearns | internal/storage/database.go:343-428 | Over the database each request is judged by the status first saved |
| StatusMachine.DatabaseTransitionsUnboundedIff | internal/storage/database.go:418-428 | There runs of every length are accepted exactly from the statuses that allow a transition |
| StatusMachine.StateMachine.ProcessTransaction | internal/consumer/state_machine.go:43-67 | Writes the status asked for exactly when the transaction exists, the transition is accepted and the write is not lost; success exactly if it is also acknowledged |
| StatusMachine.StateMachine.ForceSetState | internal/storage/redis.go:213-246 | Over a store of blobs it writes any status of a known transaction, allowed or not, and fails for an unknown one |
| StatusMachine.DatabaseStateMachine.ForceSetState | internal/storage/database.go:418-428 | Over the database it writes the column of a known transaction, and succeeds without effect for an unknown one |
| StatusMachine.DatabaseStateMachine.ProcessTransaction | internal/consumer/state_machine.go:43-67 | Over the database it judges by the blob and writes the column |
| StatusMachine.FinalStaysIff | internal/consumer/state_machine.go:43-67 | With overlapping requests a final status stays in every run exactly when all requests under way ask for the same one |
| StatusMachine.CanUndoIff | internal/consumer/state_machine.go:43-67 | Overlapping requests can move a transaction on from a final status exactly when they start from one that allows a transition |
| LockProtocol.MutualExclusion | pkg/lock/lock.go:51-112 | Over lock objects with distinct values, in every run with lost requests, lost replies and passing time whose Extend calls are faithful, no two objects of a key are relied on at once |
| LockProtocol.DisciplineExcludes | pkg/lock/lock.go:51-112 | Callers whose ttls are at most T, whole seconds, and who always extend by T exclude each other in every run, whatever the network does |
| LockProtocol.ForeignEntriesAreSafe | pkg/lock/lock.go:65-112 | No call changes another key or a live entry with another value, even of an owner whose own entry expired |
| LockProtocol.ExtendSafeIff | pkg/lock/lock.go:90-112 | With a competitor, an Extend under a given network outcome is safe exactly when it does not leave the store's expiry before the moment the caller relies on |
| LockProtocol.ExtendSafeWhateverHappensIff | pkg/lock/lock.go:90-112 | Under every network outcome it is safe exactly when the ttl is whole seconds or not positive, and a caller that still relies on the lock has no deadline beyond the one that the store will set |
| LockProtocol.RelyingExtendSafeIff | pkg/lock/lock.go:90-112 | For a caller that relies on its lock: exactly when the ttl is whole seconds and the lock does not get shorter |
| LockProtocol.SafeIffValuesDistinct | pkg/lock/lock.go:124-126 | From a state with nothing granted and no entry in the way, faithful runs are safe exactly when no two objects of one key with a ttl that is not negative share a value |
| LockProtocol.RedisLock.Lock | pkg/lock/lock.go:51-62 | Granted exactly with a clean reply, a ttl that is not negative and no live entry; a conflict exactly with a live one; the entry is set with the value and the ttl |
| LockProtocol.RedisLock.Unlock | pkg/lock/lock.go:65-87 | Deletes exactly a live entry with the own value, of a lock held; succeeds exactly if it did and the reply came |
| LockProtocol.RedisLock.Extend | pkg/lock/lock.go:90-112 | Sets the expiry of exactly a live entry with the own value, to the whole seconds of the ttl, below one second by deleting it |
| LockProtocol.LockManager.LockWithRetry | pkg/lock/lock.go:162-179 | A lock is returned exactly if some try before a cancellation finds no live entry, a clean reply and a ttl that is not negative, and it is that of the first such try; no error means a lock exactly for at least one try |
| Sharding.PartitionIff | internal/scheduler/sharding.go:68-124 | For start ≤ end and a positive count the shards hold every block of the range exactly once and no other block, exactly when uint64 is wide enough: not (end = 2^64 − 1 and either start = 0 with two shards or more, or fewer blocks than shards) |
| Sharding.ShardsAreConsecutive | internal/scheduler/sharding.go:73-88 | Shards adjoin from start to end, sizes differ by at most one with the larger ones first, a surplus shard ends just below its start |
| Sharding.CutNeverFires | internal/scheduler/sharding.go:90-93 | The final cut at the last block never changes a shard |
| Sharding.AssignmentsAgreeIff | internal/scheduler/sharding.go:40-50 | The shard of a single block is its shard by range, uint64 being wide enough, exactly for one shard, and otherwise by address for a single block, by number for at most count blocks from a multiple of the count on |
| Sharding.ShardingManager.GetShardRange | internal/scheduler/sharding.go:68-97 | The two updated locals end as the range of the shard |
| Sharding.ShardingManager.GetAllShardRanges | internal/scheduler/sharding.go:100-124 | The shards in order, a partition where uint64 is wide enough |
| Sharding.ShardingManager.NewShardingManager | internal/scheduler/sharding.go:22-37 | A manager exists exactly if sharding is enabled with a positive count |
| NodeChoice.FairIff | internal/node/node_manager.go:160-187 | Each node is chosen by exactly as many draws as its weight, exactly when no weight is negative |
| NodeChoice.SelectNodeByWeight | internal/node/node_manager.go:160-187 | The two loops choose the node of the draw; a total of zero gives the first node, a negative one none |
| NodeChoice.HealthyShare | internal/node/node_manager.go:141-187 | Of the draws below the total weight each healthy node gets as many as its weight, if none is negative |
| NodeChoice.HealthyOneByOne | internal/node/node_manager.go:145-150 | The healthy nodes keep their order and their copies |
| NodeChoice.GetHealthyNode | internal/node/node_manager.go:141-157 | The node of the draw among the healthy ones of the pool; there is none exactly when no node is healthy or the weights' sum is negative |
| RunningAverage.AverageNearSum | internal/consumer/webhook.go:255-257 | After n samples that are not negative and fit, 0 ≤ sum − n·avg ≤ n(n−1)/2 |
| RunningAverage.AverageBetween | internal/reorg/processor.go:648-653 | The average stays between the smallest and the largest sample |
| RunningAverage.StepExactIff | internal/consumer/webhook.go:255-257 | A step loses only the rest of its division exactly when the new total fits into int64 |
| RunningAverage.WebhookStatistics.RecordSuccess | internal/consumer/webhook.go:247-258 | Keeps the average of all recorded latencies |
| RunningAverage.WebhookStatistics.RecordFailure | internal/consumer/webhook.go:261-268 | A failure counts but does not touch the average |
| RunningAverage.ProcessorStatistics.UpdateStatistics | internal/reorg/processor.go:628-654 | Keeps the average of all durations, of successes and failures |
| Balance.ReadsBackIff | pkg/util/util.go:303-327 | Reading the text back and scaling gives the balance exactly when the decimals are at most a million, the widest padding of the formatter |
| Balance.DistinguishesIff | pkg/util/util.go:303-327 | Printing is injective for exactly these decimals |
| Balance.FractionIsTidy | pkg/util/util.go:317-324 | The printed fraction is never empty, never ends in zero and has at most the asked-for digits |
| Balance.FormatBalance | pkg/util/util.go:303-327 | The loop over the decimals and the trimming compute that text; a missing balance prints as 0 |
| Numerals.FormatParseIff | pkg/util/util.go:131-151 | Parsing a formatted block number gives it back, and formatting a parsed text gives it back exactly for lower-case hexadecimal without sign or leading zero |
| Numerals.DecimalParses | pkg/util/util.go:144-146 | Decimal text parses to its number |
| Keys.EventKeysInjective | internal/consumer/reorg_handler.go:47 | Reorg event keys of different chains or numbers differ, for all chain ids |
| Keys.RefusedIffActive | internal/consumer/reorg_handler.go:46-62 | In every run of handlers an event is refused exactly when this very event is being handled |
| Keys.TxKeysCollideIff | internal/consumer/consumer.go:213 | Two transactions share an idempotency key exactly when they are the same or a colon divides chain and hash elsewhere |
| Keys.TxKeysInjective | internal/consumer/consumer.go:213 | Hashes without a colon never collide, for all chain ids |
| Keys.LogKeysCollideIff | internal/consumer/consumer.go:275 | Log keys collide exactly as their transactions' keys do, at equal indices |
| Keys.FamiliesNeverCollide | internal/consumer/consumer.go:213-275 | Transaction, log and block keys never collide with each other |
| Keys.BlockKeysInjective | internal/storage/redis.go:52-54 | Cache keys of different blocks differ, for all chain ids |
| BlockCache.CoherentIff | internal/storage/storage.go:244-268 | The cache is coherent exactly when each read, whatever is up, answers what the database holds or fails because it is down |
| BlockCache.StepKeepsCoherenceIff | internal/storage/storage.go:205-241 | A coherent state stays so unless a save changes the database while another cached block stays, or a rollback deletes a cached block |
| BlockCache.ReadsLikePlainMap | internal/storage/storage.go:205-268 | In a run without these steps, with expiry at any moment, every read answers like a plain map |
| BlockCache.StaleUntilExpiryOrSave | internal/storage/redis.go:67-82 | A stale entry ends with its expiry or a save that reaches the cache, not with other saves or expiries |
| BlockCache.StorageManager.SaveBlock | internal/storage/storage.go:205-241 | The database first; the cache gets the block exactly if that succeeded and the cache write is not lost; a cache failure is ignored |
| BlockCache.StorageManager.GetBlock | internal/storage/storage.go:244-268 | A cache hit wins, otherwise the database answers |

## Left out

- Worker.ScanBlocks: requires that the last block is below 2^64 − 1 and that the additions of the batch loop stay below 2^64; beyond that the loop of the code need not end, or asks for a slice of negative capacity.
- Worker.ScanBlocksSequential: requires a positive batch size, as its only caller sees to, and the same of its additions.
- Worker.ParallelBatches: requires that its products stay below 2^64, where the code would ask for a slice of negative capacity.
- ChainScanner.Scanner.GenerateTasks: runs as one step, as far as the task queue is concerned; the step system has its emissions one by one.
- ChainScanner.Scanner: keeps one task record per job, while the code's retry goroutine shares one task pointer; negative batch sizes and worker counts, the shard id of a task, status fields and metrics are not modelled.
- ScanScheduler: takes heights as unbounded numbers; the objects above it work with uint64.
- Worker.ScanBlocksParallel: models the collection of results in order of the batches; the code collects them in order of arrival, which changes the partial counts on failure only.
- Blocks that the client skips in a reply without an error: "scanned" means "requested and answered without an error".
- RunningAverage.AverageNearSum: assumes that all samples together fit into int64, as 292 years of nanoseconds do; StepExactIff says what happens otherwise.
- Rollback.RetrySucceedsIff: assumes New ≤ Old, without which nothing is deleted, and no block saved by others between the attempts.
- Rollback.ReorgHandling: keeps the watermarks alone of each scanner; its hash cache is the subject of WatermarkManager. The loops that only count reverted transactions, or call the empty business hook, have no effect and are left out (they do not end for an old number of 2^64 − 1).
- The processing timeout shows as a fault of the step it hits; the automatic rescan after the pipeline starts the scanner again and is not modelled.
- StatusMachine.RunsRaiseRank: runs of ProcessTransaction alone; ForceSetState may lower a rank.
- StatusMachine.StateMachine.ProcessTransaction: reads and writes in one step; overlapping requests are the subject of FinalStaysIff and CanUndoIff. The hooks per status and the rules' actions log and are left out.
- LockProtocol: counts time in milliseconds, assumes that callers and store share a clock and that a call takes effect at once. Other callers do not interleave with LockWithRetry.
- NodeChoice.SelectNodeByWeight: adds weights without an upper limit; a negative total, which panics in the code, is None.
- HashCache.LargestHeightsStay: runs without resets; ResetKeepsTopIff says what a reset leaves of it. A reset is one step.
- BlockCache: one call at a time, and one database for reads and writes; the search index is left out, it is never read here. Expiry may happen at any moment, so its 24 hours do not appear.
- ReorgHandler.DefaultReorgHandler.HandleReorg: for old numbers below 2^64 − 1, at which its loops over the blocks would not end. The advanced handler around the same steps, with a timeout and switches, is not modelled.
- Sharding.AssignmentsAgreeIff: the separate hash of an address (CalculateAddressShard) is not part of this model.
- ReorgHandler.UniqueKeysForceNothing: assumes one row per transaction, as saving by chain and hash gives.
- Saving a detected event before its automatic rollback adds one event row and is not modelled.
- Exponential backoff, scan rates and other floating-point values, sleeps, metrics, start and stop.
- Idempotency checks of the consumer: the repository's checker stores nothing.
- JSON, RPC, Kafka, Elasticsearch, webhooks and wallets: foreign input and output.
- Node-side common-ancestor search: a placeholder in the repository.
- FormatBytes and the other small helpers: nothing to prove that their bodies do not say.
